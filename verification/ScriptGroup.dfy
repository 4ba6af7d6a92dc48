/**
 The script group scheduler (rsScriptGroup.cpp): kernels are grouped into one node
 per script, links become edges between nodes, the nodes are ordered by a marking
 recursion from every node without inputs, and a group runs node by node.
 */
module ScriptGroup {
  import opened Common
  import opened LinkGraph

  type Script = nat
  type Alloc = nat
  const NO_ALLOC: Alloc := 0

  /** ScriptKernelID. */
  datatype Kernel = Kernel(id: nat, script: Script, hasInput: bool, hasOutput: bool)

  /** A link ends in a kernel or in a field of a script. */
  datatype Dst = ToKernel(kernel: Kernel) | ToField(fieldScript: Script)

  datatype Link = Link(source: Kernel, dst: Dst) {
    function DstScript(): Script {
      if dst.ToKernel? then dst.kernel.script else dst.fieldScript
    }
  }

  /** A node without its mSeen and mOrder fields, which are kept in the group's `marks`. */
  datatype Node = Node(script: Script, kernels: seq<Kernel>, outputs: seq<nat>, inputs: seq<nat>)

  /** An input or output of the group as a whole. */
  datatype IO = IO(kernel: Kernel, alloc: Alloc)

  /** What the callers of ScriptGroup::create provide. */
  ghost predicate GoodRequest(kernels: seq<Kernel>, links: seq<Link>) {
    && NoRepeats(kernels)
    && (forall l :: 0 <= l < |links| ==> links[l].source in kernels)
    && (forall l :: 0 <= l < |links| && links[l].dst.ToKernel? ==> links[l].dst.kernel in kernels)
    && (forall l :: 0 <= l < |links| && links[l].dst.ToField? ==> HasScript(kernels, links[l].dst.fieldScript))
  }

  predicate HasScript(kernels: seq<Kernel>, s: Script) {
    exists k :: k in kernels && k.script == s
  }

  // ----------------------------------------------------- What nodes are made of

  /** The kernels of script s, in order. */
  ghost function KernelsOf(kernels: seq<Kernel>, s: Script): seq<Kernel> {
    if |kernels| == 0 then []
    else KernelsOf(kernels[..|kernels| - 1], s)
         + if kernels[|kernels| - 1].script == s then [kernels[|kernels| - 1]] else []
  }

  lemma {:induction false} KernelsOfMember(kernels: seq<Kernel>, s: Script, k: Kernel)
    ensures k in KernelsOf(kernels, s) <==> k in kernels && k.script == s
  {
    if |kernels| > 0 {
      KernelsOfMember(kernels[..|kernels| - 1], s, k);
      assert kernels == kernels[..|kernels| - 1] + [kernels[|kernels| - 1]];
    }
  }

  /** The script at one end of a link. */
  ghost function EndScript(link: Link, source: bool): Script {
    if source then link.source.script else link.DstScript()
  }

  /** The first n links that have script s at their source, or at their destination, in order. */
  ghost function LinksAt(links: seq<Link>, n: nat, s: Script, source: bool): seq<nat>
    requires n <= |links|
  {
    if n == 0 then []
    else LinksAt(links, n - 1, s, source) + if EndScript(links[n - 1], source) == s then [n - 1] else []
  }

  lemma {:induction false} LinksAtMember(links: seq<Link>, n: nat, s: Script, source: bool)
    requires n <= |links|
    ensures forall l: nat :: l in LinksAt(links, n, s, source) <==> l < n && EndScript(links[l], source) == s
    ensures forall i, j :: 0 <= i < j < |LinksAt(links, n, s, source)| ==>
      LinksAt(links, n, s, source)[i] != LinksAt(links, n, s, source)[j]
  {
    if n > 0 {
      LinksAtMember(links, n - 1, s, source);
      var before := LinksAt(links, n - 1, s, source);
      assert forall i :: 0 <= i < |before| ==> before[i] in before;
    }
  }

  /** One node per script, each with just the kernels of its script. */
  ghost predicate NodesOk(nodes: seq<Node>, kernels: seq<Kernel>) {
    && (forall i :: 0 <= i < |nodes| ==> nodes[i].kernels == KernelsOf(kernels, nodes[i].script))
    && (forall i :: 0 <= i < |nodes| ==> |nodes[i].kernels| > 0)
    && (forall i, j :: 0 <= i < j < |nodes| ==> nodes[i].script != nodes[j].script)
    && (forall k :: k in kernels ==> HasNode(nodes, k.script))
  }

  ghost predicate HasNode(nodes: seq<Node>, s: Script) {
    exists i :: 0 <= i < |nodes| && nodes[i].script == s
  }

  ghost predicate LinksOk(nodes: seq<Node>, links: seq<Link>, n: nat)
    requires n <= |links|
  {
    forall i :: 0 <= i < |nodes| ==>
      && nodes[i].outputs == LinksAt(links, n, nodes[i].script, true)
      && nodes[i].inputs == LinksAt(links, n, nodes[i].script, false)
  }

  ghost predicate LinkedUpTo(nodes: seq<Node>, kernels: seq<Kernel>, links: seq<Link>, n: nat)
    requires n <= |links|
  {
    forall k :: Key(k) ==> NodesOk(nodes, kernels) && LinksOk(nodes, links, n)
  }

  // ---------------------------------------------------------------- Searching

  /** Node i has a kernel of script s. */
  predicate Runs(node: Node, s: Script) {
    HasScript(node.kernels, s)
  }

  /** ScriptGroup::findNode. */
  method FindNode(nodes: seq<Node>, s: Script) returns (r: Option<nat>)
    ensures match r
      case Some(i) => i < |nodes| && Runs(nodes[i], s) && forall j :: 0 <= j < i ==> !Runs(nodes[j], s)
      case None => forall j :: 0 <= j < |nodes| ==> !Runs(nodes[j], s)
  {
    var ct := 0;
    while ct < |nodes|
      invariant 0 <= ct <= |nodes|
      invariant forall j :: 0 <= j < ct ==> !Runs(nodes[j], s)
    {
      var n := nodes[ct];
      var ct2 := 0;
      while ct2 < |n.kernels|
        invariant 0 <= ct2 <= |n.kernels|
        invariant forall k :: 0 <= k < ct2 ==> n.kernels[k].script != s
      {
        if n.kernels[ct2].script == s {
          return Some(ct);
        }
        ct2 := ct2 + 1;
      }
      ct := ct + 1;
    }
    return None;
  }

  /** On well-formed nodes, the node found is the one of that script. */
  lemma RunsOwnScript(nodes: seq<Node>, kernels: seq<Kernel>, i: nat, s: Script)
    requires NodesOk(nodes, kernels) && i < |nodes|
    ensures Runs(nodes[i], s) <==> nodes[i].script == s
  {
    forall k | k in nodes[i].kernels
      ensures k.script == nodes[i].script
    {
      KernelsOfMember(kernels, nodes[i].script, k);
    }
    assert nodes[i].kernels[0] in nodes[i].kernels;
  }

  // ------------------------------------------------------- The graph of nodes

  /** g is the graph of the links between these nodes. */
  ghost predicate GraphOf(g: Graph, nodes: seq<Node>, links: seq<Link>) {
    && g.Ok() && g.size == |nodes| && |g.src| == |links|
    && (forall l :: 0 <= l < |links| ==> nodes[g.src[l]].script == links[l].source.script)
    && (forall l :: 0 <= l < |links| ==> EndsIn(links[l], nodes[g.dst[l]].script))
  }

  /** A link goes to the node of the kernel, or of the field, that it ends in. */
  lemma LinkEndNode(g: Graph, nodes: seq<Node>, links: seq<Link>, l: nat)
    requires GraphOf(g, nodes, links) && l < |links|
    ensures nodes[g.src[l]].script == links[l].source.script
    ensures links[l].dst.ToKernel? ==> nodes[g.dst[l]].script == links[l].dst.kernel.script
    ensures links[l].dst.ToField? ==> nodes[g.dst[l]].script == links[l].dst.fieldScript
  {
    assert EndsIn(links[l], nodes[g.dst[l]].script);
  }

  /** The outputs of a node are the links out of it. */
  lemma OutputsAreLinks(g: Graph, nodes: seq<Node>, kernels: seq<Kernel>, links: seq<Link>, n: nat)
    requires NodesOk(nodes, kernels) && LinksOk(nodes, links, |links|) && GraphOf(g, nodes, links) && n < |nodes|
    ensures forall l :: l in nodes[n].outputs <==> 0 <= l < |g.src| && g.src[l] == n
    ensures forall l :: l in nodes[n].inputs <==> 0 <= l < |g.src| && g.dst[l] == n
    ensures forall i, j :: 0 <= i < j < |nodes[n].outputs| ==> nodes[n].outputs[i] != nodes[n].outputs[j]
  {
    var s := nodes[n].script;
    LinksAtMember(links, |links|, s, true);
    LinksAtMember(links, |links|, s, false);
    assert forall i :: 0 <= i < |nodes| && nodes[i].script == s ==> i == n;
  }

  ghost function OutsOf(nodes: seq<Node>): seq<seq<nat>> {
    seq(|nodes|, i requires 0 <= i < |nodes| => nodes[i].outputs)
  }

  lemma GraphHasOutLinks(g: Graph, nodes: seq<Node>, kernels: seq<Kernel>, links: seq<Link>)
    requires NodesOk(nodes, kernels) && LinksOk(nodes, links, |links|) && GraphOf(g, nodes, links)
    ensures OutLinks(g, OutsOf(nodes)) && AllOutLinks(g, OutsOf(nodes))
  {
    var outs := OutsOf(nodes);
    forall n, i | 0 <= n < |outs| && 0 <= i < |outs[n]|
      ensures outs[n][i] < |g.src| && g.src[outs[n][i]] == n
    {
      OutputsAreLinks(g, nodes, kernels, links, n);
      assert outs[n][i] in nodes[n].outputs;
    }
    forall n | 0 <= n < |outs|
      ensures NoRepeats(outs[n])
    {
      OutputsAreLinks(g, nodes, kernels, links, n);
    }
    forall l | 0 <= l < |g.src|
      ensures l in outs[g.src[l]]
    {
      OutputsAreLinks(g, nodes, kernels, links, g.src[l]);
    }
  }

  /** Going on from output ct of node n, with `ok` so far, gives `all`. */
  ghost predicate Pending(g: Graph, outs: seq<seq<nat>>, n: nat, ct: nat, ok: bool, m: Marks, all: (bool, Marks)) {
    && OutLinks(g, outs) && MarksOk(g, m) && n < g.size && n in m.seen && ct <= |outs[n]|
    && all == (ok && VisitLinks(g, outs, n, ct, m).0, VisitLinks(g, outs, n, ct, m).1)
  }

  lemma PendingNext(g: Graph, outs: seq<seq<nat>>, n: nat, ct: nat, ok: bool, m: Marks, all: (bool, Marks),
                    t: nat, v: (bool, Marks))
    requires Pending(g, outs, n, ct, ok, m, all) && ct < |outs[n]|
    requires t == g.dst[outs[n][ct]] && t !in m.seen && v == Visit(g, outs, t, m.order[n] + 1, m)
    ensures Pending(g, outs, n, ct + 1, ok && v.0, v.1, all) && m.seen <= v.1.seen
  {
    VisitLinksRound(g, outs, n, ct, m, all, ok, t, v);
  }

  // ------------------------------------------------------------ Building nodes

  /** A kernel joins the node of its script, or starts one. */
  function WithKernel(nodes: seq<Node>, at: Option<nat>, k: Kernel): seq<Node>
    requires at.Some? ==> at.value < |nodes|
  {
    match at
    case None => nodes + [Node(k.script, [k], [], [])]
    case Some(i) => nodes[i := nodes[i].(kernels := nodes[i].kernels + [k])]
  }

  lemma WithKernelOk(nodes: seq<Node>, at: Option<nat>, kernels: seq<Kernel>, ct: nat)
    requires ct < |kernels| && NodesOk(nodes, kernels[..ct])
    requires match at
      case Some(i) => i < |nodes| && nodes[i].script == kernels[ct].script
      case None => forall j :: 0 <= j < |nodes| ==> nodes[j].script != kernels[ct].script
    ensures NodesOk(WithKernel(nodes, at, kernels[ct]), kernels[..ct + 1])
  {
    var k, now := kernels[ct], kernels[..ct + 1];
    assert now[..|now| - 1] == kernels[..ct];
    var nodes' := WithKernel(nodes, at, k);
    if at.None? && KernelsOf(kernels[..ct], k.script) != [] {
      var k' := KernelsOf(kernels[..ct], k.script)[0];
      KernelsOfMember(kernels[..ct], k.script, k');
      assert false;
    }
    forall k' | k' in now
      ensures HasNode(nodes', k'.script)
    {
      if k' in kernels[..ct] {
        assert HasNode(nodes, k'.script);
        var i :| 0 <= i < |nodes| && nodes[i].script == k'.script;
        assert nodes'[i].script == k'.script;
      } else {
        assert k' == k && nodes'[if at.None? then |nodes| else at.value].script == k'.script;
      }
    }
  }

  /** Link l is added to the outputs of node i and to the inputs of node j. */
  function WithLink(nodes: seq<Node>, i: nat, j: nat, l: nat): seq<Node>
    requires i < |nodes| && j < |nodes|
  {
    var nodes1 := nodes[i := nodes[i].(outputs := nodes[i].outputs + [l])];
    nodes1[j := nodes1[j].(inputs := nodes1[j].inputs + [l])]
  }

  lemma WithLinkOk(nodes: seq<Node>, kernels: seq<Kernel>, links: seq<Link>, i: nat, j: nat, l: nat)
    requires l < |links| && NodesOk(nodes, kernels) && LinksOk(nodes, links, l) && i < |nodes| && j < |nodes|
    requires nodes[i].script == links[l].source.script && nodes[j].script == links[l].DstScript()
    ensures NodesOk(WithLink(nodes, i, j, l), kernels) && LinksOk(WithLink(nodes, i, j, l), links, l + 1)
  {
    var nodes' := WithLink(nodes, i, j, l);
    assert forall n :: 0 <= n < |nodes| ==>
      nodes'[n].script == nodes[n].script && nodes'[n].kernels == nodes[n].kernels;
    forall k | k in kernels
      ensures HasNode(nodes', k.script)
    {
      assert HasNode(nodes, k.script);
      var n :| 0 <= n < |nodes| && nodes[n].script == k.script;
      assert nodes'[n].script == k.script;
    }
  }

  /** The position of the node of script s. */
  ghost function NodeOf(nodes: seq<Node>, s: Script): (i: nat)
    requires HasNode(nodes, s)
    ensures i < |nodes| && nodes[i].script == s
  {
    var i :| 0 <= i < |nodes| && nodes[i].script == s; i
  }

  lemma ScriptHasNode(nodes: seq<Node>, kernels: seq<Kernel>, s: Script)
    requires NodesOk(nodes, kernels) && HasScript(kernels, s)
    ensures HasNode(nodes, s)
  {
    var k :| k in kernels && k.script == s;
  }

  lemma LinkEnds(kernels: seq<Kernel>, links: seq<Link>, l: nat)
    requires GoodRequest(kernels, links) && l < |links|
    ensures HasScript(kernels, links[l].source.script) && HasScript(kernels, links[l].DstScript())
  {
    assert links[l].source in kernels;
  }

  /** The graph of a request. */
  lemma MakeGraph(nodes: seq<Node>, kernels: seq<Kernel>, links: seq<Link>) returns (g: Graph)
    requires GoodRequest(kernels, links) && NodesOk(nodes, kernels)
    ensures GraphOf(g, nodes, links)
  {
    forall l | 0 <= l < |links|
      ensures HasNode(nodes, links[l].source.script) && HasNode(nodes, links[l].DstScript())
    {
      ScriptHasNode(nodes, kernels, links[l].source.script);
      ScriptHasNode(nodes, kernels, links[l].DstScript());
    }
    g := Graph(|nodes|,
               seq(|links|, l requires 0 <= l < |links| => NodeOf(nodes, links[l].source.script)),
               seq(|links|, l requires 0 <= l < |links| => NodeOf(nodes, links[l].DstScript())));
  }

  // ------------------------------------------------------------------- Orders

  /** Orders are not negative, and each is 0 or the length of a path from an input-free node. */
  ghost predicate OrdersOk(g: Graph, order: seq<int>) {
    g.Ok() && |order| == g.size && Attained(g, order) && forall v :: 0 <= v < g.size ==> 0 <= order[v]
  }

  /** Each order is the length of the longest path from an input-free node, and so orders rise along links. */
  ghost predicate OrdersLongest(g: Graph, order: seq<int>) {
    && g.Ok() && |order| == g.size
    && (forall v :: 0 <= v < g.size ==> Longest(g, v, order[v]))
    && forall l :: 0 <= l < |g.src| ==> order[g.src[l]] < order[g.dst[l]]
  }

  /** Paths from the input-free nodes below ct are unique. */
  ghost predicate UniqueBelow(g: Graph, ct: nat)
    requires g.Ok()
  {
    forall r: nat :: r < ct && InputFree(g, r) ==> UniquePaths(g, r)
  }

  /** The roots below ct are done; s is what was explored, as long as no clash was found. */
  ghost predicate RootsDone(g: Graph, order: seq<int>, ct: nat, ok: bool, s: set<nat>) {
    && OrdersOk(g, order) && Ordered(g, order, s)
    && (ok <==> UniqueBelow(g, ct))
    && (ok ==> forall r: nat :: r < ct && InputFree(g, r) ==> r in s)
  }

  lemma RootsSkip(g: Graph, order: seq<int>, ct: nat, ok: bool, s: set<nat>)
    requires RootsDone(g, order, ct, ok, s) && ct < g.size && !InputFree(g, ct)
    ensures RootsDone(g, order, ct + 1, ok, s)
  {
  }

  lemma RootsNext(g: Graph, outs: seq<seq<nat>>, order: seq<int>, n: nat, ok: bool, s: set<nat>)
    requires OutLinks(g, outs) && AllOutLinks(g, outs) && InputFree(g, n) && RootsDone(g, order, n, ok, s)
    ensures var v := Visit(g, outs, n, 0, Marks({}, order));
      RootsDone(g, v.1.order, n + 1, ok && v.0, if ok && v.0 then s + v.1.seen else {})
  {
    RootVisited(g, outs, n, order, s);
  }

  lemma InputsEmpty(g: Graph, nodes: seq<Node>, kernels: seq<Kernel>, links: seq<Link>, n: nat)
    requires NodesOk(nodes, kernels) && LinksOk(nodes, links, |links|) && GraphOf(g, nodes, links) && n < |nodes|
    ensures nodes[n].inputs == [] <==> InputFree(g, n)
  {
    OutputsAreLinks(g, nodes, kernels, links, n);
    assert nodes[n].inputs != [] ==> nodes[n].inputs[0] in nodes[n].inputs;
  }

  // ------------------------------------------------------- Inputs and outputs

  /** Kernel k declares an output, or an input, that no link serves. */
  ghost predicate Free(k: Kernel, links: seq<Link>, output: bool) {
    if output then k.hasOutput && forall l :: 0 <= l < |links| ==> links[l].source != k
    else k.hasInput && forall l :: 0 <= l < |links| ==> links[l].dst != ToKernel(k)
  }

  /** The free ones among the first n kernels, in order. */
  ghost function FreeKernels(kernels: seq<Kernel>, n: nat, links: seq<Link>, output: bool): seq<Kernel>
    requires n <= |kernels|
  {
    if n == 0 then []
    else FreeKernels(kernels, n - 1, links, output)
         + if Free(kernels[n - 1], links, output) then [kernels[n - 1]] else []
  }

  lemma {:induction false} FreeKernelsMember(kernels: seq<Kernel>, n: nat, links: seq<Link>, output: bool, k: Kernel)
    requires n <= |kernels|
    ensures k in FreeKernels(kernels, n, links, output) <==> k in kernels[..n] && Free(k, links, output)
  {
    if n > 0 {
      FreeKernelsMember(kernels, n - 1, links, output, k);
      assert kernels[..n] == kernels[..n - 1] + [kernels[n - 1]];
    }
  }

  ghost function KernelsIn(ios: seq<IO>): seq<Kernel> {
    seq(|ios|, i requires 0 <= i < |ios| => ios[i].kernel)
  }

  /** Some link in the list has kernel k at its source, or as its destination. */
  ghost predicate Serves(links: seq<Link>, list: seq<nat>, k: Kernel, output: bool) {
    exists i :: 0 <= i < |list| && list[i] < |links| && Touches(links[list[i]], k, output)
  }

  predicate Touches(link: Link, k: Kernel, output: bool) {
    if output then link.source == k else link.dst == ToKernel(k)
  }

  lemma TouchingLinkAtNode(nodes: seq<Node>, links: seq<Link>, n: nat, k: Kernel, output: bool, l: nat)
    requires LinksOk(nodes, links, |links|) && n < |nodes| && nodes[n].script == k.script
    requires l < |links| && Touches(links[l], k, output)
    ensures l in (if output then nodes[n].outputs else nodes[n].inputs)
  {
    LinksAtMember(links, |links|, k.script, output);
  }

  lemma LinksInRange(nodes: seq<Node>, links: seq<Link>, n: nat)
    requires LinksOk(nodes, links, |links|) && n < |nodes|
    ensures InRange(nodes[n].outputs, |links|) && InRange(nodes[n].inputs, |links|)
  {
    LinksAtMember(links, |links|, nodes[n].script, true);
    LinksAtMember(links, |links|, nodes[n].script, false);
    assert forall i :: 0 <= i < |nodes[n].outputs| ==> nodes[n].outputs[i] in nodes[n].outputs;
    assert forall i :: 0 <= i < |nodes[n].inputs| ==> nodes[n].inputs[i] in nodes[n].inputs;
  }

  ghost predicate InRange(list: seq<nat>, n: nat) {
    forall i :: 0 <= i < |list| ==> list[i] < n
  }

  /** The links at its own node decide whether a kernel is free. */
  lemma FreeAtNode(nodes: seq<Node>, links: seq<Link>, n: nat, k: Kernel, output: bool)
    requires LinksOk(nodes, links, |links|) && n < |nodes| && nodes[n].script == k.script
    ensures Free(k, links, output) <==>
      (if output then k.hasOutput else k.hasInput)
      && !Serves(links, if output then nodes[n].outputs else nodes[n].inputs, k, output)
  {
    var list := if output then nodes[n].outputs else nodes[n].inputs;
    forall l: nat | l < |links| && Touches(links[l], k, output)
      ensures Serves(links, list, k, output)
    {
      TouchingLinkAtNode(nodes, links, n, k, output, l);
      var i :| 0 <= i < |list| && list[i] == l;
      assert Touches(links[list[i]], k, output);
    }
    if Serves(links, list, k, output) {
      var i :| 0 <= i < |list| && list[i] < |links| && Touches(links[list[i]], k, output);
    }
  }

  lemma ServedIfLinked(nodes: seq<Node>, links: seq<Link>, n: nat, k: Kernel, output: bool)
    requires LinksOk(nodes, links, |links|) && n < |nodes| && nodes[n].script == k.script
    ensures Linked(links, k, output) <==> Serves(links, if output then nodes[n].outputs else nodes[n].inputs, k, output)
  {
    var list := if output then nodes[n].outputs else nodes[n].inputs;
    if l: nat :| l < |links| && Touches(links[l], k, output) {
      TouchingLinkAtNode(nodes, links, n, k, output, l);
      var i :| 0 <= i < |list| && list[i] == l;
      assert Touches(links[list[i]], k, output);
    }
  }

  lemma {:induction false} FreeKernelsDistinct(kernels: seq<Kernel>, n: nat, links: seq<Link>, output: bool)
    requires n <= |kernels| && NoRepeats(kernels)
    ensures NoRepeats(FreeKernels(kernels, n, links, output))
  {
    if n > 0 {
      var before := FreeKernels(kernels, n - 1, links, output);
      FreeKernelsDistinct(kernels, n - 1, links, output);
      forall i | 0 <= i < |before|
        ensures before[i] != kernels[n - 1]
      {
        FreeKernelsMember(kernels, n - 1, links, output, before[i]);
      }
    }
  }

  // ------------------------------------------------------------------- Sorting

  /** std::sort by order: any sorted arrangement will do below. */
  method Sort(order: seq<int>) returns (list: seq<nat>)
    ensures Schedule(list, |order|) && SortedBy(list, order)
  {
    list := [];
    var n := 0;
    while n < |order|
      invariant 0 <= n <= |order| && Schedule(list, n)
      invariant forall i, j :: 0 <= i < j < |list| ==> Keyed(order, list[i]) <= Keyed(order, list[j])
    {
      var p := |list|;
      while p > 0 && Keyed(order, list[p - 1]) > order[n]
        invariant 0 <= p <= |list| && forall i :: p <= i < |list| ==> order[n] < Keyed(order, list[i])
      {
        p := p - 1;
      }
      ghost var before := list;
      list := list[..p] + [n] + list[p..];
      InsertKeepsSchedule(before, n, p);
      n := n + 1;
    }
  }

  // --------------------------------------------------------- Link allocations

  /** Links with an allocation have it in common with just the links from the same kernel. */
  ghost predicate Sharing(links: seq<Link>, alloc: seq<Alloc>, next: nat) {
    && |alloc| == |links| && next > NO_ALLOC
    && (forall l :: 0 <= l < |links| ==> alloc[l] < next)
    && forall k :: Key(k) ==> SharedWithin(links, alloc)
  }

  ghost predicate SharedWithin(links: seq<Link>, alloc: seq<Alloc>)
    requires |alloc| == |links|
  {
    forall l, m :: 0 <= l < |links| && 0 <= m < |links| && alloc[l] != NO_ALLOC ==>
                     (alloc[l] == alloc[m] <==> links[l].source == links[m].source)
  }

  ghost function Assign(links: seq<Link>, alloc: seq<Alloc>, source: Kernel, a: Alloc): seq<Alloc>
    requires |alloc| == |links|
  {
    seq(|links|, l requires 0 <= l < |links| => if links[l].source == source then a else alloc[l])
  }

  lemma AssignShares(links: seq<Link>, alloc: seq<Alloc>, l: nat, next: nat)
    requires Sharing(links, alloc, next) && l < |links| && alloc[l] == NO_ALLOC
    ensures Sharing(links, Assign(links, alloc, links[l].source, next), next + 1)
  {
    assert Key(0);
  }

  /** Every link has an allocation, shared by just the links from the same kernel. */
  ghost predicate AllocsOk(links: seq<Link>, alloc: seq<Alloc>) {
    && |alloc| == |links|
    && (forall l :: 0 <= l < |links| ==> alloc[l] != NO_ALLOC)
    && (forall l, m :: 0 <= l < |links| && 0 <= m < |links| ==>
          (alloc[l] == alloc[m] <==> links[l].source == links[m].source))
  }

  ghost predicate AllSet(alloc: seq<Alloc>, list: seq<nat>) {
    forall i :: 0 <= i < |list| ==> list[i] < |alloc| && alloc[list[i]] != NO_ALLOC
  }

  /** The unassigned links from the source of output ct2 are among the outputs from ct2 on. */
  lemma SourceLinksAhead(nodes: seq<Node>, links: seq<Link>, alloc: seq<Alloc>, next: nat, n: nat, ct2: nat, l: nat)
    requires LinksOk(nodes, links, |links|) && Sharing(links, alloc, next) && n < |nodes| && ct2 < |nodes[n].outputs|
    requires AllSet(alloc, nodes[n].outputs[..ct2]) && l < |links|
    requires nodes[n].outputs[ct2] < |links| && alloc[nodes[n].outputs[ct2]] == NO_ALLOC
    requires links[l].source == links[nodes[n].outputs[ct2]].source
    ensures exists i :: ct2 <= i < |nodes[n].outputs| && nodes[n].outputs[i] == l
  {
    assert Key(0);
    var outs := nodes[n].outputs;
    LinksAtMember(links, |links|, nodes[n].script, true);
    assert outs[ct2] in outs;
    assert l in outs;
    var i :| 0 <= i < |outs| && outs[i] == l;
    if i < ct2 {
      assert false;
    }
  }

  /** Assigned links stay assigned. */
  ghost predicate Grown(alloc: seq<Alloc>, alloc': seq<Alloc>) {
    |alloc| == |alloc'| && forall l :: 0 <= l < |alloc| && alloc[l] != NO_ALLOC ==> alloc'[l] != NO_ALLOC
  }

  /** The links out of the first ct scheduled nodes are assigned. */
  ghost predicate NodesSet(nodes: seq<Node>, order: seq<nat>, ct: nat, alloc: seq<Alloc>)
    requires ct <= |order|
  {
    forall i :: 0 <= i < ct && order[i] < |nodes| ==> AllSet(alloc, nodes[order[i]].outputs)
  }

  lemma AllLinksSet(nodes: seq<Node>, kernels: seq<Kernel>, links: seq<Link>, order: seq<nat>, alloc: seq<Alloc>,
                    next: nat)
    requires GoodRequest(kernels, links) && NodesOk(nodes, kernels) && LinksOk(nodes, links, |links|)
    requires Schedule(order, |nodes|) && NodesSet(nodes, order, |order|, alloc) && Sharing(links, alloc, next)
    ensures AllocsOk(links, alloc)
  {
    assert Key(0);
    forall l: nat | l < |links|
      ensures alloc[l] != NO_ALLOC
    {
      LinkEnds(kernels, links, l);
      var s := links[l].source.script;
      ScriptHasNode(nodes, kernels, s);
      var n := NodeOf(nodes, s);
      LinksAtMember(links, |links|, s, true);
      assert n in order && l in nodes[n].outputs;
    }
  }

  /** What ordering guarantees of the schedule that is sorted by it. */
  lemma ScheduleRespectsLinks(g: Graph, list: seq<nat>, order: seq<int>)
    requires g.Ok() && |order| == g.size && Schedule(list, g.size) && SortedBy(list, order)
    requires AllReached(g) ==> OrdersLongest(g, order)
    ensures SourcesFirst(g, list) <==> AllReached(g)
  {
    if AllReached(g) {
      SortedIsSourcesFirst(g, list, order);
    }
    if SourcesFirst(g, list) {
      forall v | 0 <= v < g.size
        ensures ReachedSomehow(g, v)
      {
        assert v in list;
        var j :| 0 <= j < |list| && list[j] == v;
        SourcesFirstReached(g, list, j);
      }
    }
  }

  /** The nodes are made and linked, and g is their graph. */
  ghost predicate Built(g: Graph, outs: seq<seq<nat>>, nodes: seq<Node>, kernels: seq<Kernel>, links: seq<Link>) {
    && NodesOk(nodes, kernels) && LinksOk(nodes, links, |links|) && GraphOf(g, nodes, links)
    && outs == OutsOf(nodes) && OutLinks(g, outs) && AllOutLinks(g, outs)
  }

  ghost predicate Wired(g: Graph, outs: seq<seq<nat>>, nodes: seq<Node>, kernels: seq<Kernel>, links: seq<Link>) {
    forall k :: Key(k) ==> Built(g, outs, nodes, kernels, links)
  }

  /**
   The outcome of ordering: `ok` exactly when no input-free node reaches a node by two paths;
   if so, the schedule respects all links exactly when every node is reached from an input-free
   one, and then orders are longest path lengths.
   */
  ghost predicate Planned(g: Graph, list: seq<nat>, order: seq<int>, ok: bool) {
    && g.Ok() && |order| == g.size && Schedule(list, g.size) && SortedBy(list, order)
    && (ok <==> UniqueBelow(g, g.size))
    && (ok ==> (SourcesFirst(g, list) <==> AllReached(g)))
    && (ok && AllReached(g) ==> OrdersLongest(g, order))
  }

  /** The orders before the third loop. */
  function Zeros(n: nat): seq<int> {
    seq(n, i => 0)
  }

  /** The orders of a request, whatever the answer is. */
  ghost function OrdersOf(g: Graph, nodes: seq<Node>): (r: (bool, seq<int>))
    requires g.size == |nodes| && OutLinks(g, OutsOf(nodes))
  {
    OrderRoots(g, OutsOf(nodes), 0, Zeros(|nodes|))
  }

  /** Going on from root ct, with `ok` so far, gives `all`. */
  ghost predicate RootsLeft(g: Graph, outs: seq<seq<nat>>, ct: nat, ok: bool, order: seq<int>, all: (bool, seq<int>)) {
    && OutLinks(g, outs) && |order| == g.size && ct <= g.size
    && all == (ok && OrderRoots(g, outs, ct, order).0, OrderRoots(g, outs, ct, order).1)
  }

  // ------------------------------------------------------- Two requests that fail

  /** Two scripts linked to each other. */
  function CycleKernels(): seq<Kernel> {
    [Kernel(0, 1, true, true), Kernel(1, 2, true, true)]
  }

  function CycleLinks(): seq<Link> {
    var ks := CycleKernels();
    [Link(ks[0], ToKernel(ks[1])), Link(ks[1], ToKernel(ks[0]))]
  }

  lemma CycleIsGood()
    ensures GoodRequest(CycleKernels(), CycleLinks())
  {
    var ks := CycleKernels();
    assert ks[0] in ks && ks[1] in ks;
  }

  /** No clash is found, as no node is without inputs, and no schedule respects the links. */
  lemma CycleIsAccepted(g: Graph, nodes: seq<Node>)
    requires NodesOk(nodes, CycleKernels()) && GraphOf(g, nodes, CycleLinks())
    ensures UniqueBelow(g, g.size) && forall list :: Schedule(list, g.size) ==> !SourcesFirst(g, list)
  {
    var a, b := g.src[0], g.dst[0];
    assert g.src[1] == b && g.dst[1] == a;
    forall v: nat | v < g.size
      ensures !InputFree(g, v)
    {
      NodeKernel(nodes, CycleKernels(), v, 0);
      assert v == a || v == b;
    }
    forall list | Schedule(list, g.size)
      ensures !SourcesFirst(g, list)
    {
      assert a in list && b in list;
      var i, j :| 0 <= i < |list| && 0 <= j < |list| && list[i] == a && list[j] == b;
    }
  }

  /** Script 2 feeds script 3 twice, and then script 1. */
  function ForkKernels(): seq<Kernel> {
    [Kernel(0, 1, true, true), Kernel(1, 2, true, true), Kernel(2, 3, true, true)]
  }

  function ForkLinks(): seq<Link> {
    var ks := ForkKernels();
    [Link(ks[1], ToKernel(ks[2])), Link(ks[1], ToKernel(ks[2])), Link(ks[1], ToKernel(ks[0]))]
  }

  /** Node v is one of these. */
  ghost predicate OneOf(v: nat, a: nat, b: nat, d: nat) {
    v == a || v == b || v == d
  }

  /** Node a has two links to b and then one to d, and there are no other nodes and links. */
  ghost predicate IsFork(g: Graph, outs: seq<seq<nat>>, a: nat, b: nat, d: nat) {
    && g.src == [a, a, a] && g.dst == [b, b, d] && a != b && b != d && a != d
    && OutLinks(g, outs) && (forall v: nat :: v < g.size ==> OneOf(v, a, b, d))
    && a < g.size && b < g.size && outs[a] == [0, 1, 2] && outs[b] == []
  }

  lemma ForkOuts(nodes: seq<Node>, a: nat, b: nat)
    requires LinksOk(nodes, ForkLinks(), 3) && a < |nodes| && b < |nodes|
    requires nodes[a].script == 2 && nodes[b].script == 3
    ensures OutsOf(nodes)[a] == [0, 1, 2] && OutsOf(nodes)[b] == []
  {
    var links := ForkLinks();
    forall s | s == 2 || s == 3
      ensures LinksAt(links, 3, s, true) == if s == 2 then [0, 1, 2] else []
    {
      assert LinksAt(links, 0, s, true) == [];
      assert LinksAt(links, 1, s, true) == if s == 2 then [0] else [];
      assert LinksAt(links, 2, s, true) == if s == 2 then [0, 1] else [];
    }
  }

  lemma ForkEnds(g: Graph, nodes: seq<Node>)
    requires NodesOk(nodes, ForkKernels()) && GraphOf(g, nodes, ForkLinks())
    ensures var a, b, d := g.src[0], g.dst[0], g.dst[2];
      && g.src == [a, a, a] && g.dst == [b, b, d] && a != b && b != d && a != d
      && nodes[a].script == 2 && nodes[b].script == 3 && forall v: nat :: v < g.size ==> OneOf(v, a, b, d)
  {
    var a, b, d := g.src[0], g.dst[0], g.dst[2];
    assert nodes[a].script == 2 && nodes[b].script == 3 && nodes[d].script == 1;
    assert g.src == [a, g.src[1], g.src[2]] && g.dst == [b, g.dst[1], d];
    forall v: nat | v < g.size
      ensures OneOf(v, a, b, d)
    {
      NodeKernel(nodes, ForkKernels(), v, 0);
    }
  }

  lemma ForkGraph(g: Graph, nodes: seq<Node>)
    requires Wired(g, OutsOf(nodes), nodes, ForkKernels(), ForkLinks()) && |g.src| == |g.dst| == 3
    ensures IsFork(g, OutsOf(nodes), g.src[0], g.dst[0], g.dst[2])
  {
    assert Key(0);
    ForkEnds(g, nodes);
    ForkOuts(nodes, g.src[0], g.dst[0]);
  }

  /** The recursion gives up at the second link to b, and so never orders d. */
  lemma {:induction false} ForkOrders(g: Graph, outs: seq<seq<nat>>, a: nat, b: nat, d: nat)
    requires IsFork(g, outs, a, b, d)
    ensures OrderRoots(g, outs, 0, Zeros(g.size)) == (false, Zeros(g.size)[b := 1])
  {
    var zeros := Zeros(g.size);
    assert g.dst[0] == b && g.dst[2] == d;
    forall v: nat | InputFree(g, v)
      ensures v == a
    {
      assert OneOf(v, a, b, d);
    }
    SingleRoot(g, outs, 0, zeros, a);
    ForkVisit(g, outs, a, b, d);
  }

  lemma {:induction false} ForkVisit(g: Graph, outs: seq<seq<nat>>, a: nat, b: nat, d: nat)
    requires IsFork(g, outs, a, b, d)
    ensures Visit(g, outs, a, 0, Marks({}, Zeros(g.size))) == (false, Marks({a} + {b}, Zeros(g.size)[b := 1]))
  {
    var m, m1 := Marks({a}, Zeros(g.size)), Marks({a} + {b}, Zeros(g.size)[b := 1]);
    assert {} + {a} == {a} && Zeros(g.size)[a := 0] == Zeros(g.size);
    VisitLinksStep(g, outs, a, 0, m);
    VisitLinksStop(g, outs, b, 0, m1);
    assert Visit(g, outs, b, 1, m) == (true, m1);
    VisitLinksStop(g, outs, a, 1, m1);
  }

  /** Two of its schedules. */
  lemma ForkSchedules(g: Graph, outs: seq<seq<nat>>, a: nat, b: nat, d: nat)
    requires IsFork(g, outs, a, b, d)
    ensures Schedule([a, d, b], g.size) && SortedBy([a, d, b], Zeros(g.size)[b := 1]) && SourcesFirst(g, [a, d, b])
    ensures Schedule([d, a, b], g.size) && SortedBy([d, a, b], Zeros(g.size)[b := 1]) && !SourcesFirst(g, [d, a, b])
  {
    var bad := [d, a, b];
    assert forall v: nat :: v in [a, d, b] <==> OneOf(v, a, b, d);
    assert forall v: nat :: v in bad <==> OneOf(v, a, b, d);
    assert bad[0] == g.dst[2] && bad[1] == g.src[2];
  }

  /**
   The answer is no, and sorting may or may not respect the links: the orders allow a schedule
   that does and one that runs script 1 before the script that feeds it.
   */
  lemma DestinationCanComeFirst(g: Graph, nodes: seq<Node>) returns (good: seq<nat>, bad: seq<nat>)
    requires Built(g, OutsOf(nodes), nodes, ForkKernels(), ForkLinks())
    ensures !OrdersOf(g, nodes).0 && |OrdersOf(g, nodes).1| == g.size
    ensures Schedule(good, g.size) && SortedBy(good, OrdersOf(g, nodes).1) && SourcesFirst(g, good)
    ensures Schedule(bad, g.size) && SortedBy(bad, OrdersOf(g, nodes).1) && !SourcesFirst(g, bad)
  {
    ForkGraph(g, nodes);
    var a, b, d := g.src[0], g.dst[0], g.dst[2];
    ForkOrders(g, OutsOf(nodes), a, b, d);
    ForkSchedules(g, OutsOf(nodes), a, b, d);
    good, bad := [a, d, b], [d, a, b];
  }

  // ----------------------------------------------------------------- Execution

  /** One call of runForEach. */
  datatype Run = Run(kernel: Kernel, ain: Alloc, aout: Alloc)

  /** The kernels of the first n scheduled nodes. */
  ghost function RunOrder(nodes: seq<Node>, list: seq<nat>, n: nat): seq<Kernel>
    requires n <= |list| && InRange(list, |nodes|)
  {
    if n == 0 then [] else RunOrder(nodes, list, n - 1) + nodes[list[n - 1]].kernels
  }

  lemma {:induction false} RunOrderMember(nodes: seq<Node>, list: seq<nat>, n: nat, k: Kernel)
    requires n <= |list| && InRange(list, |nodes|)
    ensures k in RunOrder(nodes, list, n) <==> exists i :: 0 <= i < n && k in nodes[list[i]].kernels
  {
    if n > 0 {
      RunOrderMember(nodes, list, n - 1, k);
    }
  }

  lemma {:induction false} KernelsOfDistinct(kernels: seq<Kernel>, s: Script)
    requires NoRepeats(kernels)
    ensures NoRepeats(KernelsOf(kernels, s))
  {
    if |kernels| > 0 {
      var before := KernelsOf(kernels[..|kernels| - 1], s);
      KernelsOfDistinct(kernels[..|kernels| - 1], s);
      forall i | 0 <= i < |before|
        ensures before[i] != kernels[|kernels| - 1]
      {
        KernelsOfMember(kernels[..|kernels| - 1], s, before[i]);
      }
    }
  }

  /** No kernel is scheduled twice. */
  lemma {:induction false} RunOrderDistinct(nodes: seq<Node>, kernels: seq<Kernel>, list: seq<nat>, n: nat)
    requires NoRepeats(kernels) && NodesOk(nodes, kernels) && Schedule(list, |nodes|) && n <= |list|
    requires InRange(list, |nodes|)
    ensures NoRepeats(RunOrder(nodes, list, n))
  {
    if n > 0 {
      RunOrderDistinct(nodes, kernels, list, n - 1);
      var before, node := RunOrder(nodes, list, n - 1), nodes[list[n - 1]];
      KernelsOfDistinct(kernels, node.script);
      forall i, j | 0 <= i < |before| && 0 <= j < |node.kernels|
        ensures before[i] != node.kernels[j]
      {
        RunOrderMember(nodes, list, n - 1, before[i]);
        assert before[i] in before;
        var m :| 0 <= m < n - 1 && before[i] in nodes[list[m]].kernels;
        KernelsOfMember(kernels, nodes[list[m]].script, before[i]);
        KernelsOfMember(kernels, node.script, node.kernels[j]);
        assert list[m] != list[n - 1];
      }
    }
  }

  /** Every kernel of the group is scheduled, and no other. */
  lemma {:induction false} RunOrderComplete(nodes: seq<Node>, kernels: seq<Kernel>, list: seq<nat>, k: Kernel)
    requires NodesOk(nodes, kernels) && Schedule(list, |nodes|)
    requires InRange(list, |nodes|)
    ensures k in RunOrder(nodes, list, |list|) <==> k in kernels
  {
    RunOrderMember(nodes, list, |list|, k);
    if k in kernels {
      assert HasNode(nodes, k.script);
      var n := NodeOf(nodes, k.script);
      KernelsOfMember(kernels, k.script, k);
      assert n in list;
    }
    if i :| 0 <= i < |list| && k in nodes[list[i]].kernels {
      KernelsOfMember(kernels, nodes[list[i]].script, k);
    }
  }

  /** In a schedule that respects the links, the source of a link into node list[ct] has run. */
  lemma SourceHasRun(g: Graph, nodes: seq<Node>, kernels: seq<Kernel>, links: seq<Link>, list: seq<nat>, ct: nat,
                     l: nat)
    requires GoodRequest(kernels, links) && NodesOk(nodes, kernels) && GraphOf(g, nodes, links)
    requires Schedule(list, |nodes|) && SourcesFirst(g, list) && ct < |list| && l < |links|
    requires InRange(list, |nodes|)
    requires EndsIn(links[l], nodes[list[ct]].script)
    ensures links[l].source in RunOrder(nodes, list, ct)
  {
    assert g.dst[l] == list[ct];
    assert g.src[l] in list;
    var i :| 0 <= i < |list| && list[i] == g.src[l];
    assert i < ct;
    KernelsOfMember(kernels, nodes[list[i]].script, links[l].source);
    RunOrderMember(nodes, list, ct, links[l].source);
  }

  lemma SourcesHaveRun(g: Graph, nodes: seq<Node>, kernels: seq<Kernel>, links: seq<Link>, list: seq<nat>, ct: nat)
    requires GoodRequest(kernels, links) && NodesOk(nodes, kernels) && GraphOf(g, nodes, links)
    requires Schedule(list, |nodes|) && ct < |list| && InRange(list, |nodes|)
    ensures SourcesFirst(g, list) ==>
      forall l :: 0 <= l < |links| && EndsIn(links[l], nodes[list[ct]].script) ==>
                    links[l].source in RunOrder(nodes, list, ct)
  {
    if SourcesFirst(g, list) {
      forall l: nat | l < |links| && EndsIn(links[l], nodes[list[ct]].script)
        ensures links[l].source in RunOrder(nodes, list, ct)
      {
        SourceHasRun(g, nodes, kernels, links, list, ct, l);
      }
    }
  }

  lemma NodeKernel(nodes: seq<Node>, kernels: seq<Kernel>, n: nat, i: nat)
    requires NodesOk(nodes, kernels) && n < |nodes| && i < |nodes[n].kernels|
    ensures nodes[n].kernels[i] in kernels && nodes[n].kernels[i].script == nodes[n].script
  {
    KernelsOfMember(kernels, nodes[n].script, nodes[n].kernels[i]);
  }

  /** All inputs, or outputs, have an allocation. */
  predicate Bound(ios: seq<IO>) {
    forall i :: 0 <= i < |ios| ==> ios[i].alloc != NO_ALLOC
  }

  /** The entry of kernel kid gets allocation a. */
  ghost function WithAlloc(ios: seq<IO>, kid: Kernel, a: Alloc): seq<IO> {
    seq(|ios|, i requires 0 <= i < |ios| => if ios[i].kernel == kid then IO(kid, a) else ios[i])
  }

  /** The setInput and setOutput loop. */
  method Bind(ios: seq<IO>, kid: Kernel, a: Alloc) returns (ios': seq<IO>)
    requires NoRepeats(KernelsIn(ios))
    ensures ios' == WithAlloc(ios, kid, a) && KernelsIn(ios') == KernelsIn(ios)
  {
    var ct := 0;
    while ct < |ios|
      invariant 0 <= ct <= |ios| && forall i :: 0 <= i < ct ==> ios[i].kernel != kid
    {
      if ios[ct].kernel == kid {
        ios' := ios[ct := IO(kid, a)];
        forall i | ct < i < |ios|
          ensures ios[i].kernel != kid
        {
          assert KernelsIn(ios)[ct] != KernelsIn(ios)[i];
        }
        return;
      }
      ct := ct + 1;
    }
    return ios;
  }

  /** The last allocation bound to kernel k, if any. */
  method Lookup(ios: seq<IO>, k: Kernel, start: Alloc) returns (a: Alloc)
    ensures if k in KernelsIn(ios) then exists i :: 0 <= i < |ios| && ios[i] == IO(k, a) else a == start
  {
    a := start;
    var ct3 := 0;
    while ct3 < |ios|
      invariant 0 <= ct3 <= |ios|
      invariant (exists i :: 0 <= i < ct3 && ios[i] == IO(k, a))
                || (a == start && forall i :: 0 <= i < ct3 ==> ios[i].kernel != k)
    {
      if ios[ct3].kernel == k {
        a := ios[ct3].alloc;
      }
      ct3 := ct3 + 1;
    }
    if i :| 0 <= i < |ios| && ios[i] == IO(k, a) {
      assert KernelsIn(ios)[i] == k;
    }
  }

  /** The allocation of the last link in the list that starts, or ends, at kernel k, if any. */
  method LookupLink(links: seq<Link>, alloc: seq<Alloc>, list: seq<nat>, k: Kernel, output: bool) returns (a: Alloc)
    requires |alloc| == |links| && InRange(list, |links|)
    ensures if Serves(links, list, k, output) then LinkGives(links, alloc, k, output, a) else a == NO_ALLOC
  {
    a := NO_ALLOC;
    var ct3 := 0;
    while ct3 < |list|
      invariant 0 <= ct3 <= |list|
      invariant LinkGives(links, alloc, k, output, a)
                || (a == NO_ALLOC && forall i :: 0 <= i < ct3 ==> !Touches(links[list[i]], k, output))
      invariant LinkGives(links, alloc, k, output, a) ==> a == NO_ALLOC || Serves(links, list, k, output)
    {
      if Touches(links[list[ct3]], k, output) {
        a := alloc[list[ct3]];
      }
      ct3 := ct3 + 1;
    }
  }

  /** a is the allocation of a link that starts, or ends, at kernel k. */
  ghost predicate LinkGives(links: seq<Link>, alloc: seq<Alloc>, k: Kernel, output: bool, a: Alloc)
    requires |alloc| == |links|
  {
    exists l :: 0 <= l < |links| && Touches(links[l], k, output) && alloc[l] == a
  }

  ghost predicate Linked(links: seq<Link>, k: Kernel, output: bool) {
    exists l :: 0 <= l < |links| && Touches(links[l], k, output)
  }

  /** Where the arguments of runs come from: links with their allocations, and the inputs and outputs of the group. */
  datatype Wiring = Wiring(links: seq<Link>, alloc: seq<Alloc>, inputs: seq<IO>, outputs: seq<IO>) {
    ghost predicate Ok() {
      |alloc| == |links|
    }
  }

  /** What a kernel runs with: its link's allocation, or what the group has bound to it, or none if it declares none. */
  ghost predicate ArgOk(w: Wiring, k: Kernel, output: bool, a: Alloc)
    requires w.Ok()
  {
    if Linked(w.links, k, output) then LinkGives(w.links, w.alloc, k, output, a) && a != NO_ALLOC
    else if (if output then k.hasOutput else k.hasInput) then
      IO(k, a) in (if output then w.outputs else w.inputs) && a != NO_ALLOC
    else a == NO_ALLOC
  }

  lemma ArgIsOk(kernels: seq<Kernel>, w: Wiring, k: Kernel, output: bool, start: Alloc, a: Alloc)
    requires AllocsOk(w.links, w.alloc) && k in kernels && Bound(if output then w.outputs else w.inputs)
    requires KernelsIn(if output then w.outputs else w.inputs) == FreeKernels(kernels, |kernels|, w.links, output)
    requires if Linked(w.links, k, output) then LinkGives(w.links, w.alloc, k, output, start) else start == NO_ALLOC
    requires var ios := if output then w.outputs else w.inputs;
      if k in KernelsIn(ios) then exists i :: 0 <= i < |ios| && ios[i] == IO(k, a) else a == start
    ensures ArgOk(w, k, output, a)
  {
    FreeKernelsMember(kernels, |kernels|, w.links, output, k);
    assert kernels[..|kernels|] == kernels;
    FreeIffNotLinked(w.links, k, output);
  }

  lemma FreeIffNotLinked(links: seq<Link>, k: Kernel, output: bool)
    ensures Free(k, links, output) <==> !Linked(links, k, output) && if output then k.hasOutput else k.hasInput
  {
    assert forall l :: 0 <= l < |links| && !Linked(links, k, output) ==> !Touches(links[l], k, output);
  }

  ghost function KernelsRun(ran: seq<Run>): seq<Kernel> {
    seq(|ran|, i requires 0 <= i < |ran| => ran[i].kernel)
  }

  /** The link ends in a kernel, or in a field, of script s. */
  predicate EndsIn(link: Link, s: Script) {
    match link.dst
    case ToKernel(k) => k.script == s
    case ToField(t) => t == s
  }

  /**
   Run x, after the runs in `before`, has the allocations it declares or is linked to, and, if
   the schedule respects the links, the sources of all links into its script ran before it.
   */
  ghost predicate RunOk(w: Wiring, before: seq<Run>, x: Run, respects: bool)
    requires w.Ok()
  {
    && ArgOk(w, x.kernel, false, x.ain) && ArgOk(w, x.kernel, true, x.aout)
    && (respects ==> forall l :: 0 <= l < |w.links| && EndsIn(w.links[l], x.kernel.script) ==>
                                   w.links[l].source in KernelsRun(before))
  }

  /** All runs are in order. */
  ghost predicate RunsOk(w: Wiring, ran: seq<Run>, respects: bool)
    requires w.Ok()
  {
    forall i :: 0 <= i < |ran| ==> RunOk(w, ran[..i], ran[i], respects)
  }

  lemma RunsNext(w: Wiring, ran: seq<Run>, x: Run, respects: bool)
    requires w.Ok() && RunsOk(w, ran, respects) && RunOk(w, ran, x, respects)
    ensures RunsOk(w, ran + [x], respects) && KernelsRun(ran + [x]) == KernelsRun(ran) + [x.kernel]
  {
    var ran' := ran + [x];
    forall i | 0 <= i < |ran'|
      ensures RunOk(w, ran'[..i], ran'[i], respects)
    {
      assert ran'[..i] == if i < |ran| then ran[..i] else ran;
    }
  }

  /** Run j wrote the allocation that run i reads over link l. */
  ghost predicate Feeds(w: Wiring, ran: seq<Run>, j: nat, i: nat, l: nat)
    requires w.Ok() && j < |ran| && i < |ran|
  {
    && l < |w.links| && w.links[l].source == ran[j].kernel && w.links[l].dst == ToKernel(ran[i].kernel)
    && ran[j].aout == ran[i].ain == w.alloc[l]
  }

  /** When the schedule respects the links, a linked kernel reads what the source of its link wrote before. */
  lemma ReadsWhatSourceWrote(w: Wiring, ran: seq<Run>, i: nat)
    requires AllocsOk(w.links, w.alloc) && RunsOk(w, ran, true) && i < |ran| && Linked(w.links, ran[i].kernel, false)
    ensures exists j: nat, l: nat :: j < i && Feeds(w, ran, j, i, l)
  {
    assert RunOk(w, ran[..i], ran[i], true);
    var l: nat :| l < |w.links| && Touches(w.links[l], ran[i].kernel, false) && w.alloc[l] == ran[i].ain;
    assert w.links[l].source in KernelsRun(ran[..i]);
    var j: nat :| j < i && ran[j].kernel == w.links[l].source;
    assert RunOk(w, ran[..j], ran[j], true);
    assert Touches(w.links[l], ran[j].kernel, true);
    assert Feeds(w, ran, j, i, l);
  }

  /** When the schedule respects the links, the source of a link into a field of a script runs before its kernels. */
  lemma FieldIsSetBefore(w: Wiring, ran: seq<Run>, i: nat, l: nat)
    requires w.Ok() && RunsOk(w, ran, true) && i < |ran| && l < |w.links|
    requires w.links[l].dst == ToField(ran[i].kernel.script)
    ensures exists j: nat :: j < i && ran[j].kernel == w.links[l].source
  {
    assert RunOk(w, ran[..i], ran[i], true);
    assert w.links[l].source in KernelsRun(ran[..i]);
    var j: nat :| j < i && ran[j].kernel == w.links[l].source;
  }

  /** A kernel whose input no link serves runs with the allocation that was bound to it last. */
  lemma RunsWithBoundInput(w: Wiring, ios: seq<IO>, kid: Kernel, a: Alloc, ran: seq<Run>, respects: bool, i: nat)
    requires w.Ok() && w.inputs == WithAlloc(ios, kid, a) && RunsOk(w, ran, respects)
    requires i < |ran| && ran[i].kernel == kid && kid.hasInput
    requires forall l :: 0 <= l < |w.links| ==> w.links[l].dst != ToKernel(kid)
    ensures ran[i].ain == a
  {
    assert RunOk(w, ran[..i], ran[i], respects);
  }

  lemma RunsWithBoundOutput(w: Wiring, ios: seq<IO>, kid: Kernel, a: Alloc, ran: seq<Run>, respects: bool, i: nat)
    requires w.Ok() && w.outputs == WithAlloc(ios, kid, a) && RunsOk(w, ran, respects)
    requires i < |ran| && ran[i].kernel == kid && kid.hasOutput
    requires forall l :: 0 <= l < |w.links| ==> w.links[l].source != kid
    ensures ran[i].aout == a
  {
    assert RunOk(w, ran[..i], ran[i], respects);
  }

  /** Scheduled nodes before ct ran, and the first ct2 kernels of node ct. */
  ghost predicate Progress(g: Graph, nodes: seq<Node>, w: Wiring, list: seq<nat>, ct: nat, ct2: nat, ran: seq<Run>) {
    && g.Ok() && w.Ok() && InRange(list, |nodes|) && ct <= |list|
    && (if ct < |list| then ct2 <= |nodes[list[ct]].kernels| else ct2 == 0)
    && KernelsRun(ran) == RunOrder(nodes, list, ct) + (if ct < |list| then nodes[list[ct]].kernels[..ct2] else [])
    && RunsOk(w, ran, SourcesFirst(g, list))
  }

  lemma ProgressStart(g: Graph, nodes: seq<Node>, w: Wiring, list: seq<nat>)
    requires g.Ok() && w.Ok() && Schedule(list, |nodes|)
    ensures Progress(g, nodes, w, list, 0, 0, [])
  {
    assert forall i :: 0 <= i < |list| ==> list[i] in list;
  }

  lemma ProgressNext(g: Graph, nodes: seq<Node>, kernels: seq<Kernel>, w: Wiring, list: seq<nat>,
                     ct: nat, ct2: nat, ran: seq<Run>, x: Run)
    requires Progress(g, nodes, w, list, ct, ct2, ran) && ct < |list| && ct2 < |nodes[list[ct]].kernels|
    requires GoodRequest(kernels, w.links) && NodesOk(nodes, kernels)
    requires GraphOf(g, nodes, w.links) && Schedule(list, |nodes|)
    requires x.kernel == nodes[list[ct]].kernels[ct2]
    requires ArgOk(w, x.kernel, false, x.ain) && ArgOk(w, x.kernel, true, x.aout)
    ensures Progress(g, nodes, w, list, ct, ct2 + 1, ran + [x])
  {
    NodeKernel(nodes, kernels, list[ct], ct2);
    SourcesHaveRun(g, nodes, kernels, w.links, list, ct);
    RunsNext(w, ran, x, SourcesFirst(g, list));
    var ks := nodes[list[ct]].kernels;
    assert ks[..ct2] + [ks[ct2]] == ks[..ct2 + 1];
  }

  lemma ProgressNode(g: Graph, nodes: seq<Node>, w: Wiring, list: seq<nat>, ct: nat, ran: seq<Run>)
    requires ct < |list| && list[ct] < |nodes|
    requires Progress(g, nodes, w, list, ct, |nodes[list[ct]].kernels|, ran)
    ensures Progress(g, nodes, w, list, ct + 1, 0, ran)
  {
  }

  lemma ProgressDone(g: Graph, nodes: seq<Node>, kernels: seq<Kernel>, w: Wiring, list: seq<nat>, ran: seq<Run>)
    requires NoRepeats(kernels) && NodesOk(nodes, kernels) && Schedule(list, |nodes|)
    requires Progress(g, nodes, w, list, |list|, 0, ran)
    ensures KernelsRun(ran) == RunOrder(nodes, list, |list|)
    ensures NoRepeats(KernelsRun(ran)) && forall k :: k in KernelsRun(ran) <==> k in kernels
  {
    assert KernelsRun(ran) == RunOrder(nodes, list, |list|);
    RunOrderDistinct(nodes, kernels, list, |list|);
    forall k
      ensures k in KernelsRun(ran) <==> k in kernels
    {
      RunOrderComplete(nodes, kernels, list, k);
    }
  }

  // --------------------------------------------------------------- The group

  /**
   Node pointers are positions in `nodes`; `marks` holds the mSeen and mOrder fields of the
   nodes, and `order` is the vector mNodes of node pointers, sorted in the end.
   */
  class Group {
    const kernels: seq<Kernel>
    const links: seq<Link>
    var nodes: seq<Node>
    var marks: Marks
    var order: seq<nat>
    var inputs: seq<IO>
    var outputs: seq<IO>
    var linkAlloc: seq<Alloc>
    var nextAlloc: Alloc
    ghost var graph: Graph

    /** The inputs and outputs of the group are those of kernels that no link serves. */
    ghost predicate IosOk()
      reads this`inputs, this`outputs
    {
      && KernelsIn(inputs) == FreeKernels(kernels, |kernels|, links, false)
      && KernelsIn(outputs) == FreeKernels(kernels, |kernels|, links, true)
    }

    ghost function Wires(): Wiring
      reads this`linkAlloc, this`inputs, this`outputs
    {
      Wiring(links, linkAlloc, inputs, outputs)
    }

    /** The group has been created. */
    ghost predicate Ready()
      reads this
    {
      && GoodRequest(kernels, links) && Built(graph, OutsOf(nodes), nodes, kernels, links) && IosOk()
      && AllocsOk(links, linkAlloc) && Schedule(order, |nodes|)
    }

    /** The node at the destination of output ct of node n. */
    method NodeOfDst(n: nat, ct: nat, ghost g: Graph, ghost outs: seq<seq<nat>>) returns (t: nat)
      requires Built(g, outs, nodes, kernels, links) && n < |nodes| && ct < |nodes[n].outputs|
      ensures t < |nodes| && t == g.dst[outs[n][ct]]
    {
      var l := nodes[n].outputs[ct];
      assert outs[n][ct] == l;
      var r := FindNode(nodes, links[l].DstScript());
      RunsOwnScript(nodes, kernels, g.dst[l], links[l].DstScript());
      t := r.value;
      RunsOwnScript(nodes, kernels, t, links[l].DstScript());
    }

    /** NodeOfDst as the recursion sees it. */
    method Successor(n: nat, ct: nat, ghost g: Graph, ghost outs: seq<seq<nat>>) returns (t: nat)
      requires Wired(g, outs, nodes, kernels, links) && n < |nodes| && ct < |nodes[n].outputs|
      ensures t < |nodes|
      ensures OutLinks(g, outs) && n < g.size && ct < |outs[n]| ==> t == g.dst[outs[n][ct]]
    {
      assert Key(0);
      t := NodeOfDst(n, ct, g, outs);
    }

    /** The recursive call of calcOrderRecurse for output ct of node n, which leads to t. */
    method FollowOutput(n: nat, ct: nat, t: nat, ok: bool, ghost g: Graph, ghost outs: seq<seq<nat>>,
                        ghost all: (bool, Marks))
      returns (ret: bool)
      requires Wired(g, outs, nodes, kernels, links) && |nodes| == g.size && Pending(g, outs, n, ct, ok, marks, all)
      requires ct < |outs[n]| && t == g.dst[outs[n][ct]] && t !in marks.seen
      modifies this`marks
      ensures Pending(g, outs, n, ct + 1, ok && ret, marks, all) && old(marks.seen) <= marks.seen
      decreases g.size - |marks.seen|, 2
    {
      PendingNext(g, outs, n, ct, ok, marks, all, t, Visit(g, outs, t, marks.order[n] + 1, marks));
      ret := CalcOrderRecurse(t, marks.order[n] + 1, g, outs);
    }

    /** ScriptGroup::calcOrderRecurse from node n. */
    method CalcOrderRecurse(n: nat, depth: int, ghost g: Graph, ghost outs: seq<seq<nat>>) returns (ok: bool)
      requires Wired(g, outs, nodes, kernels, links) && OutLinks(g, outs) && |nodes| == g.size
      requires MarksOk(g, marks) && n < |nodes| && n !in marks.seen
      modifies this`marks
      ensures (ok, marks) == Visit(g, outs, n, depth, old(marks))
      decreases g.size - |marks.seen|, 1
    {
      assert nodes[n].outputs == outs[n] by {
        assert Key(0);
      }
      ghost var all := Visit(g, outs, n, depth, marks);
      VisitGrows(g, outs, n, depth, marks);
      marks := Marks(marks.seen + {n}, marks.order[n := if marks.order[n] < depth then depth else marks.order[n]]);
      ok := true;
      ghost var m1 := marks;
      var ct := 0;
      while ct < |nodes[n].outputs|
        invariant 0 <= ct <= |nodes[n].outputs| && m1.seen <= marks.seen
        invariant Pending(g, outs, n, ct, ok, marks, all)
      {
        var t := Successor(n, ct, g, outs);
        if t in marks.seen {
          VisitLinksStop(g, outs, n, ct, marks);
          return false;
        }
        SubsetCard(m1.seen, marks.seen);
        MarkedCard(g, marks);
        var ret := FollowOutput(n, ct, t, ok, g, outs, all);
        ok := ok && ret;
        ct := ct + 1;
      }
      VisitLinksStop(g, outs, n, ct, marks);
    }

    /** The first loop of ScriptGroup::calcOrder. */
    method MakeNodes()
      requires nodes == []
      modifies this`nodes
      ensures NodesOk(nodes, kernels) && LinksOk(nodes, links, 0)
    {
      var ct := 0;
      while ct < |kernels|
        invariant 0 <= ct <= |kernels| && NodesOk(nodes, kernels[..ct]) && LinksOk(nodes, links, 0)
      {
        var at := FindNode(nodes, kernels[ct].script);
        forall i | 0 <= i < |nodes|
          ensures Runs(nodes[i], kernels[ct].script) <==> nodes[i].script == kernels[ct].script
        {
          RunsOwnScript(nodes, kernels[..ct], i, kernels[ct].script);
        }
        WithKernelOk(nodes, at, kernels, ct);
        nodes := WithKernel(nodes, at, kernels[ct]);
        ct := ct + 1;
      }
      assert kernels[..|kernels|] == kernels;
    }

    /** ScriptGroup::findNode, on well-formed nodes and a script that has one. */
    method NodeWith(s: Script) returns (n: nat)
      requires NodesOk(nodes, kernels) && HasScript(kernels, s)
      ensures n < |nodes| && nodes[n].script == s
    {
      var r := FindNode(nodes, s);
      ScriptHasNode(nodes, kernels, s);
      ghost var i :| 0 <= i < |nodes| && nodes[i].script == s;
      RunsOwnScript(nodes, kernels, i, s);
      n := r.value;
      RunsOwnScript(nodes, kernels, n, s);
    }

    /** One round of the second loop. */
    method AddLink(l: nat)
      requires l < |links| && LinkedUpTo(nodes, kernels, links, l)
      requires HasScript(kernels, links[l].source.script) && HasScript(kernels, links[l].DstScript())
      modifies this`nodes
      ensures LinkedUpTo(nodes, kernels, links, l + 1)
    {
      assert Key(0);
      var i := NodeWith(links[l].source.script);
      var j := NodeWith(links[l].DstScript());
      WithLinkOk(nodes, kernels, links, i, j, l);
      nodes := WithLink(nodes, i, j, l);
    }

    /** The second loop: links join the nodes at their ends. */
    method AddLinks()
      requires GoodRequest(kernels, links) && LinkedUpTo(nodes, kernels, links, 0)
      modifies this`nodes
      ensures LinkedUpTo(nodes, kernels, links, |links|)
    {
      var ct := 0;
      while ct < |links|
        invariant 0 <= ct <= |links| && LinkedUpTo(nodes, kernels, links, ct)
      {
        LinkEnds(kernels, links, ct);
        AddLink(ct);
        ct := ct + 1;
      }
    }

    /** One root of the third loop: marks are cleared, and the recursion starts at n. */
    method OrderFrom(n: nat, ok: bool, ghost g: Graph, ghost outs: seq<seq<nat>>, ghost s: set<nat>,
                     ghost all: (bool, seq<int>))
      returns (ok': bool, ghost s': set<nat>)
      requires Built(g, outs, nodes, kernels, links) && n < |nodes| && InputFree(g, n)
      requires RootsDone(g, marks.order, n, ok, s) && RootsLeft(g, outs, n, ok, marks.order, all)
      modifies this`marks
      ensures RootsDone(g, marks.order, n + 1, ok', s') && RootsLeft(g, outs, n + 1, ok', marks.order, all)
    {
      marks := marks.(seen := {});
      RootsNext(g, outs, marks.order, n, ok, s);
      ok' := CalcOrderRecurse(n, 0, g, outs);
      ok' := ok && ok';
      s' := if ok' then s + marks.seen else {};
    }

    /** The third loop of ScriptGroup::calcOrder. */
    method OrderNodes(ghost g: Graph, ghost outs: seq<seq<nat>>) returns (ok: bool)
      requires Built(g, outs, nodes, kernels, links) && marks.order == Zeros(|nodes|)
      modifies this`marks
      ensures OrdersOk(g, marks.order) && (ok, marks.order) == OrderRoots(g, outs, 0, old(marks.order))
      ensures ok <==> UniqueBelow(g, g.size)
      ensures ok && AllReached(g) ==> OrdersLongest(g, marks.order)
    {
      ok := true;
      ghost var s: set<nat>, all := {}, OrderRoots(g, outs, 0, marks.order);
      var ct := 0;
      while ct < |nodes|
        invariant 0 <= ct <= |nodes| && RootsDone(g, marks.order, ct, ok, s)
        invariant RootsLeft(g, outs, ct, ok, marks.order, all)
      {
        InputsEmpty(g, nodes, kernels, links, ct);
        if nodes[ct].inputs == [] {
          ok, s := OrderFrom(ct, ok, g, outs, s, all);
        } else {
          RootsSkip(g, marks.order, ct, ok, s);
        }
        ct := ct + 1;
      }
      if ok && AllReached(g) {
        OrdersAreLongest(g, marks.order, s);
      }
    }

    /** Whether some link in the list starts, or ends, at kernel k. */
    method HasLink(list: seq<nat>, k: Kernel, output: bool) returns (found: bool)
      requires InRange(list, |links|)
      ensures found <==> Serves(links, list, k, output)
    {
      var ct2 := 0;
      while ct2 < |list|
        invariant 0 <= ct2 <= |list|
        invariant forall i :: 0 <= i < ct2 ==> !Touches(links[list[i]], k, output)
      {
        if Touches(links[list[ct2]], k, output) {
          return true;
        }
        ct2 := ct2 + 1;
      }
      return false;
    }

    /** Whether kernel k needs an input or output of the group. */
    method IsFree(k: Kernel, output: bool) returns (free: bool)
      requires NodesOk(nodes, kernels) && LinksOk(nodes, links, |links|) && k in kernels
      ensures free <==> Free(k, links, output)
    {
      var n := NodeWith(k.script);
      LinksInRange(nodes, links, n);
      FreeAtNode(nodes, links, n, k, output);
      var list := if output then nodes[n].outputs else nodes[n].inputs;
      var found := HasLink(list, k, output);
      free := (if output then k.hasOutput else k.hasInput) && !found;
    }

    /** The fourth loop of ScriptGroup::calcOrder: inputs and outputs of the group. */
    method FindIOs()
      requires NodesOk(nodes, kernels) && LinksOk(nodes, links, |links|) && inputs == [] && outputs == []
      modifies this`inputs, this`outputs
      ensures KernelsIn(inputs) == FreeKernels(kernels, |kernels|, links, false)
      ensures KernelsIn(outputs) == FreeKernels(kernels, |kernels|, links, true)
    {
      var ct := 0;
      while ct < |kernels|
        invariant 0 <= ct <= |kernels|
        invariant KernelsIn(inputs) == FreeKernels(kernels, ct, links, false)
        invariant KernelsIn(outputs) == FreeKernels(kernels, ct, links, true)
      {
        var out := IsFree(kernels[ct], true);
        if out {
          outputs := outputs + [IO(kernels[ct], NO_ALLOC)];
        }
        var inp := IsFree(kernels[ct], false);
        if inp {
          inputs := inputs + [IO(kernels[ct], NO_ALLOC)];
        }
        ct := ct + 1;
      }
    }

    /** A new allocation for output ct2 of node n and the later outputs from the same kernel. */
    method Share(n: nat, ct2: nat)
      requires LinksOk(nodes, links, |links|) && Sharing(links, linkAlloc, nextAlloc)
      requires n < |nodes| && ct2 < |nodes[n].outputs| && AllSet(linkAlloc, nodes[n].outputs[..ct2])
      requires nodes[n].outputs[ct2] < |links| && linkAlloc[nodes[n].outputs[ct2]] == NO_ALLOC
      modifies this`linkAlloc, this`nextAlloc
      ensures nextAlloc == old(nextAlloc) + 1
      ensures linkAlloc == Assign(links, old(linkAlloc), links[nodes[n].outputs[ct2]].source, old(nextAlloc))
    {
      LinksInRange(nodes, links, n);
      var outs, source, alloc := nodes[n].outputs, links[nodes[n].outputs[ct2]].source, nextAlloc;
      nextAlloc := nextAlloc + 1;
      linkAlloc := linkAlloc[outs[ct2] := alloc];
      var ct3 := ct2 + 1;
      while ct3 < |outs|
        modifies this`linkAlloc
        invariant ct2 < ct3 <= |outs| && |linkAlloc| == |links|
        invariant forall i :: ct2 <= i < ct3 && links[outs[i]].source == source ==> linkAlloc[outs[i]] == alloc
        invariant forall l :: 0 <= l < |links| ==>
          linkAlloc[l] == old(linkAlloc)[l] || (linkAlloc[l] == alloc && links[l].source == source)
      {
        if links[outs[ct3]].source == source {
          linkAlloc := linkAlloc[outs[ct3] := alloc];
        }
        ct3 := ct3 + 1;
      }
      forall l: nat | l < |links| && links[l].source == source
        ensures linkAlloc[l] == alloc
      {
        SourceLinksAhead(nodes, links, old(linkAlloc), old(nextAlloc), n, ct2, l);
      }
    }

    /** Allocations for the outputs of node n. */
    method AllocateOutputs(n: nat)
      requires LinksOk(nodes, links, |links|) && Sharing(links, linkAlloc, nextAlloc) && n < |nodes|
      modifies this`linkAlloc, this`nextAlloc
      ensures Sharing(links, linkAlloc, nextAlloc) && Grown(old(linkAlloc), linkAlloc)
      ensures AllSet(linkAlloc, nodes[n].outputs)
    {
      LinksInRange(nodes, links, n);
      var outs := nodes[n].outputs;
      var ct2 := 0;
      while ct2 < |outs|
        modifies this`linkAlloc, this`nextAlloc
        invariant 0 <= ct2 <= |outs| && Sharing(links, linkAlloc, nextAlloc) && Grown(old(linkAlloc), linkAlloc)
        invariant AllSet(linkAlloc, outs[..ct2])
      {
        if linkAlloc[outs[ct2]] == NO_ALLOC {
          AssignShares(links, linkAlloc, outs[ct2], nextAlloc);
          Share(n, ct2);
        }
        ct2 := ct2 + 1;
      }
      assert outs[..|outs|] == outs;
    }

    /** The allocation loop of ScriptGroup::create. */
    method AllocateLinks()
      requires GoodRequest(kernels, links) && NodesOk(nodes, kernels) && LinksOk(nodes, links, |links|)
      requires Schedule(order, |nodes|) && Sharing(links, linkAlloc, nextAlloc)
      modifies this`linkAlloc, this`nextAlloc
      ensures AllocsOk(links, linkAlloc)
    {
      var ct := 0;
      while ct < |order|
        invariant 0 <= ct <= |order| && Sharing(links, linkAlloc, nextAlloc)
        invariant NodesSet(nodes, order, ct, linkAlloc)
      {
        assert order[ct] in order;
        AllocateOutputs(order[ct]);
        ct := ct + 1;
      }
      AllLinksSet(nodes, kernels, links, order, linkAlloc, nextAlloc);
    }

    /** The first two loops of ScriptGroup::calcOrder. */
    method BuildNodes()
      requires GoodRequest(kernels, links) && nodes == []
      modifies this`nodes, this`graph
      ensures Built(graph, OutsOf(nodes), nodes, kernels, links)
    {
      MakeNodes();
      AddLinks();
      assert Key(0);
      graph := MakeGraph(nodes, kernels, links);
      GraphHasOutLinks(graph, nodes, kernels, links);
    }

    /** The third loop and the final sort. */
    method OrderAndSort() returns (ok: bool)
      requires Built(graph, OutsOf(nodes), nodes, kernels, links)
      modifies this`marks, this`order
      ensures Planned(graph, order, marks.order, ok) && (ok, marks.order) == OrdersOf(graph, nodes)
    {
      marks := Marks({}, Zeros(|nodes|));
      ok := OrderNodes(graph, OutsOf(nodes));
      order := Sort(marks.order);
      if ok {
        ScheduleRespectsLinks(graph, order, marks.order);
      }
    }

    /** ScriptGroup::calcOrder. */
    method CalcOrder() returns (ok: bool)
      requires GoodRequest(kernels, links) && nodes == [] && inputs == [] && outputs == []
      modifies this`nodes, this`marks, this`order, this`inputs, this`outputs, this`graph
      ensures Built(graph, OutsOf(nodes), nodes, kernels, links) && IosOk()
      ensures Planned(graph, order, marks.order, ok) && (ok, marks.order) == OrdersOf(graph, nodes)
    {
      BuildNodes();
      FindIOs();
      ok := OrderAndSort();
    }

    method Prepare()
      requires GoodRequest(kernels, links) && nodes == [] && inputs == [] && outputs == []
      requires linkAlloc == seq(|links|, l => NO_ALLOC) && nextAlloc > NO_ALLOC
      modifies this
      ensures Ready() && Planned(graph, order, marks.order, UniqueBelow(graph, graph.size))
      ensures (UniqueBelow(graph, graph.size), marks.order) == OrdersOf(graph, nodes)
    {
      var ok := CalcOrder();
      AllocateLinks();
    }

    /** ScriptGroup::create, which drops the answer of calcOrder. */
    constructor (kernels: seq<Kernel>, links: seq<Link>, nextAlloc: Alloc)
      requires GoodRequest(kernels, links) && nextAlloc > NO_ALLOC
      ensures this.kernels == kernels && this.links == links && Ready()
      ensures Planned(graph, order, marks.order, UniqueBelow(graph, graph.size))
      ensures (UniqueBelow(graph, graph.size), marks.order) == OrdersOf(graph, nodes)
    {
      this.kernels, this.links, this.nextAlloc := kernels, links, nextAlloc;
      nodes, inputs, outputs, order, marks := [], [], [], [], Marks({}, []);
      linkAlloc := seq(|links|, l => NO_ALLOC);
      new;
      Prepare();
    }

    /** ScriptGroup::setInput. */
    method SetInput(kid: Kernel, a: Alloc)
      requires Ready()
      modifies this`inputs
      ensures Ready() && inputs == WithAlloc(old(inputs), kid, a)
    {
      FreeKernelsDistinct(kernels, |kernels|, links, false);
      inputs := Bind(inputs, kid, a);
    }

    /** ScriptGroup::setOutput. */
    method SetOutput(kid: Kernel, a: Alloc)
      requires Ready()
      modifies this`outputs
      ensures Ready() && outputs == WithAlloc(old(outputs), kid, a)
    {
      FreeKernelsDistinct(kernels, |kernels|, links, true);
      outputs := Bind(outputs, kid, a);
    }

    /** The input or the output that kernel k of node n runs with. */
    method Arg(n: nat, k: Kernel, output: bool) returns (a: Alloc)
      requires Ready() && Bound(inputs) && Bound(outputs)
      requires n < |nodes| && k in kernels && nodes[n].script == k.script
      ensures ArgOk(Wires(), k, output, a)
    {
      LinksInRange(nodes, links, n);
      var list := if output then nodes[n].outputs else nodes[n].inputs;
      ServedIfLinked(nodes, links, n, k, output);
      var start := LookupLink(links, linkAlloc, list, k, output);
      a := Lookup(if output then outputs else inputs, k, start);
      ArgIsOk(kernels, Wires(), k, output, start, a);
    }

    /** ScriptGroup::validateInputAndOutput. */
    method ValidateInputAndOutput() returns (ok: bool)
      ensures ok <==> Bound(inputs) && Bound(outputs)
    {
      var i := 0;
      while i < |inputs|
        invariant 0 <= i <= |inputs| && Bound(inputs[..i])
      {
        if inputs[i].alloc == NO_ALLOC {
          return false;
        }
        i := i + 1;
      }
      i := 0;
      while i < |outputs|
        invariant 0 <= i <= |outputs| && Bound(outputs[..i])
      {
        if outputs[i].alloc == NO_ALLOC {
          return false;
        }
        i := i + 1;
      }
      return true;
    }

    ghost predicate Runnable()
      reads this
    {
      forall k :: Key(k) ==> Ready() && Bound(inputs) && Bound(outputs)
    }

    /** Kernel ct2 of scheduled node ct runs. */
    method RunKernel(ct: nat, ct2: nat, ran: seq<Run>) returns (ran': seq<Run>)
      requires Runnable() && Progress(graph, nodes, Wires(), order, ct, ct2, ran)
      requires ct < |order| && ct2 < |nodes[order[ct]].kernels|
      ensures Progress(graph, nodes, Wires(), order, ct, ct2 + 1, ran')
    {
      assert Key(0);
      NodeKernel(nodes, kernels, order[ct], ct2);
      var k := nodes[order[ct]].kernels[ct2];
      var ain := Arg(order[ct], k, false);
      var aout := Arg(order[ct], k, true);
      ProgressNext(graph, nodes, kernels, Wires(), order, ct, ct2, ran, Run(k, ain, aout));
      ran' := ran + [Run(k, ain, aout)];
    }

    /** The kernels of scheduled node ct run. */
    method RunNode(ct: nat, before: seq<Run>) returns (ran: seq<Run>)
      requires Runnable() && ct < |order| && Progress(graph, nodes, Wires(), order, ct, 0, before)
      ensures Progress(graph, nodes, Wires(), order, ct + 1, 0, ran)
    {
      ran := before;
      var ct2 := 0;
      while ct2 < |nodes[order[ct]].kernels|
        invariant 0 <= ct2 <= |nodes[order[ct]].kernels|
        invariant Progress(graph, nodes, Wires(), order, ct, ct2, ran)
      {
        ran := RunKernel(ct, ct2, ran);
        ct2 := ct2 + 1;
      }
      ProgressNode(graph, nodes, Wires(), order, ct, ran);
    }

    /**
     ScriptGroup::execute without a driver: nothing runs unless all inputs and outputs are bound;
     otherwise every kernel runs exactly once.
     */
    method Execute() returns (ran: seq<Run>)
      requires Ready()
      ensures !(Bound(inputs) && Bound(outputs)) ==> ran == []
      ensures Bound(inputs) && Bound(outputs) ==>
        && InRange(order, |nodes|) && KernelsRun(ran) == RunOrder(nodes, order, |order|)
        && NoRepeats(KernelsRun(ran)) && (forall k :: k in KernelsRun(ran) <==> k in kernels)
        && RunsOk(Wires(), ran, SourcesFirst(graph, order))
    {
      ran := [];
      var ok := ValidateInputAndOutput();
      if !ok {
        return;
      }
      ProgressStart(graph, nodes, Wires(), order);
      var ct := 0;
      while ct < |order|
        invariant 0 <= ct <= |order| && Progress(graph, nodes, Wires(), order, ct, 0, ran)
      {
        ran := RunNode(ct, ran);
        ct := ct + 1;
      }
      ProgressDone(graph, nodes, kernels, Wires(), order, ran);
    }

    /** setInput followed by execute: a kernel that no link serves reads what was bound to it. */
    method ExecuteWithInput(kid: Kernel, a: Alloc) returns (ran: seq<Run>)
      requires Ready() && kid.hasInput && forall l :: 0 <= l < |links| ==> links[l].dst != ToKernel(kid)
      modifies this`inputs
      ensures Ready() && forall i :: 0 <= i < |ran| && ran[i].kernel == kid ==> ran[i].ain == a
    {
      ghost var ios := inputs;
      SetInput(kid, a);
      ran := Execute();
      forall i: nat | i < |ran| && ran[i].kernel == kid
        ensures ran[i].ain == a
      {
        RunsWithBoundInput(Wires(), ios, kid, a, ran, SourcesFirst(graph, order), i);
      }
    }

    /** setOutput followed by execute: a kernel without links out of it writes what was bound to it. */
    method ExecuteWithOutput(kid: Kernel, a: Alloc) returns (ran: seq<Run>)
      requires Ready() && kid.hasOutput && forall l :: 0 <= l < |links| ==> links[l].source != kid
      modifies this`outputs
      ensures Ready() && forall i :: 0 <= i < |ran| && ran[i].kernel == kid ==> ran[i].aout == a
    {
      ghost var ios := outputs;
      SetOutput(kid, a);
      ran := Execute();
      forall i: nat | i < |ran| && ran[i].kernel == kid
        ensures ran[i].aout == a
      {
        RunsWithBoundOutput(Wires(), ios, kid, a, ran, SourcesFirst(graph, order), i);
      }
    }
  }

  /** A group of two scripts linked to each other is created without complaint, and its schedule breaks a link. */
  method CreateCycle() returns (group: Group)
    ensures fresh(group) && group.Ready() && group.kernels == CycleKernels() && group.links == CycleLinks()
    ensures OrdersOf(group.graph, group.nodes).0 && !SourcesFirst(group.graph, group.order)
  {
    CycleIsGood();
    group := new Group(CycleKernels(), CycleLinks(), 1);
    CycleIsAccepted(group.graph, group.nodes);
  }
}
