/** Directed multigraphs of links between nodes, and their paths (rsScriptGroup.cpp). */
module LinkGraph {
  import opened Common

  /** Nodes are 0 .. size - 1; link l goes from node src[l] to node dst[l]. */
  datatype Graph = Graph(size: nat, src: seq<nat>, dst: seq<nat>) {
    predicate Ok() {
      |src| == |dst| && forall l :: 0 <= l < |src| ==> src[l] < size && dst[l] < size
    }
  }

  /** A path is the sequence of its links. */
  type Path = seq<nat>

  ghost predicate IsPath(g: Graph, r: nat, p: Path) {
    && g.Ok()
    && (forall i :: 0 <= i < |p| ==> p[i] < |g.src|)
    && (|p| > 0 ==> g.src[p[0]] == r)
    && forall i :: 0 <= i < |p| - 1 ==> Joined(g, p, i)
  }

  /** Link i + 1 of the path starts where link i ends. */
  ghost predicate Joined(g: Graph, p: Path, i: int)
    requires g.Ok() && 0 <= i < |p| - 1 && p[i] < |g.src| && p[i + 1] < |g.src|
  {
    g.src[p[i + 1]] == g.dst[p[i]]
  }

  ghost function End(g: Graph, r: nat, p: Path): nat
    requires IsPath(g, r, p)
  {
    if |p| == 0 then r else g.dst[p[|p| - 1]]
  }

  ghost predicate InputFree(g: Graph, r: nat)
    requires g.Ok()
  {
    r < g.size && forall l :: 0 <= l < |g.dst| ==> g.dst[l] != r
  }

  /** No node is reached from r by two different paths. */
  ghost predicate UniquePaths(g: Graph, r: nat)
    requires g.Ok()
  {
    forall p, q :: SameEnds(g, r, p, q) ==> p == q
  }

  /** p and q are paths from r to the same node. */
  ghost predicate SameEnds(g: Graph, r: nat, p: Path, q: Path) {
    IsPath(g, r, p) && IsPath(g, r, q) && End(g, r, p) == End(g, r, q)
  }

  lemma PathSnoc(g: Graph, r: nat, p: Path, l: nat)
    requires IsPath(g, r, p) && l < |g.src| && g.src[l] == End(g, r, p)
    ensures IsPath(g, r, p + [l]) && End(g, r, p + [l]) == g.dst[l]
  {
    var q := p + [l];
    forall i | 0 <= i < |q| - 1
      ensures Joined(g, q, i)
    {
      assert i < |p| - 1 ==> Joined(g, p, i);
    }
  }

  lemma PathPrefix(g: Graph, r: nat, p: Path)
    requires IsPath(g, r, p) && |p| > 0
    ensures IsPath(g, r, p[..|p| - 1]) && End(g, r, p[..|p| - 1]) == g.src[p[|p| - 1]]
  {
    var q := p[..|p| - 1];
    forall i | 0 <= i < |q| - 1
      ensures Joined(g, q, i)
    {
      assert Joined(g, p, i);
    }
    assert |q| > 0 ==> Joined(g, p, |q| - 1);
  }

  /** The links out of region s, except those still in `todo`, stay in s, avoid n, and lead to different nodes. */
  ghost predicate Tree(g: Graph, n: nat, s: set<nat>, todo: set<nat>)
    requires g.Ok()
  {
    && n in s
    && (forall l :: 0 <= l < |g.src| && g.src[l] in s && l !in todo ==> g.dst[l] in s && g.dst[l] != n)
    && forall l, m :: (0 <= l < |g.src| && 0 <= m < |g.src| && g.src[l] in s && g.src[m] in s
                       && l !in todo && m !in todo && g.dst[l] == g.dst[m]) ==> l == m
  }

  lemma {:induction false} TreeHoldsPaths(g: Graph, n: nat, s: set<nat>, p: Path)
    requires g.Ok() && Tree(g, n, s, {}) && IsPath(g, n, p)
    ensures End(g, n, p) in s
    decreases |p|
  {
    if |p| > 0 {
      PathPrefix(g, n, p);
      TreeHoldsPaths(g, n, s, p[..|p| - 1]);
    }
  }

  lemma {:induction false} TreePathsAgree(g: Graph, n: nat, s: set<nat>, p: Path, q: Path)
    requires g.Ok() && Tree(g, n, s, {}) && IsPath(g, n, p) && IsPath(g, n, q) && End(g, n, p) == End(g, n, q)
    ensures p == q
    decreases |p|
  {
    if |p| > 0 {
      PathPrefix(g, n, p);
      TreeHoldsPaths(g, n, s, p[..|p| - 1]);
    }
    if |q| > 0 {
      PathPrefix(g, n, q);
      TreeHoldsPaths(g, n, s, q[..|q| - 1]);
    }
    if |p| > 0 && |q| > 0 {
      TreePathsAgree(g, n, s, p[..|p| - 1], q[..|q| - 1]);
      assert p == p[..|p| - 1] + [p[|p| - 1]] && q == q[..|q| - 1] + [q[|q| - 1]];
    }
  }

  /** A tree below n gives unique paths from n. */
  lemma TreeIsUnique(g: Graph, n: nat, s: set<nat>)
    requires g.Ok() && Tree(g, n, s, {})
    ensures UniquePaths(g, n)
  {
    forall p, q | SameEnds(g, n, p, q)
      ensures p == q
    {
      TreePathsAgree(g, n, s, p, q);
    }
  }

  /** Hanging the tree of a new node t below n, by link l, gives a tree again. */
  lemma TreeGrows(g: Graph, n: nat, s: set<nat>, todo: set<nat>, l: nat, t: nat, s2: set<nat>)
    requires g.Ok() && Tree(g, n, s, todo) && Tree(g, t, s2, {}) && s !! s2
    requires l in todo && l < |g.src| && g.src[l] == n && g.dst[l] == t
    requires forall m :: m in todo ==> 0 <= m < |g.src| && g.src[m] == n
    ensures Tree(g, n, s + s2, todo - {l})
  {
  }

  // ------------------------------------------------------------------ Depths

  /** k is the length of some path from an input-free node to v. */
  ghost predicate Reached(g: Graph, v: nat, k: int)
    requires g.Ok()
  {
    exists r, p :: InputFree(g, r) && IsPath(g, r, p) && End(g, r, p) == v && |p| == k
  }

  lemma ReachedNext(g: Graph, v: nat, k: int, l: nat)
    requires g.Ok() && Reached(g, v, k) && l < |g.src| && g.src[l] == v
    ensures Reached(g, g.dst[l], k + 1)
  {
    var r, p :| InputFree(g, r) && IsPath(g, r, p) && End(g, r, p) == v && |p| == k;
    PathSnoc(g, r, p, l);
  }

  /** Orders rise along the links out of s that are not in `todo`. */
  ghost predicate Rising(g: Graph, order: seq<int>, s: set<nat>, todo: set<nat>)
    requires g.Ok() && |order| == g.size
  {
    forall l :: 0 <= l < |g.src| && g.src[l] in s && l !in todo ==> order[g.src[l]] < order[g.dst[l]]
  }

  /** Along a path, rising orders grow at least by its length. */
  lemma {:induction false} RisingAlongPath(g: Graph, order: seq<int>, s: set<nat>, r: nat, p: Path)
    requires g.Ok() && |order| == g.size && Rising(g, order, s, {}) && IsPath(g, r, p) && r < g.size
    requires forall i :: 0 <= i < |p| ==> g.src[p[i]] in s
    ensures End(g, r, p) < g.size && order[r] + |p| <= order[End(g, r, p)]
    decreases |p|
  {
    if |p| > 0 {
      PathPrefix(g, r, p);
      RisingAlongPath(g, order, s, r, p[..|p| - 1]);
    }
  }

  /** Every order is 0 or the length of a path from an input-free node. */
  ghost predicate Attained(g: Graph, order: seq<int>)
    requires g.Ok() && |order| == g.size
  {
    forall v :: 0 <= v < g.size ==> order[v] == 0 || Reached(g, v, order[v])
  }

  // ---------------------------------------------- Depth-first search from r

  /** A path from r to v whose last link is in `used`, or v is r itself. */
  ghost predicate Found(g: Graph, r: nat, v: nat, used: set<nat>) {
    exists p :: IsPath(g, r, p) && End(g, r, p) == v && (|p| > 0 ==> p[|p| - 1] in used)
  }

  /** The seen nodes were found by following used links, and used links leave seen nodes. */
  ghost predicate Search(g: Graph, r: nat, seen: set<nat>, used: set<nat>)
    requires g.Ok()
  {
    && (forall v :: v in seen ==> Found(g, r, v, used))
    && (forall l :: l in used ==> 0 <= l < |g.src| && g.src[l] in seen)
  }

  lemma FoundMore(g: Graph, r: nat, v: nat, used: set<nat>, l: nat)
    requires Found(g, r, v, used)
    ensures Found(g, r, v, used + {l})
  {
    var p :| IsPath(g, r, p) && End(g, r, p) == v && (|p| > 0 ==> p[|p| - 1] in used);
    assert |p| > 0 ==> p[|p| - 1] in used + {l};
  }

  /** Following a link out of a seen node finds the node at its end. */
  lemma SearchFollow(g: Graph, r: nat, seen: set<nat>, used: set<nat>, l: nat)
    requires g.Ok() && Search(g, r, seen, used) && l < |g.src| && g.src[l] in seen
    ensures Search(g, r, seen, used + {l}) && Found(g, r, g.dst[l], used + {l})
  {
    forall v | v in seen
      ensures Found(g, r, v, used + {l})
    {
      FoundMore(g, r, v, used, l);
    }
    assert Found(g, r, g.src[l], used);
    var p :| IsPath(g, r, p) && End(g, r, p) == g.src[l] && (|p| > 0 ==> p[|p| - 1] in used);
    PathSnoc(g, r, p, l);
    assert (p + [l])[|p + [l]| - 1] == l;
  }

  /** Following an unused link into a seen node gives a second path to that node. */
  lemma SearchClash(g: Graph, r: nat, seen: set<nat>, used: set<nat>, l: nat)
    requires g.Ok() && Search(g, r, seen, used)
    requires l < |g.src| && l !in used && g.src[l] in seen && g.dst[l] in seen
    ensures !UniquePaths(g, r)
  {
    assert Found(g, r, g.src[l], used) && Found(g, r, g.dst[l], used);
    var p :| IsPath(g, r, p) && End(g, r, p) == g.src[l] && (|p| > 0 ==> p[|p| - 1] in used);
    var q :| IsPath(g, r, q) && End(g, r, q) == g.dst[l] && (|q| > 0 ==> q[|q| - 1] in used);
    PathSnoc(g, r, p, l);
    assert (p + [l])[|p + [l]| - 1] == l;
    assert SameEnds(g, r, p + [l], q) && p + [l] != q;
  }

  /** Marks and orders after the recursion from n, compared with before it. */
  ghost predicate Explored(g: Graph, n: nat, depth: int, seen: set<nat>, order: seq<int>,
                           seen': set<nat>, order': seq<int>, todo: set<nat>, ok: bool)
    requires g.Ok()
  {
    && |order| == |order'| == g.size && n < g.size
    && n !in seen && n in seen' && seen <= seen'
    && (forall v :: 0 <= v < g.size ==> order[v] <= order'[v])
    && (forall v :: 0 <= v < g.size && v !in seen' - seen ==> order[v] == order'[v])
    && depth <= order'[n] && Attained(g, order')
    && (ok ==> Tree(g, n, seen' - seen, todo) && Rising(g, order', seen' - seen, todo))
  }

  lemma ExploredEnter(g: Graph, n: nat, depth: int, seen: set<nat>, order: seq<int>, todo: set<nat>)
    requires g.Ok() && |order| == g.size && n < g.size && n !in seen && Attained(g, order) && Reached(g, n, depth)
    requires forall l :: 0 <= l < |g.src| && g.src[l] == n ==> l in todo
    ensures Explored(g, n, depth, seen, order,
                     seen + {n}, order[n := if order[n] < depth then depth else order[n]], todo, true)
  {
    assert seen + {n} - seen == {n};
  }

  /** The recursion followed link l from n to a new node t and came back. */
  lemma ExploredNext(g: Graph, n: nat, depth: int, seen: set<nat>, order: seq<int>,
                     seen1: set<nat>, order1: seq<int>, todo: set<nat>, ok: bool,
                     l: nat, seen2: set<nat>, order2: seq<int>, ok2: bool)
    requires g.Ok() && Explored(g, n, depth, seen, order, seen1, order1, todo, ok)
    requires l in todo && l < |g.src| && g.src[l] == n
    requires forall m :: m in todo ==> 0 <= m < |g.src| && g.src[m] == n
    requires Explored(g, g.dst[l], order1[n] + 1, seen1, order1, seen2, order2, {}, ok2)
    ensures Explored(g, n, depth, seen, order, seen2, order2, todo - {l}, ok && ok2)
  {
    var s, s2 := seen1 - seen, seen2 - seen1;
    assert seen2 - seen == s + s2;
    if ok && ok2 {
      TreeGrows(g, n, s, todo, l, g.dst[l], s2);
    }
  }

  // ------------------------------------------- The marking recursion as a function

  /** The marks and the orders of all nodes. */
  datatype Marks = Marks(seen: set<nat>, order: seq<int>)

  /** outs[n] lists the links out of node n, each once. */
  ghost predicate OutLinks(g: Graph, outs: seq<seq<nat>>) {
    && g.Ok() && |outs| == g.size
    && (forall n, i :: 0 <= n < |outs| && 0 <= i < |outs[n]| ==> outs[n][i] < |g.src| && g.src[outs[n][i]] == n)
    && (forall n :: 0 <= n < |outs| ==> NoRepeats(outs[n]))
  }

  /** No link is missing from outs. */
  ghost predicate AllOutLinks(g: Graph, outs: seq<seq<nat>>)
    requires OutLinks(g, outs)
  {
    forall l :: 0 <= l < |g.src| ==> l in outs[g.src[l]]
  }

  lemma MarkedCard(g: Graph, m: Marks)
    requires MarksOk(g, m)
    ensures |m.seen| <= g.size
  {
    SubsetCard(m.seen, Below(g.size));
  }

  ghost predicate MarksOk(g: Graph, m: Marks) {
    |m.order| == g.size && forall v :: v in m.seen ==> v < g.size
  }

  ghost function Below(n: nat): (s: set<nat>)
    ensures |s| == n && forall i :: i in s <==> 0 <= i < n
  {
    if n == 0 then {} else Below(n - 1) + {n - 1}
  }

  lemma {:induction false} SubsetCard(a: set<nat>, b: set<nat>)
    requires a <= b
    ensures |a| <= |b|
  {
    if a != {} {
      var x :| x in a;
      SubsetCard(a - {x}, b - {x});
    }
  }

  /** calcOrderRecurse from node n. */
  ghost function Visit(g: Graph, outs: seq<seq<nat>>, n: nat, depth: int, m: Marks): (r: (bool, Marks))
    requires OutLinks(g, outs) && MarksOk(g, m) && n < g.size && n !in m.seen
    ensures MarksOk(g, r.1) && m.seen + {n} <= r.1.seen
    decreases g.size - |m.seen|, 0, 0
  {
    var order := if m.order[n] < depth then depth else m.order[n];
    MarkedCard(g, Marks(m.seen + {n}, m.order));
    VisitLinks(g, outs, n, 0, Marks(m.seen + {n}, m.order[n := order]))
  }

  /** Its loop, from output number ct on. */
  ghost function VisitLinks(g: Graph, outs: seq<seq<nat>>, n: nat, ct: nat, m: Marks): (r: (bool, Marks))
    requires OutLinks(g, outs) && MarksOk(g, m) && n < g.size && n in m.seen && ct <= |outs[n]|
    ensures MarksOk(g, r.1) && m.seen <= r.1.seen
    decreases g.size - |m.seen|, 1, |outs[n]| - ct
  {
    MarkedCard(g, m);
    if ct == |outs[n]| then (true, m)
    else
      var l := outs[n][ct];
      var t := g.dst[l];
      if t in m.seen then (false, m)
      else
        var v := Visit(g, outs, t, m.order[n] + 1, m);
        SubsetCard(m.seen + {t}, v.1.seen);
        MarkedCard(g, v.1);
        var w := VisitLinks(g, outs, n, ct + 1, v.1);
        (v.0 && w.0, w.1)
  }

  ghost function ToSet(s: seq<nat>): set<nat> {
    set l | l in s
  }

  lemma ToSetNext(s: seq<nat>, i: nat)
    requires i < |s| && NoRepeats(s)
    ensures s[i] in ToSet(s[i..]) && ToSet(s[i..]) - {s[i]} == ToSet(s[i + 1..])
  {
    assert s[i..] == [s[i]] + s[i + 1..];
  }

  /** The recursion marks a tree with rising orders, or answers no. */
  lemma {:induction false} VisitExplored(g: Graph, outs: seq<seq<nat>>, n: nat, depth: int, m: Marks)
    requires OutLinks(g, outs) && AllOutLinks(g, outs) && MarksOk(g, m) && n < g.size && n !in m.seen
    requires Attained(g, m.order) && Reached(g, n, depth)
    ensures var r := Visit(g, outs, n, depth, m);
      Explored(g, n, depth, m.seen, m.order, r.1.seen, r.1.order, {}, r.0)
    decreases g.size - |m.seen|, 0, 0
  {
    MarkedCard(g, Marks(m.seen + {n}, m.order));
    var order := if m.order[n] < depth then depth else m.order[n];
    assert outs[n][0..] == outs[n];
    ExploredEnter(g, n, depth, m.seen, m.order, ToSet(outs[n][0..]));
    assert Reached(g, n, order);
    VisitLinksExplored(g, outs, n, depth, 0, m, Marks(m.seen + {n}, m.order[n := order]), true);
  }

  lemma {:induction false} VisitLinksExplored(g: Graph, outs: seq<seq<nat>>, n: nat, depth: int, ct: nat,
                                              m0: Marks, m: Marks, ok: bool)
    requires OutLinks(g, outs) && AllOutLinks(g, outs) && MarksOk(g, m0) && MarksOk(g, m)
    requires n < g.size && n in m.seen && ct <= |outs[n]|
    requires Explored(g, n, depth, m0.seen, m0.order, m.seen, m.order, ToSet(outs[n][ct..]), ok)
    requires Reached(g, n, m.order[n])
    ensures var r := VisitLinks(g, outs, n, ct, m);
      Explored(g, n, depth, m0.seen, m0.order, r.1.seen, r.1.order, {}, ok && r.0)
    decreases g.size - |m.seen|, 1, |outs[n]| - ct
  {
    if ct < |outs[n]| {
      var l := outs[n][ct];
      var t := g.dst[l];
      if t !in m.seen {
        ReachedNext(g, n, m.order[n], l);
        VisitExplored(g, outs, t, m.order[n] + 1, m);
        var (ok1, m1) := Visit(g, outs, t, m.order[n] + 1, m);
        VisitGrows(g, outs, t, m.order[n] + 1, m);
        ToSetNext(outs[n], ct);
        assert m1.order[n] == m.order[n];
        ExploredNext(g, n, depth, m0.seen, m0.order, m.seen, m.order, ToSet(outs[n][ct..]), ok,
                     l, m1.seen, m1.order, ok1);
        VisitLinksExplored(g, outs, n, depth, ct + 1, m0, m1, ok && ok1);
      }
    }
  }

  /** One round of the loop. */
  lemma {:induction false} VisitLinksStep(g: Graph, outs: seq<seq<nat>>, n: nat, ct: nat, m: Marks)
    requires OutLinks(g, outs) && MarksOk(g, m) && n < g.size && n in m.seen && ct < |outs[n]|
    requires g.dst[outs[n][ct]] !in m.seen
    ensures var v := Visit(g, outs, g.dst[outs[n][ct]], m.order[n] + 1, m);
      var w := VisitLinks(g, outs, n, ct + 1, v.1);
      VisitLinks(g, outs, n, ct, m) == (v.0 && w.0, w.1)
  {
    var v := Visit(g, outs, g.dst[outs[n][ct]], m.order[n] + 1, m);
    assert n in v.1.seen && MarksOk(g, v.1);
  }

  /** What is known of the whole loop carries over one round. */
  lemma VisitLinksRound(g: Graph, outs: seq<seq<nat>>, n: nat, ct: nat, m: Marks, all: (bool, Marks), ok: bool,
                        t: nat, v: (bool, Marks))
    requires OutLinks(g, outs) && MarksOk(g, m) && n < g.size && n in m.seen && ct < |outs[n]|
    requires t == g.dst[outs[n][ct]] && t !in m.seen && v == Visit(g, outs, t, m.order[n] + 1, m)
    requires all.0 == (ok && VisitLinks(g, outs, n, ct, m).0) && all.1 == VisitLinks(g, outs, n, ct, m).1
    ensures MarksOk(g, v.1) && m.seen <= v.1.seen
    ensures all.0 == (ok && v.0 && VisitLinks(g, outs, n, ct + 1, v.1).0)
    ensures all.1 == VisitLinks(g, outs, n, ct + 1, v.1).1
  {
    VisitLinksStep(g, outs, n, ct, m);
  }

  /** The loop ends at a node already seen, or after the last output. */
  lemma VisitLinksStop(g: Graph, outs: seq<seq<nat>>, n: nat, ct: nat, m: Marks)
    requires OutLinks(g, outs) && MarksOk(g, m) && n < g.size && n in m.seen && ct <= |outs[n]|
    requires ct < |outs[n]| ==> g.dst[outs[n][ct]] in m.seen
    ensures VisitLinks(g, outs, n, ct, m) == (ct == |outs[n]|, m)
  {
  }

  lemma VisitGrows(g: Graph, outs: seq<seq<nat>>, n: nat, depth: int, m: Marks)
    requires OutLinks(g, outs) && MarksOk(g, m) && n < g.size && n !in m.seen
    ensures |m.seen| < |Visit(g, outs, n, depth, m).1.seen| <= g.size
  {
    SubsetCard(m.seen + {n}, Visit(g, outs, n, depth, m).1.seen);
    MarkedCard(g, Visit(g, outs, n, depth, m).1);
  }

  /** The links in used' but not in used leave nodes outside `seen`, or node n. */
  ghost predicate NewlyUsed(g: Graph, used: set<nat>, used': set<nat>, seen: set<nat>, n: nat)
    requires g.Ok()
  {
    forall l :: l in used' && l !in used ==> 0 <= l < |g.src| && (g.src[l] !in seen || g.src[l] == n)
  }

  lemma NewlyUsedNext(g: Graph, used: set<nat>, l: nat, used1: set<nat>, used2: set<nat>,
                      seen: set<nat>, seen1: set<nat>, n: nat)
    requires g.Ok() && l < |g.src| && g.src[l] == n && g.dst[l] !in seen && seen <= seen1
    requires NewlyUsed(g, used + {l}, used1, seen, g.dst[l]) && NewlyUsed(g, used1, used2, seen1, n)
    ensures NewlyUsed(g, used, used2, seen, n)
  {
  }

  /** The outputs of n that are still to be followed are not used by the recursion below n. */
  lemma StillUnused(g: Graph, outs: seq<seq<nat>>, n: nat, ct: nat, used: set<nat>, used1: set<nat>,
                    seen: set<nat>, t: nat)
    requires OutLinks(g, outs) && n < g.size && n in seen && t !in seen && ct < |outs[n]|
    requires forall i :: ct <= i < |outs[n]| ==> outs[n][i] !in used
    requires NewlyUsed(g, used + {outs[n][ct]}, used1, seen, t)
    ensures forall i :: ct + 1 <= i < |outs[n]| ==> outs[n][i] !in used1
  {
    forall i | ct + 1 <= i < |outs[n]|
      ensures outs[n][i] !in used1
    {
      assert NoRepeats(outs[n]) && outs[n][ct] != outs[n][i];
    }
  }

  /** When the recursion answers no, some node is reached from r by two different paths. */
  lemma {:induction false} VisitSearch(g: Graph, outs: seq<seq<nat>>, n: nat, depth: int, m: Marks,
                                       r: nat, used: set<nat>)
    returns (used': set<nat>)
    requires OutLinks(g, outs) && MarksOk(g, m) && n < g.size && n !in m.seen
    requires Search(g, r, m.seen, used) && Found(g, r, n, used)
    ensures Search(g, r, Visit(g, outs, n, depth, m).1.seen, used')
    ensures !Visit(g, outs, n, depth, m).0 ==> !UniquePaths(g, r)
    ensures NewlyUsed(g, used, used', m.seen, n)
    decreases g.size - |m.seen|, 0, 0
  {
    var order := if m.order[n] < depth then depth else m.order[n];
    var m1 := Marks(m.seen + {n}, m.order[n := order]);
    MarkedCard(g, m1);
    used' := VisitLinksSearch(g, outs, n, 0, m1, r, used);
  }

  lemma {:induction false} VisitLinksSearch(g: Graph, outs: seq<seq<nat>>, n: nat, ct: nat, m: Marks,
                                            r: nat, used: set<nat>)
    returns (used': set<nat>)
    requires OutLinks(g, outs) && MarksOk(g, m) && n < g.size && n in m.seen && ct <= |outs[n]|
    requires Search(g, r, m.seen, used)
    requires forall i :: ct <= i < |outs[n]| ==> outs[n][i] !in used
    ensures Search(g, r, VisitLinks(g, outs, n, ct, m).1.seen, used')
    ensures !VisitLinks(g, outs, n, ct, m).0 ==> !UniquePaths(g, r)
    ensures NewlyUsed(g, used, used', m.seen, n)
    decreases g.size - |m.seen|, 1, |outs[n]| - ct
  {
    used' := used;
    if ct < |outs[n]| {
      var l := outs[n][ct];
      var t := g.dst[l];
      if t in m.seen {
        SearchClash(g, r, m.seen, used, l);
      } else {
        SearchFollow(g, r, m.seen, used, l);
        var used1 := VisitSearch(g, outs, t, m.order[n] + 1, m, r, used + {l});
        var m1 := Visit(g, outs, t, m.order[n] + 1, m).1;
        VisitGrows(g, outs, t, m.order[n] + 1, m);
        StillUnused(g, outs, n, ct, used, used1, m.seen, t);
        used' := VisitLinksSearch(g, outs, n, ct + 1, m1, r, used1);
        NewlyUsedNext(g, used, l, used1, used', m.seen, m1.seen, n);
        VisitLinksStep(g, outs, n, ct, m);
      }
    }
  }

  // ------------------------------------------------------ The loop over roots

  /** The recursion from every input-free node from ct on, each with fresh marks. */
  ghost function OrderRoots(g: Graph, outs: seq<seq<nat>>, ct: nat, order: seq<int>): (r: (bool, seq<int>))
    requires OutLinks(g, outs) && |order| == g.size && ct <= g.size
    ensures |r.1| == g.size
    decreases g.size - ct
  {
    if ct == g.size then (true, order)
    else if InputFree(g, ct) then
      var v := Visit(g, outs, ct, 0, Marks({}, order));
      var w := OrderRoots(g, outs, ct + 1, v.1.order);
      (v.0 && w.0, w.1)
    else OrderRoots(g, outs, ct + 1, order)
  }

  /** With a single input-free node, its recursion is all there is. */
  lemma {:induction false} SingleRoot(g: Graph, outs: seq<seq<nat>>, ct: nat, order: seq<int>, r: nat)
    requires OutLinks(g, outs) && |order| == g.size && ct <= g.size && InputFree(g, r)
    requires forall v: nat :: InputFree(g, v) ==> v == r
    ensures OrderRoots(g, outs, ct, order) ==
      if ct <= r then var v := Visit(g, outs, r, 0, Marks({}, order)); (v.0, v.1.order) else (true, order)
    decreases g.size - ct
  {
    if ct < g.size {
      SingleRoot(g, outs, ct + 1, if ct == r then Visit(g, outs, r, 0, Marks({}, order)).1.order else order, r);
    }
  }

  /** No link leaves s. */
  ghost predicate LeadsInto(g: Graph, s: set<nat>)
    requires g.Ok()
  {
    forall l :: 0 <= l < |g.src| && g.src[l] in s ==> g.dst[l] in s
  }

  /** What the orders promise once the regions in s have been explored without a clash. */
  ghost predicate Ordered(g: Graph, order: seq<int>, s: set<nat>)
    requires g.Ok() && |order| == g.size
  {
    Rising(g, order, s, {}) && LeadsInto(g, s)
  }

  /** The recursion from an input-free node r answers whether paths from r are unique, and orders what it saw. */
  lemma RootVisited(g: Graph, outs: seq<seq<nat>>, r: nat, order: seq<int>, s: set<nat>)
    requires OutLinks(g, outs) && AllOutLinks(g, outs) && |order| == g.size && InputFree(g, r)
    requires Attained(g, order) && Ordered(g, order, s) && forall v :: 0 <= v < g.size ==> 0 <= order[v]
    ensures var v := Visit(g, outs, r, 0, Marks({}, order));
      && (v.0 <==> UniquePaths(g, r)) && Attained(g, v.1.order)
      && (v.0 ==> r in v.1.seen && Ordered(g, v.1.order, s + v.1.seen))
      && forall n :: 0 <= n < g.size ==> 0 <= v.1.order[n]
  {
    assert IsPath(g, r, []) && End(g, r, []) == r;
    assert Reached(g, r, 0);
    VisitExplored(g, outs, r, 0, Marks({}, order));
    var used := VisitSearch(g, outs, r, 0, Marks({}, order), r, {});
    var v := Visit(g, outs, r, 0, Marks({}, order));
    assert v.1.seen - {} == v.1.seen;
    if v.0 {
      TreeIsUnique(g, r, v.1.seen);
    }
  }

  /** Every node is reached from some input-free node. */
  ghost predicate AllReached(g: Graph)
    requires g.Ok()
  {
    forall v :: 0 <= v < g.size ==> ReachedSomehow(g, v)
  }

  ghost predicate ReachedSomehow(g: Graph, v: nat)
    requires g.Ok()
  {
    exists k :: Reached(g, v, k)
  }

  /** d is the length of the longest path from an input-free node to v. */
  ghost predicate Longest(g: Graph, v: nat, d: int)
    requires g.Ok()
  {
    Reached(g, v, d) && forall k :: Reached(g, v, k) ==> k <= d
  }

  lemma {:induction false} PathStaysIn(g: Graph, s: set<nat>, r: nat, p: Path)
    requires g.Ok() && LeadsInto(g, s) && r in s && IsPath(g, r, p)
    ensures End(g, r, p) in s && forall i :: 0 <= i < |p| ==> g.src[p[i]] in s
    decreases |p|
  {
    if |p| > 0 {
      PathPrefix(g, r, p);
      PathStaysIn(g, s, r, p[..|p| - 1]);
    }
  }

  /** Once every input-free node is in s, the order of a node is at least the length of each path to it. */
  lemma OrderBoundsPaths(g: Graph, order: seq<int>, s: set<nat>, v: nat, k: int)
    requires g.Ok() && |order| == g.size && Ordered(g, order, s)
    requires forall r: nat :: InputFree(g, r) ==> r in s && 0 <= order[r]
    requires v < g.size && Reached(g, v, k)
    ensures v in s && 0 <= k <= order[v]
  {
    var r, p :| InputFree(g, r) && IsPath(g, r, p) && End(g, r, p) == v && |p| == k;
    PathStaysIn(g, s, r, p);
    RisingAlongPath(g, order, s, r, p);
  }

  /** When every node is reached, orders are longest path lengths and rise along every link. */
  lemma OrdersAreLongest(g: Graph, order: seq<int>, s: set<nat>)
    requires g.Ok() && |order| == g.size && Ordered(g, order, s) && Attained(g, order) && AllReached(g)
    requires forall r: nat :: InputFree(g, r) ==> r in s && 0 <= order[r]
    ensures forall v :: 0 <= v < g.size ==> Longest(g, v, order[v])
    ensures forall l :: 0 <= l < |g.src| ==> order[g.src[l]] < order[g.dst[l]]
  {
    forall v | 0 <= v < g.size
      ensures Longest(g, v, order[v]) && v in s
    {
      assert ReachedSomehow(g, v);
      var k :| Reached(g, v, k);
      OrderBoundsPaths(g, order, s, v, k);
      forall j | Reached(g, v, j)
        ensures j <= order[v]
      {
        OrderBoundsPaths(g, order, s, v, j);
      }
    }
  }

  // ------------------------------------------------------------- Schedules

  /** A list of all nodes, each once. */
  ghost predicate Schedule(list: seq<nat>, size: nat) {
    NoRepeats(list) && forall v: nat :: v in list <==> v < size
  }

  /** The source of every link stands before its destination. */
  ghost predicate SourcesFirst(g: Graph, list: seq<nat>)
    requires g.Ok()
  {
    forall l, i, j :: (0 <= l < |g.src| && 0 <= i < |list| && 0 <= j < |list|
                       && list[i] == g.src[l] && list[j] == g.dst[l]) ==> i < j
  }

  ghost predicate SortedBy(list: seq<nat>, order: seq<int>)
    requires Schedule(list, |order|)
  {
    Ascending(list, order)
  }

  function Keyed(order: seq<int>, v: nat): int {
    if v < |order| then order[v] else 0
  }

  /** In a schedule that respects the links, every node is reached. */
  lemma {:induction false} SourcesFirstReached(g: Graph, list: seq<nat>, j: nat)
    requires g.Ok() && Schedule(list, g.size) && SourcesFirst(g, list) && j < |list|
    ensures ReachedSomehow(g, list[j])
    decreases j
  {
    var v := list[j];
    assert v in list;
    if InputFree(g, v) {
      assert IsPath(g, v, []) && End(g, v, []) == v;
      assert Reached(g, v, 0);
    } else {
      var l :| 0 <= l < |g.dst| && g.dst[l] == v;
      assert g.src[l] in list;
      var i :| 0 <= i < |list| && list[i] == g.src[l];
      SourcesFirstReached(g, list, i);
      var k :| Reached(g, list[i], k);
      ReachedNext(g, list[i], k, l);
    }
  }

  /** Any list sorted by rising orders respects the links. */
  lemma SortedIsSourcesFirst(g: Graph, list: seq<nat>, order: seq<int>)
    requires g.Ok() && |order| == g.size && Schedule(list, g.size) && SortedBy(list, order)
    requires forall l :: 0 <= l < |g.src| ==> order[g.src[l]] < order[g.dst[l]]
    ensures SourcesFirst(g, list)
  {
    forall l, i, j | (0 <= l < |g.src| && 0 <= i < |list| && 0 <= j < |list|
                      && list[i] == g.src[l] && list[j] == g.dst[l])
      ensures i < j
    {
      assert Keyed(order, list[i]) < Keyed(order, list[j]);
    }
  }

  lemma InsertKeepsSchedule(list: seq<nat>, n: nat, p: nat)
    requires Schedule(list, n) && p <= |list|
    ensures Schedule(list[..p] + [n] + list[p..], n + 1)
  {
    var list' := list[..p] + [n] + list[p..];
    assert forall v :: v in list' <==> v in list || v == n by {
      assert list == list[..p] + list[p..];
    }
    assert n !in list;
    forall i, j | 0 <= i < j < |list'|
      ensures list'[i] != list'[j]
    {
      InsertKeepsApart(list, n, p, i, j);
    }
  }

  lemma InsertKeepsApart(list: seq<nat>, n: nat, p: nat, i: nat, j: nat)
    requires NoRepeats(list) && n !in list && p <= |list| && i < j <= |list|
    ensures (list[..p] + [n] + list[p..])[i] != (list[..p] + [n] + list[p..])[j]
  {
    if i != p {
      assert (list[..p] + [n] + list[p..])[i] == list[if i < p then i else i - 1];
    }
    if j != p {
      assert (list[..p] + [n] + list[p..])[j] == list[if j < p then j else j - 1];
    }
  }

  /** Keys do not fall along the list. */
  ghost predicate Ascending(list: seq<nat>, order: seq<int>) {
    forall i, j :: 0 <= i < j < |list| ==> Keyed(order, list[i]) <= Keyed(order, list[j])
  }

  /** Where n belongs in an ascending list. */
  lemma Place(order: seq<int>, list: seq<nat>, n: nat) returns (p: nat)
    requires n < |order| && Ascending(list, order)
    ensures p <= |list| && Ascending(list[..p] + [n] + list[p..], order)
  {
    p := |list|;
    while p > 0 && Keyed(order, list[p - 1]) > order[n]
      invariant 0 <= p <= |list| && forall i :: p <= i < |list| ==> order[n] < Keyed(order, list[i])
    {
      p := p - 1;
    }
  }

  /** Every list of orders has a sorted schedule. */
  lemma {:induction false} SortedExists(order: seq<int>, n: nat) returns (list: seq<nat>)
    requires n <= |order|
    ensures Schedule(list, n) && Ascending(list, order)
  {
    list := [];
    if n > 0 {
      list := SortedExists(order, n - 1);
      var p := Place(order, list, n - 1);
      InsertKeepsSchedule(list, n - 1, p);
      list := list[..p] + [n - 1] + list[p..];
    }
  }

  /** Some schedule sorted by these orders puts v before w, unless w has the smaller order. */
  lemma SortedWithFirst(order: seq<int>, v: nat, w: nat) returns (list: seq<nat>)
    requires v < |order| && w < |order| && order[v] <= order[w]
    ensures Schedule(list, |order|) && SortedBy(list, order)
    ensures forall i, j :: 0 <= i < |list| && 0 <= j < |list| && list[i] == w && list[j] == v ==> j <= i
  {
    var fine := seq(|order|, u requires 0 <= u < |order| => 2 * order[u] + if u == w then 1 else 0);
    list := SortedExists(fine, |fine|);
    forall i, j | 0 <= i < j < |list|
      ensures Keyed(order, list[i]) <= Keyed(order, list[j])
    {
      assert list[i] in list && list[j] in list;
    }
  }

  /** Sorting respects the links, however ties are broken, exactly when orders rise along every link. */
  lemma EverySortRespects(g: Graph, order: seq<int>)
    requires g.Ok() && |order| == g.size
    ensures (forall list :: Schedule(list, g.size) && SortedBy(list, order) ==> SourcesFirst(g, list))
        <==> forall l :: 0 <= l < |g.src| ==> order[g.src[l]] < order[g.dst[l]]
  {
    if forall l :: 0 <= l < |g.src| ==> order[g.src[l]] < order[g.dst[l]] {
      forall list | Schedule(list, g.size) && SortedBy(list, order)
        ensures SourcesFirst(g, list)
      {
        SortedIsSourcesFirst(g, list, order);
      }
    } else {
      var l :| 0 <= l < |g.src| && order[g.src[l]] >= order[g.dst[l]];
      var list := SortedWithFirst(order, g.dst[l], g.src[l]);
      assert g.src[l] in list && g.dst[l] in list;
      var i, j :| 0 <= i < |list| && 0 <= j < |list| && list[i] == g.src[l] && list[j] == g.dst[l];
      assert !SourcesFirst(g, list);
    }
  }
}
