/**
 Graphs on which the marking recursion (rsScriptGroup.cpp) orders all nodes rightly even
 when it answers no: paths that meet have the same length, and nothing is left unvisited.
 */
module LevelledGraph {
  import opened Common
  import opened LinkGraph

  /** Input-free nodes have level 0, and every link goes up by one level. */
  ghost predicate Levelled(g: Graph, h: seq<int>)
    requires g.Ok()
  {
    && |h| == g.size && (forall v: nat :: InputFree(g, v) ==> h[v] == 0)
    && forall l :: 0 <= l < |g.src| ==> h[g.dst[l]] == h[g.src[l]] + 1
  }

  /** Only the last output of a node may lead to a node that has other links into it. */
  ghost predicate SharedLast(g: Graph, outs: seq<seq<nat>>)
    requires OutLinks(g, outs)
  {
    forall n, i, m :: (0 <= n < |outs| && 0 <= i < |outs[n]| - 1 && 0 <= m < |g.dst|
                       && g.dst[m] == g.dst[outs[n][i]]) ==> m == outs[n][i]
  }

  /** The graph, its link lists and its levels are as above. */
  ghost predicate LevelledLists(g: Graph, outs: seq<seq<nat>>, h: seq<int>) {
    && OutLinks(g, outs) && |h| == g.size
    && forall k :: Key(k) ==> AllOutLinks(g, outs) && SharedLast(g, outs) && Levelled(g, h)
  }

  ghost predicate Orderly(g: Graph, outs: seq<seq<nat>>, h: seq<int>, r: nat) {
    LevelledLists(g, outs, h) && InputFree(g, r)
  }

  /** Every order is 0 or the level of its node. */
  ghost predicate WithinLevels(order: seq<int>, h: seq<int>) {
    |order| == |h| && forall v :: 0 <= v < |h| ==> order[v] == 0 || order[v] == h[v]
  }

  /**
   The newly seen nodes have their levels as orders, links out of them lead to seen nodes, except
   those in `todo`, and what had its level keeps it.
   */
  ghost predicate Spread(g: Graph, seen: set<nat>, order: seq<int>, seen': set<nat>, order': seq<int>,
                         h: seq<int>, todo: set<nat>)
    requires g.Ok()
  {
    forall k :: Spreading(seen, seen', todo, k) ==>
      && |order| == |h| == g.size && WithinLevels(order', h) && seen <= seen'
      && (forall v :: v in seen' && v !in seen ==> v < g.size && order'[v] == h[v])
      && (forall v :: 0 <= v < g.size && order[v] == h[v] ==> order'[v] == h[v])
      && (forall l :: 0 <= l < |g.src| && g.src[l] in seen' && g.src[l] !in seen && l !in todo ==> g.dst[l] in seen')
  }

  /** A key for facts about one step of the search. */
  predicate Spreading(seen: set<nat>, seen': set<nat>, todo: set<nat>, k: int) {
    true
  }

  lemma SpreadMeans(g: Graph, seen: set<nat>, order: seq<int>, seen': set<nat>, order': seq<int>, h: seq<int>, n: nat)
    requires g.Ok() && Spread(g, seen, order, seen', order', h, {})
    ensures |order| == |h| == g.size && WithinLevels(order', h)
    ensures n < g.size && order[n] == h[n] ==> order'[n] == h[n]
  {
    assert Spreading(seen, seen', {}, 0);
  }

  lemma SpreadEnter(g: Graph, n: nat, seen: set<nat>, order: seq<int>, h: seq<int>, todo: set<nat>)
    requires g.Ok() && |h| == g.size && n < g.size && n !in seen && WithinLevels(order, h)
    requires forall l :: 0 <= l < |g.src| && g.src[l] == n ==> l in todo
    ensures Spread(g, seen, order, seen + {n}, order[n := h[n]], h, todo)
  {
  }

  /** The recursion followed link l to a new node and came back. */
  lemma SpreadNext(g: Graph, seen0: set<nat>, order0: seq<int>, seen: set<nat>, order: seq<int>, h: seq<int>,
                   todo: set<nat>, l: nat, seen1: set<nat>, order1: seq<int>)
    requires g.Ok() && Spread(g, seen0, order0, seen, order, h, todo) && Spread(g, seen, order, seen1, order1, h, {})
    requires l < |g.src| && g.dst[l] in seen1
    ensures Spread(g, seen0, order0, seen1, order1, h, todo - {l})
  {
    assert Spreading(seen0, seen, todo, 0) && Spreading(seen, seen1, {}, 0);
  }

  /** An output that is not the last leads to a node that has not been seen. */
  lemma NotSeenBefore(g: Graph, outs: seq<seq<nat>>, r: nat, seen: set<nat>, used: set<nat>, n: nat, ct: nat)
    requires OutLinks(g, outs) && SharedLast(g, outs) && InputFree(g, r) && Search(g, r, seen, used)
    requires n < |outs| && ct + 1 < |outs[n]| && outs[n][ct] !in used
    ensures g.dst[outs[n][ct]] !in seen
  {
    var l := outs[n][ct];
    if g.dst[l] in seen {
      assert Found(g, r, g.dst[l], used);
      var p :| IsPath(g, r, p) && End(g, r, p) == g.dst[l] && (|p| > 0 ==> p[|p| - 1] in used);
      assert false;
    }
  }

  /** A key for facts about one state of the search. */
  predicate Searching(seen: set<nat>, used: set<nat>, k: int) {
    true
  }

  /** The search from r is about to enter node n. */
  ghost predicate Entering(g: Graph, r: nat, n: nat, seen: set<nat>, used: set<nat>)
    requires g.Ok()
  {
    forall k :: Searching(seen, used, k) ==> Search(g, r, seen, used) && Found(g, r, n, used)
  }

  /** The search from r is in the loop of node n, and has not followed its outputs from ct on. */
  ghost predicate Looping(g: Graph, outs: seq<seq<nat>>, r: nat, n: nat, ct: nat, seen: set<nat>, used: set<nat>)
    requires OutLinks(g, outs) && n < g.size
  {
    forall k :: Searching(seen, used, k) ==>
      Search(g, r, seen, used) && forall i :: ct <= i < |outs[n]| ==> outs[n][i] !in used
  }

  lemma LoopStart(g: Graph, outs: seq<seq<nat>>, r: nat, n: nat, seen: set<nat>, used: set<nat>)
    requires OutLinks(g, outs) && n < g.size && n !in seen && Entering(g, r, n, seen, used)
    ensures Looping(g, outs, r, n, 0, seen + {n}, used)
  {
    assert Searching(seen, used, 0);
  }

  lemma LoopRound(g: Graph, outs: seq<seq<nat>>, r: nat, n: nat, ct: nat, m: Marks, used: set<nat>)
    returns (used1: set<nat>)
    requires OutLinks(g, outs) && MarksOk(g, m) && n < g.size && n in m.seen && ct < |outs[n]|
    requires Looping(g, outs, r, n, ct, m.seen, used) && g.dst[outs[n][ct]] !in m.seen
    ensures Entering(g, r, g.dst[outs[n][ct]], m.seen, used + {outs[n][ct]})
    ensures Looping(g, outs, r, n, ct + 1, Visit(g, outs, g.dst[outs[n][ct]], m.order[n] + 1, m).1.seen, used1)
  {
    assert Searching(m.seen, used, 0);
    var l := outs[n][ct];
    SearchFollow(g, r, m.seen, used, l);
    used1 := VisitSearch(g, outs, g.dst[l], m.order[n] + 1, m, r, used + {l});
    StillUnused(g, outs, n, ct, used, used1, m.seen, g.dst[l]);
  }

  /** The recursion gives every node it sees its level. */
  lemma {:induction false} VisitLevels(g: Graph, outs: seq<seq<nat>>, n: nat, depth: int, m: Marks,
                                       r: nat, used: set<nat>, h: seq<int>)
    requires Orderly(g, outs, h, r) && MarksOk(g, m) && n < g.size && n !in m.seen
    requires WithinLevels(m.order, h) && depth == h[n] >= 0 && Entering(g, r, n, m.seen, used)
    ensures var v := Visit(g, outs, n, depth, m); Spread(g, m.seen, m.order, v.1.seen, v.1.order, h, {})
    decreases g.size - |m.seen|, 0, 0
  {
    var m1 := Marks(m.seen + {n}, m.order[n := h[n]]);
    MarkedCard(g, m1);
    OutsStart(g, outs, h, r, n);
    SpreadEnter(g, n, m.seen, m.order, h, ToSet(outs[n][0..]));
    LoopStart(g, outs, r, n, m.seen, used);
    VisitLinksLevels(g, outs, n, 0, m, m1, r, used, h);
  }

  lemma OutsStart(g: Graph, outs: seq<seq<nat>>, h: seq<int>, r: nat, n: nat)
    requires Orderly(g, outs, h, r) && n < g.size
    ensures forall l :: 0 <= l < |g.src| && g.src[l] == n ==> l in ToSet(outs[n][0..])
  {
    assert Key(0);
    assert outs[n][0..] == outs[n];
  }

  lemma {:induction false} VisitLinksLevels(g: Graph, outs: seq<seq<nat>>, n: nat, ct: nat, m0: Marks, m: Marks,
                                            r: nat, used: set<nat>, h: seq<int>)
    requires Orderly(g, outs, h, r) && MarksOk(g, m0) && MarksOk(g, m) && WithinLevels(m.order, h)
    requires n < g.size && n in m.seen && ct <= |outs[n]| && m.order[n] == h[n] >= 0
    requires Looping(g, outs, r, n, ct, m.seen, used)
    requires Spread(g, m0.seen, m0.order, m.seen, m.order, h, ToSet(outs[n][ct..]))
    ensures var v := VisitLinks(g, outs, n, ct, m); Spread(g, m0.seen, m0.order, v.1.seen, v.1.order, h, {})
    decreases g.size - |m.seen|, 1, |outs[n]| - ct
  {
    if ct < |outs[n]| && g.dst[outs[n][ct]] !in m.seen {
      var l, t := outs[n][ct], g.dst[outs[n][ct]];
      var m1 := Visit(g, outs, t, m.order[n] + 1, m).1;
      var used1 := LoopRound(g, outs, r, n, ct, m, used);
      NextLevel(g, outs, h, r, l);
      VisitLevels(g, outs, t, m.order[n] + 1, m, r, used + {l}, h);
      VisitGrows(g, outs, t, m.order[n] + 1, m);
      LevelsNext(g, outs, n, ct, m0, m, m1, h);
      VisitLinksLevels(g, outs, n, ct + 1, m0, m1, r, used1, h);
      VisitLinksStep(g, outs, n, ct, m);
    } else {
      VisitLinksStop(g, outs, n, ct, m);
      LastOutput(g, outs, n, ct, m0, m, r, used, h);
    }
  }

  /** What holds before the next round, after the recursion along output ct has gone from m to m1. */
  lemma LevelsNext(g: Graph, outs: seq<seq<nat>>, n: nat, ct: nat, m0: Marks, m: Marks, m1: Marks, h: seq<int>)
    requires OutLinks(g, outs) && n < g.size && ct < |outs[n]| && |m.order| == |m1.order| == |h| == g.size
    requires g.dst[outs[n][ct]] in m1.seen && m.order[n] == h[n]
    requires Spread(g, m0.seen, m0.order, m.seen, m.order, h, ToSet(outs[n][ct..]))
    requires Spread(g, m.seen, m.order, m1.seen, m1.order, h, {})
    ensures m1.order[n] == h[n] && WithinLevels(m1.order, h)
    ensures Spread(g, m0.seen, m0.order, m1.seen, m1.order, h, ToSet(outs[n][ct + 1..]))
  {
    ToSetNext(outs[n], ct);
    SpreadMeans(g, m.seen, m.order, m1.seen, m1.order, h, n);
    SpreadNext(g, m0.seen, m0.order, m.seen, m.order, h, ToSet(outs[n][ct..]), outs[n][ct], m1.seen, m1.order);
  }

  lemma NextLevel(g: Graph, outs: seq<seq<nat>>, h: seq<int>, r: nat, l: nat)
    requires Orderly(g, outs, h, r) && l < |g.src|
    ensures h[g.dst[l]] == h[g.src[l]] + 1
  {
    assert Key(0);
  }

  /** The loop stops at its last output at the earliest. */
  lemma LastOutput(g: Graph, outs: seq<seq<nat>>, n: nat, ct: nat, m0: Marks, m: Marks, r: nat, used: set<nat>,
                   h: seq<int>)
    requires Orderly(g, outs, h, r) && n < g.size && ct <= |outs[n]|
    requires Looping(g, outs, r, n, ct, m.seen, used) && (ct < |outs[n]| ==> g.dst[outs[n][ct]] in m.seen)
    requires Spread(g, m0.seen, m0.order, m.seen, m.order, h, ToSet(outs[n][ct..]))
    ensures Spread(g, m0.seen, m0.order, m.seen, m.order, h, {})
  {
    assert Key(0) && Searching(m.seen, used, 0) && Spreading(m0.seen, m.seen, ToSet(outs[n][ct..]), 0);
    if ct + 1 < |outs[n]| {
      NotSeenBefore(g, outs, r, m.seen, used, n, ct);
    }
    assert forall l :: l in ToSet(outs[n][ct..]) ==> ct < |outs[n]| && l == outs[n][ct];
  }

  // --------------------------------------------------------------------- All roots

  /** Every node that r reaches has its level as order. */
  ghost predicate ReachedLevels(g: Graph, r: nat, order: seq<int>, h: seq<int>)
    requires g.Ok() && |order| == |h| == g.size
  {
    forall k :: KeyAt(r, k) ==>
      forall p :: IsPath(g, r, p) && End(g, r, p) < g.size ==> order[End(g, r, p)] == h[End(g, r, p)]
  }

  /** Every node that has its level keeps it. */
  ghost predicate LevelsKept(order: seq<int>, order': seq<int>, h: seq<int>) {
    |order| == |order'| == |h| && forall n :: 0 <= n < |h| && order[n] == h[n] ==> order'[n] == h[n]
  }

  lemma ReachedLevelsKept(g: Graph, r: nat, order: seq<int>, order': seq<int>, h: seq<int>)
    requires g.Ok() && |h| == g.size && LevelsKept(order, order', h) && ReachedLevels(g, r, order, h)
    ensures ReachedLevels(g, r, order', h)
  {
    assert KeyAt(r, 0);
  }

  lemma RootLevels(g: Graph, outs: seq<seq<nat>>, r: nat, order: seq<int>, h: seq<int>)
    requires Orderly(g, outs, h, r) && WithinLevels(order, h) && InputFree(g, r)
    ensures var v := Visit(g, outs, r, 0, Marks({}, order));
      WithinLevels(v.1.order, h) && ReachedLevels(g, r, v.1.order, h) && LevelsKept(order, v.1.order, h)
  {
    assert IsPath(g, r, []) && End(g, r, []) == r;
    assert Found(g, r, r, {});
    assert h[r] == 0 by {
      assert Key(0);
    }
    VisitLevels(g, outs, r, 0, Marks({}, order), r, {}, h);
    var v := Visit(g, outs, r, 0, Marks({}, order));
    SpreadReaches(g, r, order, v.1, h);
  }

  lemma SpreadReaches(g: Graph, r: nat, order: seq<int>, m: Marks, h: seq<int>)
    requires g.Ok() && |m.order| == |h| == g.size && r in m.seen && Spread(g, {}, order, m.seen, m.order, h, {})
    ensures WithinLevels(m.order, h) && ReachedLevels(g, r, m.order, h) && LevelsKept(order, m.order, h)
  {
    assert Spreading({}, m.seen, {}, 0);
    forall p | IsPath(g, r, p) && End(g, r, p) < g.size
      ensures m.order[End(g, r, p)] == h[End(g, r, p)]
    {
      PathStaysIn(g, m.seen, r, p);
    }
  }

  /** The roots from ct on have given what they reach its level. */
  ghost predicate RootsReached(g: Graph, ct: nat, order: seq<int>, h: seq<int>)
    requires g.Ok() && |order| == |h| == g.size
  {
    forall r: nat :: ct <= r && InputFree(g, r) ==> ReachedLevels(g, r, order, h)
  }

  lemma {:induction false} RootsLevels(g: Graph, outs: seq<seq<nat>>, ct: nat, order: seq<int>, h: seq<int>)
    requires LevelledLists(g, outs, h) && WithinLevels(order, h) && ct <= g.size
    ensures var w := OrderRoots(g, outs, ct, order);
      WithinLevels(w.1, h) && LevelsKept(order, w.1, h) && RootsReached(g, ct, w.1, h)
    decreases g.size - ct
  {
    if ct < g.size {
      var w := OrderRoots(g, outs, ct, order);
      if InputFree(g, ct) {
        RootLevels(g, outs, ct, order, h);
        var order1 := Visit(g, outs, ct, 0, Marks({}, order)).1.order;
        RootsLevels(g, outs, ct + 1, order1, h);
        ReachedLevelsKept(g, ct, order1, w.1, h);
      } else {
        RootsLevels(g, outs, ct + 1, order, h);
      }
    }
  }

  lemma ReachedLevel(g: Graph, v: nat, order: seq<int>, h: seq<int>)
    requires g.Ok() && |order| == |h| == g.size && RootsReached(g, 0, order, h) && v < g.size && ReachedSomehow(g, v)
    ensures order[v] == h[v]
  {
    var k :| Reached(g, v, k);
    var r: nat, p :| InputFree(g, r) && IsPath(g, r, p) && End(g, r, p) == v && |p| == k;
    assert ReachedLevels(g, r, order, h) && KeyAt(r, 0);
  }

  lemma OrdersAreLevels(g: Graph, outs: seq<seq<nat>>, order: seq<int>, h: seq<int>)
    requires LevelledLists(g, outs, h) && AllReached(g) && WithinLevels(order, h)
    ensures OrderRoots(g, outs, 0, order).1 == h
  {
    RootsLevels(g, outs, 0, order, h);
    var w := OrderRoots(g, outs, 0, order);
    forall v: nat | v < g.size
      ensures w.1[v] == h[v]
    {
      assert ReachedSomehow(g, v);
      ReachedLevel(g, v, w.1, h);
    }
  }

  /**
   On a levelled graph in which every node is reached and only last outputs are shared, orders are
   levels, and so every sort puts all sources first, even when the recursion answers no.
   */
  lemma LevelledRespects(g: Graph, outs: seq<seq<nat>>, order: seq<int>, h: seq<int>)
    requires OutLinks(g, outs) && AllOutLinks(g, outs) && SharedLast(g, outs) && Levelled(g, h) && AllReached(g)
    requires |order| == g.size && forall v :: 0 <= v < g.size ==> order[v] == 0
    ensures OrderRoots(g, outs, 0, order).1 == h
    ensures forall list :: Schedule(list, g.size) && SortedBy(list, h) ==> SourcesFirst(g, list)
  {
    OrdersAreLevels(g, outs, order, h);
    LevelledSorts(g, outs, h);
  }

  /** A diamond, whose last node is reached by two paths, is such a graph. */
  function Diamond(): Graph {
    Graph(4, [0, 0, 1, 2], [1, 2, 3, 3])
  }

  function DiamondOuts(): seq<seq<nat>> {
    [[0, 1], [2], [3], []]
  }

  lemma DiamondLinks()
    ensures OutLinks(Diamond(), DiamondOuts()) && AllOutLinks(Diamond(), DiamondOuts())
  {
    var g, outs := Diamond(), DiamondOuts();
    assert outs[0] == [0, 1] && outs[1] == [2] && outs[2] == [3] && outs[3] == [];
    assert outs[0][0] == 0 && outs[0][1] == 1 && outs[1][0] == 2 && outs[2][0] == 3;
  }

  lemma DiamondShares()
    ensures OutLinks(Diamond(), DiamondOuts()) && SharedLast(Diamond(), DiamondOuts())
  {
    DiamondLinks();
    var g, outs := Diamond(), DiamondOuts();
    forall n | 0 <= n < |outs|
      ensures |outs[n]| <= (if n == 0 then 2 else 1)
    {
      assert outs[1] == [2] && outs[2] == [3] && outs[3] == [];
    }
    assert outs[0][0] == 0 && g.dst[0] == 1 && g.dst[1] == 2 && g.dst[2] == 3 && g.dst[3] == 3;
  }

  lemma DiamondIsLevelled()
    ensures Diamond().Ok() && Levelled(Diamond(), [0, 1, 1, 2])
  {
    var g := Diamond();
    assert g.dst[0] == 1 && g.dst[1] == 2 && g.dst[2] == 3;
    forall v: nat | InputFree(g, v)
      ensures v == 0
    {
      assert g.dst[0] != v && g.dst[1] != v && g.dst[2] != v;
    }
  }

  lemma DiamondIsRefused()
    ensures InputFree(Diamond(), 0) && !UniquePaths(Diamond(), 0)
  {
    var g, p, q := Diamond(), [0, 2], [1, 3];
    assert g.src[0] == 0 && g.src[1] == 0 && g.dst[0] == 1 && g.src[2] == 1 && g.dst[1] == 2 && g.src[3] == 2;
    assert IsPath(g, 0, p) && IsPath(g, 0, q) && SameEnds(g, 0, p, q);
    assert p[0] != q[0];
  }

  lemma DiamondIsReached()
    ensures Diamond().Ok() && AllReached(Diamond())
  {
    var g := Diamond();
    DiamondIsRefused();
    assert g.src[0] == 0 && g.src[1] == 0 && g.dst[0] == 1 && g.dst[1] == 2 && g.src[2] == 1 && g.dst[2] == 3;
    assert IsPath(g, 0, []) && End(g, 0, []) == 0;
    assert Reached(g, 0, 0);
    ReachedNext(g, 0, 0, 0);
    ReachedNext(g, 0, 0, 1);
    ReachedNext(g, 1, 1, 2);
    forall v | 0 <= v < g.size
      ensures ReachedSomehow(g, v)
    {
      assert v == 0 || v == 1 || v == 2 || v == 3;
    }
  }

  lemma DiamondLists(g: Graph, outs: seq<seq<nat>>, h: seq<int>)
    requires g == Diamond() && outs == DiamondOuts() && h == [0, 1, 1, 2]
    ensures LevelledLists(g, outs, h)
  {
    DiamondLinks();
    DiamondShares();
    DiamondIsLevelled();
  }

  lemma LevelledSorts(g: Graph, outs: seq<seq<nat>>, h: seq<int>)
    requires LevelledLists(g, outs, h)
    ensures forall list :: Schedule(list, g.size) && SortedBy(list, h) ==> SourcesFirst(g, list)
  {
    assert Key(0);
    EverySortRespects(g, h);
  }

  /** The diamond gets the answer no, and yet every sort of its orders puts all sources first. */
  lemma DiamondRespects(g: Graph, outs: seq<seq<nat>>, h: seq<int>)
    requires g == Diamond() && outs == DiamondOuts() && h == [0, 1, 1, 2]
    ensures OutLinks(g, outs) && InputFree(g, 0) && !UniquePaths(g, 0)
    ensures OrderRoots(g, outs, 0, seq(g.size, i => 0)).1 == h
    ensures forall list :: Schedule(list, g.size) && SortedBy(list, h) ==> SourcesFirst(g, list)
  {
    DiamondIsRefused();
    DiamondIsReached();
    DiamondLists(g, outs, h);
    OrdersAreLevels(g, outs, seq(g.size, i => 0), h);
    LevelledSorts(g, outs, h);
  }
}
