/**
 The object list and the cascading release of rsObjectBase.cpp and rsObjectBase.h,
 on the RS thread: two counters per object, the intrusive doubly linked list of the
 context, destructors that release the handles of the object they destroy, and the
 teardown loop that restarts from the head after every deletion.

 Memory is explicit: a pointer is a number, 0 is nullptr, and `mem` maps the pointers
 that may be dereferenced to the objects there. Deleting takes the pointer out of
 `mem`, so that every dereference in a verified method is of a live object.
 */
module ObjectList {
  import opened Common

  type Ptr = nat
  const NULL: Ptr := 0

  /** ObjectBase; `handles` are the ObjectBaseRef members that the object owns. */
  datatype Obj = Obj(user: int, sys: int, prev: Ptr, next: Ptr, handles: seq<Ptr>)

  type Memory = map<Ptr, Obj>

  // --------------------------------------------------- Who keeps whom alive

  ghost function SetOf(list: seq<Ptr>): set<Ptr> {
    set p | p in list
  }

  /** Object p has a handle to o. */
  ghost predicate Owns(mem: Memory, p: Ptr, o: Ptr) {
    p in mem && o in mem[p].handles
  }

  function HandlesTo(mem: Memory, p: Ptr, o: Ptr): nat {
    if p in mem then multiset(mem[p].handles)[o] else 0
  }

  /** How many handles of the listed objects refer to o. */
  ghost function Held(list: seq<Ptr>, mem: Memory, o: Ptr): nat {
    if |list| == 0 then 0 else HandlesTo(mem, list[0], o) + Held(list[1..], mem, o)
  }

  lemma {:induction false} HeldSplit(a: seq<Ptr>, b: seq<Ptr>, mem: Memory, o: Ptr)
    ensures Held(a + b, mem, o) == Held(a, mem, o) + Held(b, mem, o)
  {
    if |a| == 0 {
      assert a + b == b;
    } else {
      assert (a + b)[1..] == a[1..] + b;
      HeldSplit(a[1..], b, mem, o);
    }
  }

  /** Taking an object off the list takes exactly its own handles out of the count. */
  lemma HeldWithout(list: seq<Ptr>, i: nat, mem: Memory, o: Ptr)
    requires i < |list|
    ensures Held(list, mem, o) == Held(Without(list, i), mem, o) + HandlesTo(mem, list[i], o)
  {
    var tail := list[i..];
    assert list == list[..i] + tail && tail[1..] == list[i + 1..];
    HeldSplit(list[..i], tail, mem, o);
    HeldSplit(list[..i], list[i + 1..], mem, o);
  }

  lemma {:induction false} HeldMember(list: seq<Ptr>, mem: Memory, p: Ptr, o: Ptr)
    requires p in list && Owns(mem, p, o)
    ensures Held(list, mem, o) > 0
  {
    if p != list[0] {
      HeldMember(list[1..], mem, p, o);
    }
  }

  lemma {:induction false} HeldOwner(list: seq<Ptr>, mem: Memory, o: Ptr) returns (p: Ptr)
    requires Held(list, mem, o) > 0
    ensures p in list && Owns(mem, p, o)
  {
    if Owns(mem, list[0], o) {
      p := list[0];
    } else {
      p := HeldOwner(list[1..], mem, o);
    }
  }

  /** The count depends only on the handles of the listed objects. */
  lemma {:induction false} HeldAgree(list: seq<Ptr>, mem: Memory, mem': Memory, o: Ptr)
    requires forall p :: p in list ==> HandlesTo(mem, p, o) == HandlesTo(mem', p, o)
    ensures Held(list, mem, o) == Held(list, mem', o)
  {
    if |list| > 0 {
      HeldAgree(list[1..], mem, mem', o);
    }
  }

  /** One more handle of a listed object to o is one more reference to o. */
  lemma {:induction false} HeldOneMore(list: seq<Ptr>, mem: Memory, mem': Memory, p: Ptr, o: Ptr, x: Ptr)
    requires p in list && NoRepeats(list)
    requires forall q :: q in list ==>
      HandlesTo(mem', q, x) == HandlesTo(mem, q, x) + if q == p && x == o then 1 else 0
    ensures Held(list, mem', x) == Held(list, mem, x) + if x == o then 1 else 0
  {
    WithoutMembers(list, 0);
    assert Without(list, 0) == list[1..];
    if p == list[0] {
      HeldAgree(list[1..], mem, mem', x);
    } else {
      HeldOneMore(list[1..], mem, mem', p, o, x);
    }
  }

  /** Something outside the list, or a handle of a member of s, refers to o. */
  ghost predicate Referenced(o: Ptr, s: set<Ptr>, ext: multiset<Ptr>, mem: Memory) {
    o in ext || exists p :: p in s && Owns(mem, p, o)
  }

  /** Every member of s is kept alive by ext or by another member of s. */
  ghost predicate Supported(s: set<Ptr>, ext: multiset<Ptr>, mem: Memory) {
    forall o :: o in s ==> Referenced(o, s, ext, mem)
  }

  /** The part of s that keeps itself alive: drop what nothing refers to, again and again. */
  ghost function Core(s: set<Ptr>, ext: multiset<Ptr>, mem: Memory): set<Ptr>
    decreases s
  {
    var t := set o | o in s && Referenced(o, s, ext, mem);
    if t == s then s else Core(t, ext, mem)
  }

  /** Core is the greatest supported subset: it is supported, and it holds every supported subset. */
  lemma {:induction false} CoreIsGreatest(s: set<Ptr>, ext: multiset<Ptr>, mem: Memory, k: set<Ptr>)
    ensures Core(s, ext, mem) <= s && Supported(Core(s, ext, mem), ext, mem)
    ensures k <= s && Supported(k, ext, mem) ==> k <= Core(s, ext, mem)
    decreases s
  {
    var t := set o | o in s && Referenced(o, s, ext, mem);
    if t != s {
      if k <= s && Supported(k, ext, mem) {
        forall o | o in k
          ensures o in t
        {
          assert Referenced(o, k, ext, mem);
        }
      }
      CoreIsGreatest(t, ext, mem, k);
    }
  }

  /** rank proves that ownership among s has no cycle: owners rank above what they own. */
  ghost predicate Ranked(s: set<Ptr>, mem: Memory, rank: map<Ptr, nat>) {
    s <= rank.Keys && forall p, o :: p in s && o in s && Owns(mem, p, o) ==> rank[o] < rank[p]
  }

  lemma {:induction false} HighestRank(s: set<Ptr>, rank: map<Ptr, nat>) returns (top: Ptr)
    requires s != {} && s <= rank.Keys
    ensures top in s && forall o :: o in s ==> rank[o] <= rank[top]
    decreases s
  {
    var first :| first in s;
    top := first;
    var rest := s - {first};
    if rest != {} {
      var top2 := HighestRank(rest, rank);
      if rank[first] < rank[top2] {
        top := top2;
      }
    }
    assert forall o :: o in s ==> o == first || o in rest;
  }

  /** A nonempty supported set without outside references has an ownership cycle. */
  lemma RankedHasNoCore(s: set<Ptr>, mem: Memory, rank: map<Ptr, nat>)
    requires Ranked(s, mem, rank)
    ensures Core(s, multiset{}, mem) == {}
  {
    var c := Core(s, multiset{}, mem);
    CoreIsGreatest(s, multiset{}, mem, {});
    if c != {} {
      var top := HighestRank(c, rank);
      assert false;
    }
  }

  /** Conversely, the rounds in which an empty Core drops the objects rank them. */
  lemma {:induction false} NoCoreIsRanked(s: set<Ptr>, mem: Memory) returns (rank: map<Ptr, nat>, top: nat)
    requires Core(s, multiset{}, mem) == {}
    ensures Ranked(s, mem, rank) && rank.Keys == s
    ensures forall o :: o in s ==> rank[o] <= top
    decreases s
  {
    var t := set o | o in s && Referenced(o, s, multiset{}, mem);
    if t == s {
      rank, top := map[], 0;
    } else {
      rank, top := NoCoreIsRanked(t, mem);
      var dropped := s - t;
      rank := rank + map o | o in dropped :: top + 1;
      top := top + 1;
      forall p, o | p in s && o in s && Owns(mem, p, o)
        ensures rank[o] < rank[p]
      {
        assert Referenced(o, s, multiset{}, mem);
      }
    }
  }

  /** Teardown without outside references leaves nothing exactly when ownership has no cycle. */
  lemma CoreEmptyIffAcyclic(s: set<Ptr>, mem: Memory)
    ensures Core(s, multiset{}, mem) == {} <==> exists rank :: Ranked(s, mem, rank)
  {
    if Core(s, multiset{}, mem) == {} {
      var rank, top := NoCoreIsRanked(s, mem);
    }
    if rank :| Ranked(s, mem, rank) {
      RankedHasNoCore(s, mem, rank);
    }
  }

  // ------------------------------------------------------- The list invariant

  /** Positions i and i + 1 of the list point at each other. */
  ghost predicate Adjacent(list: seq<Ptr>, mem: Memory, i: int)
    requires 0 <= i < |list| - 1 && list[i] in mem && list[i + 1] in mem
  {
    mem[list[i]].next == list[i + 1] && mem[list[i + 1]].prev == list[i]
  }

  /** The list that starts at head is well formed in both directions. */
  ghost predicate Linked(head: Ptr, list: seq<Ptr>, mem: Memory) {
    && head == (if |list| == 0 then NULL else list[0])
    && (forall i :: 0 <= i < |list| ==> list[i] != NULL && list[i] in mem)
    && NoRepeats(list)
    && (forall i :: 0 <= i < |list| - 1 ==> Adjacent(list, mem, i))
    && (|list| > 0 ==> mem[list[0]].prev == NULL && mem[list[|list| - 1]].next == NULL)
  }

  /** A key for facts about one list, memory and set of outside references. */
  predicate Open(list: seq<Ptr>, mem: Memory, ext: multiset<Ptr>, k: int) {
    true
  }

  /** The system counter of every listed object counts the references to it. */
  ghost predicate Counted(list: seq<Ptr>, mem: Memory, ext: multiset<Ptr>) {
    forall k :: Open(list, mem, ext, k) ==>
      forall o :: o in list && o in mem ==> mem[o].user >= 0 && mem[o].sys == ext[o] + Held(list, mem, o)
  }

  /** References are to listed objects. */
  ghost predicate Closed(list: seq<Ptr>, mem: Memory, ext: multiset<Ptr>) {
    && (forall o :: o in ext ==> o in list)
    && forall k :: Open(list, mem, ext, k) ==> forall p, o :: p in list && Owns(mem, p, o) ==> o in list
  }

  lemma CountersNotNegative(list: seq<Ptr>, mem: Memory, ext: multiset<Ptr>, o: Ptr)
    requires Counted(list, mem, ext) && o in list && o in mem
    ensures mem[o].user >= 0 && mem[o].sys >= 0
  {
    assert Open(list, mem, ext, 0);
  }

  /** What a cascade may do: drop objects without user references, and touch nothing but counters and links. */
  ghost predicate Survive(list': seq<Ptr>, mem': Memory, list: seq<Ptr>, mem: Memory) {
    && (forall x :: x in list' ==> x in list)
    && (forall x :: x in list' && x in mem' && x in mem ==>
          mem'[x].user == mem[x].user && mem'[x].handles == mem[x].handles && mem'[x].sys <= mem[x].sys)
    && (forall x :: x in list && x in mem && x !in list' ==> mem[x].user == 0)
    && (forall q :: q in mem && q !in list ==> q in mem' && mem'[q] == mem[q])
    && |list'| <= |list|
  }

  /** Just o has left the list, and nothing has come into memory. */
  ghost predicate OneLess(list': seq<Ptr>, mem': Memory, list: seq<Ptr>, mem: Memory, o: Ptr) {
    && (forall x :: x in list && x != o ==> x in list')
    && (forall x :: x in mem' ==> x in mem)
  }

  /** The memory of what has left the list has been given back, and no other memory was taken. */
  ghost predicate GivenBack(list': seq<Ptr>, mem': Memory, list: seq<Ptr>, mem: Memory) {
    && (forall x :: x in mem' ==> x in mem)
    && (forall x :: x in list && x !in list' ==> x !in mem')
  }

  // ------------------------------------------------- What a cascade leaves behind

  /** Objects that no cascade from o deletes: users refer to them, or nothing does and they are not o. */
  ghost function Roots(list: seq<Ptr>, mem: Memory, o: Ptr): set<Ptr> {
    set x | x in list && x in mem && (mem[x].user > 0 || (mem[x].sys == 0 && x != o))
  }

  /** The objects kept alive by users, by outside references, by idle objects, or by each other. */
  ghost function Alive(list: seq<Ptr>, mem: Memory, ext: multiset<Ptr>, o: Ptr): set<Ptr> {
    Core(SetOf(list), ext + multiset(Roots(list, mem, o)), mem)
  }

  /** Users, the outside, a member of s, or nothing at all but not after a release, refers to x. */
  ghost predicate KeptAlive(x: Ptr, s: set<Ptr>, mem: Memory, ext: multiset<Ptr>, o: Ptr) {
    && x in mem
    && (mem[x].user > 0 || x in ext || (mem[x].sys == 0 && x != o) || exists p :: p in s && Owns(mem, p, x))
  }

  /** What is alive is kept alive, and holds every set of listed objects that are. */
  lemma AliveIsGreatest(list: seq<Ptr>, mem: Memory, ext: multiset<Ptr>, o: Ptr, k: set<Ptr>)
    requires forall x :: x in list ==> x in mem
    ensures var s := Alive(list, mem, ext, o); s <= SetOf(list) && forall x :: x in s ==> KeptAlive(x, s, mem, ext, o)
    ensures k <= SetOf(list) && (forall x :: x in k ==> KeptAlive(x, k, mem, ext, o)) ==> k <= Alive(list, mem, ext, o)
  {
    var roots, s := Roots(list, mem, o), Alive(list, mem, ext, o);
    CoreIsGreatest(SetOf(list), ext + multiset(roots), mem, k);
    forall x | x in s
      ensures KeptAlive(x, s, mem, ext, o)
    {
      assert Referenced(x, s, ext + multiset(roots), mem);
    }
    if k <= SetOf(list) && forall x :: x in k ==> KeptAlive(x, k, mem, ext, o) {
      forall x | x in k
        ensures Referenced(x, k, ext + multiset(roots), mem)
      {
        assert KeptAlive(x, k, mem, ext, o);
      }
    }
  }

  /** A key for facts about one list, memory and set of roots. */
  predicate Rooting(list: seq<Ptr>, mem: Memory, roots: set<Ptr>, k: int) {
    true
  }

  /** The roots are all objects with users, and some that nothing refers to. */
  ghost predicate Rooted(list: seq<Ptr>, mem: Memory, roots: set<Ptr>) {
    forall k :: Rooting(list, mem, roots, k) ==>
      && roots <= SetOf(list)
      && forall x :: x in list && x in mem ==>
           (mem[x].user > 0 ==> x in roots) && (x in roots ==> mem[x].user > 0 || mem[x].sys == 0)
  }

  /** Nothing but the roots, and perhaps o, is without references. */
  ghost predicate LiveBut(list: seq<Ptr>, mem: Memory, roots: set<Ptr>, o: Ptr) {
    forall k :: Rooting(list, mem, roots, k) ==>
      forall x :: x in list && x in mem && x != o ==> x in roots || mem[x].sys > 0
  }

  ghost predicate Live(list: seq<Ptr>, mem: Memory, roots: set<Ptr>) {
    forall k :: Rooting(list, mem, roots, k) ==> forall x :: x in list && x in mem ==> x in roots || mem[x].sys > 0
  }

  /** The members of keep are roots, or kept alive from outside or by each other. */
  ghost predicate Firm(list: seq<Ptr>, mem: Memory, ext: multiset<Ptr>, keep: set<Ptr>, roots: set<Ptr>) {
    roots <= keep <= SetOf(list) && Supported(keep, ext + multiset(roots), mem)
  }

  lemma RootsAreRooted(list: seq<Ptr>, mem: Memory, ext: multiset<Ptr>, o: Ptr)
    requires Counted(list, mem, ext) && o in list && forall x :: x in list ==> x in mem
    ensures Rooted(list, mem, Roots(list, mem, o)) && LiveBut(list, mem, Roots(list, mem, o), o)
    ensures Firm(list, mem, ext, Alive(list, mem, ext, o), Roots(list, mem, o))
    ensures o in Roots(list, mem, o) <==> mem[o].user > 0
  {
    assert Open(list, mem, ext, 0);
    var roots := Roots(list, mem, o);
    CoreIsGreatest(SetOf(list), ext + multiset(roots), mem, roots);
    assert forall x :: x in roots ==> Referenced(x, roots, ext + multiset(roots), mem);
  }

  /** When the cascade is over, what is left is what was to be kept alive. */
  lemma LeftIsAlive(list: seq<Ptr>, mem: Memory, ext: multiset<Ptr>, list0: seq<Ptr>, mem0: Memory, o: Ptr)
    requires Counted(list, mem, ext) && Survive(list, mem, list0, mem0)
    requires (forall x :: x in list ==> x in mem) && forall x :: x in list0 ==> x in mem0
    requires Live(list, mem, Roots(list0, mem0, o)) && Alive(list0, mem0, ext, o) <= SetOf(list)
    ensures SetOf(list) == Alive(list0, mem0, ext, o)
  {
    var roots := Roots(list0, mem0, o);
    assert Open(list, mem, ext, 0) && Rooting(list, mem, roots, 0);
    forall x | x in SetOf(list)
      ensures Referenced(x, SetOf(list), ext + multiset(roots), mem0)
    {
      if x !in roots && x !in ext {
        var p := HeldOwner(list, mem, x);
        assert Owns(mem0, p, x);
      }
    }
    CoreIsGreatest(SetOf(list0), ext + multiset(roots), mem0, SetOf(list));
  }

  lemma SupportedAgree(s: set<Ptr>, ext: multiset<Ptr>, mem: Memory, mem': Memory)
    requires Supported(s, ext, mem)
    requires forall p :: p in s ==> p in mem && p in mem' && mem[p].handles == mem'[p].handles
    ensures Supported(s, ext, mem')
  {
    forall o | o in s
      ensures Referenced(o, s, ext, mem')
    {
      assert Referenced(o, s, ext, mem);
      if o !in ext {
        var p :| p in s && Owns(mem, p, o);
        assert Owns(mem', p, o);
      }
    }
  }

  lemma SupportedMore(s: set<Ptr>, ext: multiset<Ptr>, more: multiset<Ptr>, mem: Memory)
    requires Supported(s, ext, mem) && forall o :: o in ext ==> o in more
    ensures Supported(s, more, mem)
  {
    forall o | o in s
      ensures Referenced(o, s, more, mem)
    {
      assert Referenced(o, s, ext, mem);
    }
  }

  // ---------------------------------------------- Single steps on the memory

  /** Two memories agree on the links of every listed object. */
  ghost predicate SameLinks(list: seq<Ptr>, mem: Memory, mem': Memory) {
    forall o :: o in list ==> o in mem && o in mem' && mem[o].prev == mem'[o].prev && mem[o].next == mem'[o].next
  }

  ghost predicate SameHandles(list: seq<Ptr>, mem: Memory, mem': Memory) {
    forall o :: o in list ==> o in mem && o in mem' && mem[o].handles == mem'[o].handles
  }

  lemma LinkedAgree(head: Ptr, list: seq<Ptr>, mem: Memory, mem': Memory)
    requires Linked(head, list, mem) && SameLinks(list, mem, mem')
    ensures Linked(head, list, mem')
  {
    forall i | 0 <= i < |list| - 1
      ensures Adjacent(list, mem', i)
    {
      assert Adjacent(list, mem, i) && list[i] in list && list[i + 1] in list;
    }
  }

  lemma ClosedAgree(list: seq<Ptr>, mem: Memory, mem': Memory, ext: multiset<Ptr>)
    requires Closed(list, mem, ext) && SameHandles(list, mem, mem')
    ensures Closed(list, mem', ext)
  {
    assert Open(list, mem, ext, 0);
    forall p, o | p in list && Owns(mem', p, o)
      ensures o in list
    {
      assert Owns(mem, p, o);
    }
  }

  /** The counters of o become `user` and `sys`. */
  function Recounted(mem: Memory, o: Ptr, user: int, sys: int): Memory
    requires o in mem
  {
    mem[o := mem[o].(user := user, sys := sys)]
  }

  /** A change of counters that matches the outside references keeps the whole invariant. */
  lemma RecountedIsValid(head: Ptr, list: seq<Ptr>, mem: Memory, ext: multiset<Ptr>, o: Ptr, user: int, sys: int,
                         ext': multiset<Ptr>)
    requires Linked(head, list, mem) && Counted(list, mem, ext) && Closed(list, mem, ext) && o in list && o in mem
    requires user >= 0 && sys + ext[o] == mem[o].sys + ext'[o]
    requires forall x :: x != o ==> ext'[x] == ext[x]
    ensures var mem' := Recounted(mem, o, user, sys);
      Linked(head, list, mem') && Counted(list, mem', ext') && Closed(list, mem', ext')
  {
    var mem' := Recounted(mem, o, user, sys);
    RecountedIsCounted(list, mem, ext, o, user, sys, ext');
    LinkedAgree(head, list, mem, mem');
    ClosedAgree(list, mem, mem', ext);
    ClosedSameList(list, mem', ext, ext');
  }

  lemma RecountedIsCounted(list: seq<Ptr>, mem: Memory, ext: multiset<Ptr>, o: Ptr, user: int, sys: int,
                           ext': multiset<Ptr>)
    requires Counted(list, mem, ext) && o in list && o in mem
    requires user >= 0 && sys + ext[o] == mem[o].sys + ext'[o] && forall x :: x != o ==> ext'[x] == ext[x]
    ensures Counted(list, Recounted(mem, o, user, sys), ext')
  {
    assert Open(list, mem, ext, 0);
    var mem' := Recounted(mem, o, user, sys);
    forall x | x in list && x in mem'
      ensures mem'[x].user >= 0 && mem'[x].sys == ext'[x] + Held(list, mem', x)
    {
      HeldAgree(list, mem, mem', x);
    }
  }

  lemma ClosedSameList(list: seq<Ptr>, mem: Memory, ext: multiset<Ptr>, ext': multiset<Ptr>)
    requires Closed(list, mem, ext) && forall x :: x in ext' ==> x in list
    ensures Closed(list, mem, ext')
  {
    assert Open(list, mem, ext, 0);
  }

  /** incSysRef and a new outside reference go together. */
  lemma Acquired(head: Ptr, list: seq<Ptr>, mem: Memory, ext: multiset<Ptr>, o: Ptr)
    requires Linked(head, list, mem) && Counted(list, mem, ext) && Closed(list, mem, ext) && o in list && o in mem
    ensures var mem', ext' := Recounted(mem, o, mem[o].user, mem[o].sys + 1), ext + multiset{o};
      Linked(head, list, mem') && Counted(list, mem', ext') && Closed(list, mem', ext')
  {
    assert Open(list, mem, ext, 0);
    RecountedIsValid(head, list, mem, ext, o, mem[o].user, mem[o].sys + 1, ext + multiset{o});
  }

  /** So do the decrement and the end of an outside reference; whatever is supported without it still is. */
  lemma Released(head: Ptr, list: seq<Ptr>, mem: Memory, ext: multiset<Ptr>, o: Ptr)
    requires Linked(head, list, mem) && Counted(list, mem, ext) && Closed(list, mem, ext) && o in ext && o in mem
    ensures var mem', ext' := Recounted(mem, o, mem[o].user, mem[o].sys - 1), ext - multiset{o};
      && Linked(head, list, mem') && Counted(list, mem', ext') && Closed(list, mem', ext')
      && Survive(list, mem', list, mem) && mem[o].sys > 0
  {
    assert Open(list, mem, ext, 0);
    RecountedIsValid(head, list, mem, ext, o, mem[o].user, mem[o].sys - 1, ext - multiset{o});
  }

  /** After a reference to o has gone, only o may be without references. */
  lemma ReleasedLive(list: seq<Ptr>, mem: Memory, ext: multiset<Ptr>, o: Ptr, keep: set<Ptr>, roots: set<Ptr>)
    requires o in list && o in mem && mem[o].sys > 0 && forall x :: x in list ==> x in mem
    requires Rooted(list, mem, roots) && Live(list, mem, roots) && Firm(list, mem, ext, keep, roots)
    ensures var mem' := Recounted(mem, o, mem[o].user, mem[o].sys - 1);
      && Rooted(list, mem', roots) && LiveBut(list, mem', roots, o) && Firm(list, mem', ext, keep, roots)
      && (mem[o].sys > 1 || mem[o].user > 0 ==> Live(list, mem', roots)) && (o in roots <==> mem[o].user > 0)
  {
    assert Rooting(list, mem, roots, 0);
    SupportedAgree(keep, ext + multiset(roots), mem, Recounted(mem, o, mem[o].user, mem[o].sys - 1));
  }

  /** The memory after a new object o was put before the head. */
  function Pushed(mem: Memory, head: Ptr, o: Ptr): Memory
    requires o !in mem && (head != NULL ==> head in mem)
  {
    var m := mem[o := Obj(0, 0, NULL, head, [])];
    if head != NULL then m[head := m[head].(prev := o)] else m
  }

  lemma PushedIsLinked(head: Ptr, list: seq<Ptr>, mem: Memory, o: Ptr)
    requires Linked(head, list, mem) && o != NULL && o !in mem
    ensures Linked(o, [o] + list, Pushed(mem, head, o))
  {
    var l, mem' := [o] + list, Pushed(mem, head, o);
    forall i, j | 0 <= i < j < |l|
      ensures l[i] != l[j]
    {
      if i > 0 {
        assert list[i - 1] != list[j - 1];
      }
    }
    forall i | 0 <= i < |l| - 1
      ensures Adjacent(l, mem', i)
    {
      if i > 0 {
        assert Adjacent(list, mem, i - 1);
        assert list[0] != list[i];
        assert i == 1 || list[0] != list[i - 1];
      }
    }
    if |list| > 1 {
      assert list[0] != list[|list| - 1];
    }
  }

  lemma PushedIsCounted(head: Ptr, list: seq<Ptr>, mem: Memory, ext: multiset<Ptr>, o: Ptr)
    requires Linked(head, list, mem) && Counted(list, mem, ext) && Closed(list, mem, ext) && o !in mem
    ensures Counted([o] + list, Pushed(mem, head, o), ext) && Closed([o] + list, Pushed(mem, head, o), ext)
  {
    assert Open(list, mem, ext, 0);
    var l, mem' := [o] + list, Pushed(mem, head, o);
    assert l[1..] == list && o !in list;
    forall x | x in l
      ensures mem'[x].user >= 0 && mem'[x].sys == ext[x] + Held(l, mem', x)
    {
      HeldAgree(list, mem, mem', x);
      if Held(list, mem, x) > 0 {
        var p := HeldOwner(list, mem, x);
      }
    }
    forall p, x | p in l && Owns(mem', p, x)
      ensures x in l
    {
      assert p in list && Owns(mem, p, x);
    }
  }

  /** The memory after p got a handle to o. */
  function Handed(mem: Memory, p: Ptr, o: Ptr): Memory
    requires p in mem && o in mem
  {
    var m := mem[p := mem[p].(handles := mem[p].handles + [o])];
    m[o := m[o].(sys := m[o].sys + 1)]
  }

  lemma HandedIsCounted(list: seq<Ptr>, mem: Memory, ext: multiset<Ptr>, p: Ptr, o: Ptr)
    requires NoRepeats(list) && Counted(list, mem, ext) && Closed(list, mem, ext)
    requires p in list && o in list && p in mem && o in mem
    ensures Counted(list, Handed(mem, p, o), ext) && Closed(list, Handed(mem, p, o), ext)
  {
    assert Open(list, mem, ext, 0);
    var mem' := Handed(mem, p, o);
    assert multiset(mem'[p].handles) == multiset(mem[p].handles) + multiset{o};
    forall x | x in list && x in mem'
      ensures mem'[x].user >= 0 && mem'[x].sys == ext[x] + Held(list, mem', x)
    {
      HeldOneMore(list, mem, mem', p, o, x);
    }
    HandedIsClosed(list, mem, ext, p, o);
  }

  lemma HandedIsClosed(list: seq<Ptr>, mem: Memory, ext: multiset<Ptr>, p: Ptr, o: Ptr)
    requires Closed(list, mem, ext) && p in list && o in list && p in mem && o in mem
    ensures Closed(list, Handed(mem, p, o), ext)
  {
    assert Open(list, mem, ext, 0);
    forall q, x | q in list && Owns(Handed(mem, p, o), q, x)
      ensures x in list
    {
      assert Owns(mem, q, x) || x == o;
    }
  }

  /** The memory after ObjectBase::remove took o out from between its neighbours. */
  function Unlinked(mem: Memory, o: Ptr): Memory
    requires o in mem && (mem[o].prev != NULL ==> mem[o].prev in mem) && (mem[o].next != NULL ==> mem[o].next in mem)
  {
    var p, n := mem[o].prev, mem[o].next;
    var m1 := if p != NULL then mem[p := mem[p].(next := n)] else mem;
    var m2 := if n != NULL then m1[n := m1[n].(prev := p)] else m1;
    m2[o := m2[o].(prev := NULL, next := NULL)]
  }

  lemma Neighbours(head: Ptr, list: seq<Ptr>, mem: Memory, i: nat)
    requires Linked(head, list, mem) && i < |list|
    ensures mem[list[i]].prev == (if i == 0 then NULL else list[i - 1])
    ensures mem[list[i]].next == (if i == |list| - 1 then NULL else list[i + 1])
  {
    assert i > 0 ==> Adjacent(list, mem, i - 1);
    assert i + 1 < |list| ==> Adjacent(list, mem, i);
  }

  /** After o is taken out, the neighbours of any other object are its neighbours in the shorter list. */
  lemma UnlinkedNeighbours(head: Ptr, list: seq<Ptr>, mem: Memory, i: nat, a: nat)
    requires Linked(head, list, mem) && i < |list| && a < |list| - 1
    ensures var o, l := list[i], Without(list, i);
      && o in mem && (mem[o].prev != NULL ==> mem[o].prev in mem) && (mem[o].next != NULL ==> mem[o].next in mem)
      && l[a] != NULL && l[a] in Unlinked(mem, o)
      && Unlinked(mem, o)[l[a]].prev == (if a == 0 then NULL else l[a - 1])
      && Unlinked(mem, o)[l[a]].next == (if a == |l| - 1 then NULL else l[a + 1])
  {
    var b := if a < i then a else a + 1;
    Neighbours(head, list, mem, i);
    Neighbours(head, list, mem, b);
    assert Without(list, i)[a] == list[b];
    assert if b < i then list[b] != list[i] else list[i] != list[b];
    assert b < i - 1 ==> list[b] != list[i - 1];
    assert i + 1 < b ==> list[i + 1] != list[b];
    assert b < i && i + 1 < |list| ==> list[b] != list[i + 1];
    assert i < b && i > 0 ==> list[i - 1] != list[b];
  }

  lemma UnlinkedAdjacent(head: Ptr, list: seq<Ptr>, mem: Memory, i: nat, a: nat)
    requires Linked(head, list, mem) && i < |list| && a < |list| - 2
    ensures (mem[list[i]].prev != NULL ==> mem[list[i]].prev in mem)
      && (mem[list[i]].next != NULL ==> mem[list[i]].next in mem)
      && Adjacent(Without(list, i), Unlinked(mem, list[i]), a)
  {
    Neighbours(head, list, mem, i);
    UnlinkedNeighbours(head, list, mem, i, a);
    UnlinkedNeighbours(head, list, mem, i, a + 1);
  }

  lemma UnlinkedIsLinked(head: Ptr, list: seq<Ptr>, mem: Memory, i: nat)
    requires Linked(head, list, mem) && i < |list|
    ensures var o := list[i];
      && (mem[o].prev != NULL ==> mem[o].prev in mem) && (mem[o].next != NULL ==> mem[o].next in mem)
      && Linked(if head == o then mem[o].next else head, Without(list, i), Unlinked(mem, o))
  {
    Neighbours(head, list, mem, i);
    WithoutMembers(list, i);
    if i > 0 {
      assert list[0] != list[i];
    }
    var l, mem' := Without(list, i), Unlinked(mem, list[i]);
    if |l| > 0 {
      UnlinkedNeighbours(head, list, mem, i, 0);
      UnlinkedNeighbours(head, list, mem, i, |l| - 1);
    }
    forall a | 0 <= a < |l| - 1
      ensures Adjacent(l, mem', a)
    {
      UnlinkedAdjacent(head, list, mem, i, a);
    }
  }

  /** An object that nothing refers to leaves the list; its handles become outside references. */
  lemma UnlinkedIsCounted(head: Ptr, list: seq<Ptr>, mem: Memory, ext: multiset<Ptr>, i: nat, mem': Memory)
    requires Linked(head, list, mem) && Counted(list, mem, ext) && Closed(list, mem, ext)
    requires i < |list| && mem[list[i]].sys == 0 && SameHandles(list, mem, mem')
    requires forall x :: x in list ==> mem'[x].user == mem[x].user && mem'[x].sys == mem[x].sys
    ensures var l, ext' := Without(list, i), ext + multiset(mem[list[i]].handles);
      Counted(l, mem', ext') && Closed(l, mem', ext')
  {
    assert Open(list, mem, ext, 0);
    var o, l := list[i], Without(list, i);
    var ext' := ext + multiset(mem[o].handles);
    WithoutMembers(list, i);
    forall x | x in l && x in mem'
      ensures mem'[x].user >= 0 && mem'[x].sys == ext'[x] + Held(l, mem', x)
    {
      HeldWithout(list, i, mem, x);
      HeldAgree(l, mem, mem', x);
    }
    UnlinkedIsClosed(list, mem, ext, i, mem');
  }

  lemma UnlinkedIsClosed(list: seq<Ptr>, mem: Memory, ext: multiset<Ptr>, i: nat, mem': Memory)
    requires NoRepeats(list) && Counted(list, mem, ext) && Closed(list, mem, ext)
    requires i < |list| && list[i] in mem && mem[list[i]].sys == 0 && SameHandles(list, mem, mem')
    ensures Closed(Without(list, i), mem', ext + multiset(mem[list[i]].handles))
  {
    assert Open(list, mem, ext, 0);
    var o, l := list[i], Without(list, i);
    WithoutMembers(list, i);
    assert o in list && ext[o] == 0 && Held(list, mem, o) == 0;
    assert forall x :: x in ext ==> x in l;
    forall p, x | p in list && Owns(mem, p, x)
      ensures x in l
    {
      OwnedRemain(list, mem, ext, i, p, x);
    }
    ClosedWithout(list, l, mem, ext, o, mem');
  }

  /** When everything owned or referenced is in l, the handles of o may become outside references. */
  lemma ClosedWithout(list: seq<Ptr>, l: seq<Ptr>, mem: Memory, ext: multiset<Ptr>, o: Ptr, mem': Memory)
    requires o in list && o in mem && SameHandles(list, mem, mem') && forall p :: p in l ==> p in list
    requires (forall x :: x in ext ==> x in l) && forall p, x :: p in list && Owns(mem, p, x) ==> x in l
    ensures Closed(l, mem', ext + multiset(mem[o].handles))
  {
    OwnersAgree(list, l, mem, mem');
    assert forall x :: x in mem[o].handles ==> Owns(mem, o, x);
  }

  /** What a listed object owns is not the object at i, to which there is no reference. */
  lemma OwnedRemain(list: seq<Ptr>, mem: Memory, ext: multiset<Ptr>, i: nat, p: Ptr, x: Ptr)
    requires NoRepeats(list) && Closed(list, mem, ext) && i < |list| && Held(list, mem, list[i]) == 0
    requires p in list && Owns(mem, p, x)
    ensures x in Without(list, i)
  {
    assert Open(list, mem, ext, 0);
    WithoutMembers(list, i);
    if x == list[i] {
      HeldMember(list, mem, p, x);
    }
  }

  lemma OwnersAgree(list: seq<Ptr>, l: seq<Ptr>, mem: Memory, mem': Memory)
    requires SameHandles(list, mem, mem') && forall p :: p in l ==> p in list
    ensures forall p, x :: p in l && Owns(mem', p, x) ==> Owns(mem, p, x)
  {
  }

  /** An object with references, from outside or from members of a supported set, is not at zero. */
  lemma SupportedIsCounted(list: seq<Ptr>, mem: Memory, ext: multiset<Ptr>, keep: set<Ptr>, roots: set<Ptr>, o: Ptr)
    requires Counted(list, mem, ext) && Firm(list, mem, ext, keep, roots) && o in keep && o !in roots && o in mem
    ensures mem[o].sys > 0
  {
    assert Open(list, mem, ext, 0);
    assert Referenced(o, keep, ext + multiset(roots), mem);
    if o !in ext {
      var p :| p in keep && Owns(mem, p, o);
      HeldMember(list, mem, p, o);
    }
  }

  /** First o is unlinked, then its destructor runs, then it is gone. */
  lemma SurviveDelete(l2: seq<Ptr>, m2: Memory, l1: seq<Ptr>, m1: Memory, o: Ptr, l0: seq<Ptr>, m0: Memory)
    requires Survive(l1, m1, l0, m0) && Survive(l2, m2, l1, m1 - {o}) && o in l0 && o !in l1
    requires forall x :: x in l0 ==> x in m0
    requires forall x :: x in l1 ==> x in m1
    ensures Survive(l2, m2, l0, m0)
  {
  }

  lemma SurviveTwice(l2: seq<Ptr>, m2: Memory, l1: seq<Ptr>, m1: Memory, l0: seq<Ptr>, m0: Memory)
    requires Survive(l1, m1, l0, m0) && Survive(l2, m2, l1, m1)
    requires forall x :: x in l0 ==> x in m0
    requires forall x :: x in l1 ==> x in m1
    ensures Survive(l2, m2, l0, m0)
  {
  }

  lemma UnlinkedKeeps(mem: Memory, o: Ptr, x: Ptr)
    requires o in mem && (mem[o].prev != NULL ==> mem[o].prev in mem) && (mem[o].next != NULL ==> mem[o].next in mem)
    requires x in mem
    ensures x in Unlinked(mem, o)
    ensures Unlinked(mem, o)[x] == mem[x].(prev := Unlinked(mem, o)[x].prev, next := Unlinked(mem, o)[x].next)
    ensures x != o && x != mem[o].prev && x != mem[o].next ==> Unlinked(mem, o)[x] == mem[x]
  {
  }

  /** Everything checkDelete relies on when it has unlinked an object with both counters at zero. */
  lemma DeleteStep(head: Ptr, list: seq<Ptr>, mem: Memory, ext: multiset<Ptr>, keep: set<Ptr>, roots: set<Ptr>,
                   i: nat, mem': Memory)
    requires Linked(head, list, mem) && Counted(list, mem, ext) && Closed(list, mem, ext)
    requires i < |list| && mem[list[i]].sys == 0 && mem[list[i]].user == 0
    requires Firm(list, mem, ext, keep, roots) && list[i] !in roots
    requires (mem[list[i]].prev != NULL ==> mem[list[i]].prev in mem)
    requires (mem[list[i]].next != NULL ==> mem[list[i]].next in mem) && mem' == Unlinked(mem, list[i])
    ensures var o, l := list[i], Without(list, i);
      && Counted(l, mem', ext + multiset(mem[o].handles)) && Closed(l, mem', ext + multiset(mem[o].handles))
      && Firm(l, mem', ext, keep, roots) && Survive(l, mem', list, mem)
      && o !in l && o in mem' && mem'[o].handles == mem[o].handles && (forall x :: x in l <==> x in list && x != o)
      && (forall x :: x in l ==> x in mem' && mem'[x].user == mem[x].user && mem'[x].sys == mem[x].sys)
      && OneLess(l, mem', list, mem, o)
  {
    var o, l := list[i], Without(list, i);
    forall x | x in mem
      ensures x in mem' && mem'[x] == mem[x].(prev := mem'[x].prev, next := mem'[x].next)
    {
      UnlinkedKeeps(mem, o, x);
    }
    Neighbours(head, list, mem, i);
    forall x | x in mem && x !in list
      ensures mem'[x] == mem[x]
    {
      UnlinkedKeeps(mem, o, x);
    }
    WithoutMembers(list, i);
    UnlinkedIsCounted(head, list, mem, ext, i, mem');
    if o in keep {
      SupportedIsCounted(list, mem, ext, keep, roots, o);
    }
    SupportedAgree(keep, ext + multiset(roots), mem, mem');
  }

  /** Without o, nothing but the roots is without references. */
  lemma DeleteLive(list: seq<Ptr>, l: seq<Ptr>, mem: Memory, mem': Memory, roots: set<Ptr>, o: Ptr)
    requires Rooted(list, mem, roots) && LiveBut(list, mem, roots, o) && o !in roots
    requires forall x :: x in l <==> x in list && x != o
    requires forall x :: x in l ==> x in mem && x in mem' && mem'[x].user == mem[x].user && mem'[x].sys == mem[x].sys
    ensures Rooted(l, mem', roots) && Live(l, mem', roots)
  {
    assert Rooting(list, mem, roots, 0);
  }

  lemma LastHandle(ext0: multiset<Ptr>, handles: seq<Ptr>, k: nat, ext: multiset<Ptr>)
    requires k < |handles| && ext == ext0 + multiset(handles[..k + 1])
    ensures handles[k] in ext && ext - multiset{handles[k]} == ext0 + multiset(handles[..k])
  {
    assert handles[..k + 1] == handles[..k] + [handles[k]];
  }

  // ------------------------------------------------------------- The context

  class Context {
    var head: Ptr
    var mem: Memory
    /** The list that starts at `head`. */
    ghost var list: seq<Ptr>
    /** System references held by something that is not a listed object. */
    ghost var ext: multiset<Ptr>

    ghost predicate Valid()
      reads this
    {
      Linked(head, list, mem) && Counted(list, mem, ext) && Closed(list, mem, ext)
    }

    constructor ()
      ensures Valid() && list == [] && ext == multiset{} && mem == map[]
    {
      head, mem, list, ext := NULL, map[], [], multiset{};
    }

    /** The ObjectBase constructor with add(): a new object at the head. */
    method Create(o: Ptr)
      requires Valid() && o != NULL && o !in mem
      modifies this
      ensures Valid() && list == [o] + old(list) && ext == old(ext)
      ensures o in mem && mem[o].user == 0 && mem[o].sys == 0 && mem[o].handles == []
      ensures forall x :: x in old(mem) ==>
        x in mem && mem[x] == old(mem)[x].(prev := if x == old(head) && x != NULL then o else old(mem)[x].prev)
    {
      PushedIsLinked(head, list, mem, o);
      PushedIsCounted(head, list, mem, ext, o);
      mem := mem[o := Obj(0, 0, NULL, head, [])];
      if head != NULL {
        mem := mem[head := mem[head].(prev := o)];
      }
      head := o;
      list := [o] + list;
    }

    method IncUserRef(o: Ptr)
      requires Valid() && o in list
      modifies this`mem
      ensures Valid() && mem == old(Recounted(mem, o, mem[o].user + 1, mem[o].sys))
    {
      var user, sys := mem[o].user + 1, mem[o].sys;
      CountersNotNegative(list, mem, ext, o);
      RecountedIsValid(head, list, mem, ext, o, user, sys, ext);
      mem := Recounted(mem, o, user, sys);
    }

    /** ObjectBaseRef::set for a reference held outside the listed objects: incSysRef. */
    method IncSysRef(o: Ptr)
      requires Valid() && o in list
      modifies this`mem, this`ext
      ensures Valid() && ext == old(ext) + multiset{o}
      ensures mem == old(Recounted(mem, o, mem[o].user, mem[o].sys + 1))
    {
      Acquired(head, list, mem, ext, o);
      mem := Recounted(mem, o, mem[o].user, mem[o].sys + 1);
      ext := ext + multiset{o};
    }

    /** ObjectBaseRef::set on a member of p: p now owns a reference to o. */
    method AddHandle(p: Ptr, o: Ptr)
      requires Valid() && p in list && o in list
      modifies this`mem
      ensures Valid() && mem == old(Handed(mem, p, o))
    {
      var m := Handed(mem, p, o);
      HandedIsCounted(list, mem, ext, p, o);
      LinkedAgree(head, list, mem, m);
      mem := m;
    }

    /** ObjectBase::remove: unlink o from its neighbours. */
    method Remove(o: Ptr, ghost i: nat)
      requires Linked(head, list, mem) && i < |list| && list[i] == o
      modifies this`head, this`mem, this`list
      ensures Linked(head, list, mem) && list == Without(old(list), i)
      ensures old(mem[o].prev != NULL ==> mem[o].prev in mem) && old(mem[o].next != NULL ==> mem[o].next in mem)
      ensures mem == Unlinked(old(mem), o)
    {
      UnlinkedIsLinked(head, list, mem, i);
      if head == o {
        head := mem[o].next;
      }
      var prev, next := mem[o].prev, mem[o].next;
      if prev != NULL {
        mem := mem[prev := mem[prev].(next := next)];
      }
      if next != NULL {
        mem := mem[next := mem[next].(prev := prev)];
      }
      mem := mem[o := mem[o].(prev := NULL, next := NULL)];
      list := Without(list, i);
    }

    /**
     ObjectBase::checkDelete: delete o if both counters are zero, and with it everything
     that only o kept alive. `keep` is any set of objects that roots, outside references
     and its own members keep alive.
     */
    method CheckDelete(o: Ptr, ghost keep: set<Ptr>, ghost roots: set<Ptr>) returns (deleted: bool)
      requires Valid() && o in list && Firm(list, mem, ext, keep, roots) && (o in roots <==> mem[o].user > 0)
      requires Rooted(list, mem, roots) && LiveBut(list, mem, roots, o)
      modifies this
      ensures Valid() && ext == old(ext) && Firm(list, mem, ext, keep, roots)
      ensures Rooted(list, mem, roots) && Live(list, mem, roots) && Survive(list, mem, old(list), old(mem))
      ensures deleted == (old(mem[o]).user == 0 && old(mem[o]).sys == 0) && GivenBack(list, mem, old(list), old(mem))
      ensures if deleted then o !in list && |list| < |old(list)| else list == old(list) && mem == old(mem)
      decreases |list|, 0
    {
      if mem[o].user != 0 || mem[o].sys != 0 {
        LiveAll(list, mem, ext, roots, o);
        return false;
      }
      TakeOff(o, keep, roots);
      ghost var l1, m1 := list, mem;
      Destroy(o, keep, roots, old(ext));
      SurviveDelete(list, mem, l1, m1, o, old(list), old(mem));
      deleted := true;
    }

    /** remove() for an object without references; its handles are now those of its destructor. */
    method TakeOff(o: Ptr, ghost keep: set<Ptr>, ghost roots: set<Ptr>)
      requires Valid() && o in list && mem[o].user == 0 && mem[o].sys == 0 && o !in roots
      requires Firm(list, mem, ext, keep, roots) && Rooted(list, mem, roots) && LiveBut(list, mem, roots, o)
      modifies this
      ensures Valid() && o !in list && o in mem && ext == old(ext) + multiset(mem[o].handles)
      ensures Firm(list, mem, old(ext), keep, roots) && Rooted(list, mem, roots) && Live(list, mem, roots)
      ensures Survive(list, mem, old(list), old(mem)) && |list| < |old(list)|
      ensures OneLess(list, mem, old(list), old(mem), o)
    {
      ghost var i :| 0 <= i < |list| && list[i] == o;
      Neighbours(head, list, mem, i);
      DeleteStep(head, list, mem, ext, keep, roots, i, Unlinked(mem, o));
      DeleteLive(list, Without(list, i), mem, Unlinked(mem, o), roots, o);
      Remove(o, i);
      ext := ext + multiset(mem[o].handles);
    }

    /** The destructor of an unlinked object: release every handle, then give the memory back. */
    method Destroy(o: Ptr, ghost keep: set<Ptr>, ghost roots: set<Ptr>, ghost ext0: multiset<Ptr>)
      requires Valid() && o in mem && o !in list && ext == ext0 + multiset(mem[o].handles)
      requires Firm(list, mem, ext0, keep, roots) && Rooted(list, mem, roots) && Live(list, mem, roots)
      modifies this
      ensures Valid() && ext == ext0 && Firm(list, mem, ext, keep, roots)
      ensures Rooted(list, mem, roots) && Live(list, mem, roots) && Survive(list, mem, old(list), old(mem) - {o})
      ensures o !in mem && GivenBack(list, mem, old(list), old(mem))
      decreases |list|, 2
    {
      var handles := mem[o].handles;
      var k := |handles|;
      assert handles[..k] == handles;
      while k > 0
        invariant 0 <= k <= |handles| && Valid() && o !in list
        invariant ext == ext0 + multiset(handles[..k])
        invariant Firm(list, mem, ext0, keep, roots) && Rooted(list, mem, roots) && Live(list, mem, roots)
        invariant Survive(list, mem, old(list), old(mem)) && GivenBack(list, mem, old(list), old(mem))
        decreases k
      {
        k := k - 1;
        ghost var l1, m1 := list, mem;
        LastHandle(ext0, handles, k, ext);
        SupportedMore(keep, ext0 + multiset(roots), ext - multiset{handles[k]} + multiset(roots), mem);
        var _ := DecSysRef(handles[k], keep, roots);
        SupportedAgree(keep, ext0 + multiset(roots), m1, mem);
        SurviveTwice(list, mem, l1, m1, old(list), old(mem));
      }
      assert handles[..0] == [];
      FreeUnlisted(head, list, mem, ext, o);
      FreedLive(list, mem, ext, keep, roots, o);
      mem := mem - {o};
    }

    /** ObjectBase::decSysRef. */
    method DecSysRef(o: Ptr, ghost keep: set<Ptr>, ghost roots: set<Ptr>) returns (deleted: bool)
      requires Valid() && o in ext && Firm(list, mem, ext - multiset{o}, keep, roots)
      requires Rooted(list, mem, roots) && Live(list, mem, roots)
      modifies this
      ensures Valid() && ext == old(ext) - multiset{o} && Firm(list, mem, ext, keep, roots)
      ensures Rooted(list, mem, roots) && Live(list, mem, roots) && Survive(list, mem, old(list), old(mem))
      ensures deleted == (old(mem[o]).user == 0 && old(mem[o]).sys == 1) && GivenBack(list, mem, old(list), old(mem))
      ensures if deleted then o !in list
              else list == old(list) && mem == old(Recounted(mem, o, mem[o].user, mem[o].sys - 1))
      decreases |list|, 1
    {
      Released(head, list, mem, ext, o);
      ReleasedLive(list, mem, ext - multiset{o}, o, keep, roots);
      var was := mem[o].sys;
      mem := Recounted(mem, o, mem[o].user, was - 1);
      ext := ext - multiset{o};
      ghost var m1 := mem;
      deleted := false;
      if was <= 1 && mem[o].user <= 0 {
        deleted := CheckDelete(o, keep, roots);
        SurviveTwice(list, mem, old(list), m1, old(list), old(mem));
      }
    }

    /** ObjectBaseRef::clear for a reference held outside: what is left is what is alive without it. */
    method Clear(o: Ptr) returns (deleted: bool)
      requires Valid() && o in ext
      modifies this
      ensures Valid() && ext == old(ext) - multiset{o} && GivenBack(list, mem, old(list), old(mem))
      ensures deleted == (old(mem[o]).user == 0 && old(mem[o]).sys == 1)
      ensures SetOf(list) == old(Alive(list, Recounted(mem, o, mem[o].user, mem[o].sys - 1), ext - multiset{o}, o))
      ensures Survive(list, mem, old(list), old(Recounted(mem, o, mem[o].user, mem[o].sys - 1)))
    {
      var was := Forget(o);
      deleted := DeleteIfUnused(o, was <= 1 && mem[o].user <= 0);
    }

    /** The decrement of a system counter. */
    method Forget(o: Ptr) returns (was: int)
      requires Valid() && o in ext
      modifies this`mem, this`ext
      ensures Valid() && ext == old(ext) - multiset{o} && o in list && was == old(mem[o]).sys > 0
      ensures mem == old(Recounted(mem, o, mem[o].user, mem[o].sys - 1))
    {
      Released(head, list, mem, ext, o);
      was := mem[o].sys;
      mem := Recounted(mem, o, mem[o].user, was - 1);
      ext := ext - multiset{o};
    }

    /** The call of checkDelete at the end of a release, which is made if o may have lost its last reference. */
    method DeleteIfUnused(o: Ptr, check: bool) returns (deleted: bool)
      requires Valid() && o in list && (check <==> mem[o].user <= 0 && mem[o].sys <= 0)
      modifies this
      ensures Valid() && ext == old(ext)
      ensures Survive(list, mem, old(list), old(mem)) && GivenBack(list, mem, old(list), old(mem))
      ensures deleted == check
      ensures if deleted then o !in list && |list| < |old(list)| else list == old(list) && mem == old(mem)
      ensures SetOf(list) == old(Alive(list, mem, ext, o))
    {
      ghost var l0, m0 := list, mem;
      CountersNotNegative(list, mem, ext, o);
      RootsAreRooted(list, mem, ext, o);
      deleted := false;
      if check {
        deleted := CheckDelete(o, Alive(list, mem, ext, o), Roots(list, mem, o));
      } else {
        LiveAll(list, mem, ext, Roots(list, mem, o), o);
      }
      LeftIsAlive(list, mem, ext, l0, m0, o);
    }

    /** A new value for the user counter. */
    method SetUser(o: Ptr, user: nat)
      requires Valid() && o in list
      modifies this`mem
      ensures Valid() && mem == old(Recounted(mem, o, user, mem[o].sys)) && mem[o].sys >= 0
    {
      Reset(head, list, mem, ext, o, user);
      mem := Recounted(mem, o, user, mem[o].sys);
    }

    /** ObjectBase::decUserRef: what is left is what is alive with one user less. */
    method DecUserRef(o: Ptr) returns (deleted: bool)
      requires Valid() && o in list && mem[o].user > 0
      modifies this
      ensures Valid() && ext == old(ext) && GivenBack(list, mem, old(list), old(mem))
      ensures deleted == (old(mem[o]).user == 1 && old(mem[o]).sys == 0)
      ensures SetOf(list) == old(Alive(list, Recounted(mem, o, mem[o].user - 1, mem[o].sys), ext, o))
      ensures Survive(list, mem, old(list), old(Recounted(mem, o, mem[o].user - 1, mem[o].sys)))
      ensures if deleted then o !in list
              else list == old(list) && mem == old(Recounted(mem, o, mem[o].user - 1, mem[o].sys))
    {
      var user := mem[o].user - 1;
      SetUser(o, user);
      deleted := DeleteIfUnused(o, user <= 0 && mem[o].sys <= 0);
    }

    /** ObjectBase::zeroUserRef: what is left is what is alive without the users of o. */
    method ZeroUserRef(o: Ptr) returns (deleted: bool)
      requires Valid() && o in list
      modifies this
      ensures Valid() && ext == old(ext) && GivenBack(list, mem, old(list), old(mem))
      ensures deleted == (old(mem[o]).sys == 0)
      ensures SetOf(list) == old(Alive(list, Recounted(mem, o, 0, mem[o].sys), ext, o))
      ensures Survive(list, mem, old(list), old(Recounted(mem, o, 0, mem[o].sys)))
      ensures if deleted then o !in list && |list| < |old(list)|
              else list == old(list) && mem == old(Recounted(mem, o, 0, mem[o].sys))
    {
      SetUser(o, 0);
      deleted := DeleteIfUnused(o, mem[o].sys <= 0);
    }

    /**
     ObjectBase::zeroAllUserRef: walk the list, zero every user counter, and start again
     from the head whenever that deleted something. What is left is exactly what outside
     references and ownership cycles keep alive, with user counters at zero.
     */
    method ZeroAllUserRef()
      requires Valid()
      modifies this
      ensures Valid() && ext == old(ext)
      ensures forall x :: x in list ==> mem[x].user == 0 && mem[x].sys > 0
      ensures SetOf(list) == Core(SetOf(old(list)), ext, old(mem)) && GivenBack(list, mem, old(list), old(mem))
    {
      ghost var list0, mem0 := list, mem;
      ghost var keep := Core(SetOf(list), ext, mem);
      CoreIsGreatest(SetOf(list), ext, mem, {});
      var o := head;
      ghost var i := 0;
      while o != NULL
        invariant Valid() && ext == old(ext)
        invariant 0 <= i <= |list| && o == (if i < |list| then list[i] else NULL)
        invariant Visited(list, mem, i, keep, ext, list0, mem0) && GivenBack(list, mem, list0, mem0)
        decreases |list|, |list| - i
      {
        o, i := ZeroNext(o, i, keep, list0, mem0);
      }
      assert forall x :: x in list ==> exists k :: 0 <= k < i && list[k] == x;
      SurvivorsAreCore(list, mem, ext, list0, mem0);
    }

    /** One round of the loop: the object after o, or the head if something was deleted. */
    method ZeroNext(o: Ptr, ghost i: nat, ghost keep: set<Ptr>, ghost list0: seq<Ptr>, ghost mem0: Memory)
      returns (next: Ptr, ghost i': nat)
      requires Valid() && i < |list| && o == list[i] && Visited(list, mem, i, keep, ext, list0, mem0)
      requires GivenBack(list, mem, list0, mem0)
      modifies this
      ensures Valid() && ext == old(ext) && i' <= |list| && next == (if i' < |list| then list[i'] else NULL)
      ensures Visited(list, mem, i', keep, ext, list0, mem0) && GivenBack(list, mem, list0, mem0)
      ensures |list| < |old(list)| || (|list| == |old(list)| && i' == i + 1)
    {
      ghost var l1, m1 := list, mem;
      CountersNotNegative(list, mem, ext, o);
      KeepIsAlive(list, mem, ext, o, keep, mem0);
      var deleted := ZeroUserRef(o);
      SameOwnersTrans(list, mem, l1, m1, o, list0, mem0);
      if deleted {
        next, i' := head, 0;
      } else {
        Neighbours(head, list, mem, i);
        VisitedOne(l1, m1, i, keep, ext, list0, mem0);
        next, i' := mem[o].next, i + 1;
      }
    }
  }

  /** The teardown loop has dealt with the first i objects, and nothing in keep is gone. */
  ghost predicate Visited(list: seq<Ptr>, mem: Memory, i: nat, keep: set<Ptr>, ext: multiset<Ptr>,
                          list0: seq<Ptr>, mem0: Memory)
  {
    && keep <= SetOf(list) && Supported(keep, ext, mem0) && SameOwners(list, mem, list0, mem0)
    && forall k :: 0 <= k < i && k < |list| && list[k] in mem ==> mem[list[k]].user == 0 && mem[list[k]].sys > 0
  }

  lemma VisitedOne(list: seq<Ptr>, mem: Memory, i: nat, keep: set<Ptr>, ext: multiset<Ptr>,
                   list0: seq<Ptr>, mem0: Memory)
    requires i < |list| && list[i] in mem && mem[list[i]].sys > 0 && NoRepeats(list)
    requires Visited(list, mem, i, keep, ext, list0, mem0)
    ensures Visited(list, Recounted(mem, list[i], 0, mem[list[i]].sys), i + 1, keep, ext, list0, mem0)
  {
  }

  /** The listed objects are among the old ones and own what they owned. */
  ghost predicate SameOwners(list: seq<Ptr>, mem: Memory, list0: seq<Ptr>, mem0: Memory) {
    forall x :: x in list ==> x in list0 && x in mem && x in mem0 && mem[x].handles == mem0[x].handles
  }

  lemma SameOwnersTrans(l2: seq<Ptr>, m2: Memory, l1: seq<Ptr>, m1: Memory, o: Ptr, l0: seq<Ptr>, m0: Memory)
    requires SameOwners(l1, m1, l0, m0) && o in m1 && Survive(l2, m2, l1, Recounted(m1, o, 0, m1[o].sys))
    requires forall x :: x in l2 ==> x in m2
    ensures SameOwners(l2, m2, l0, m0)
  {
  }

  /** When every listed object is referenced, the list is a supported set, hence within the core. */
  lemma SurvivorsAreCore(list: seq<Ptr>, mem: Memory, ext: multiset<Ptr>, list0: seq<Ptr>, mem0: Memory)
    requires Counted(list, mem, ext) && SameOwners(list, mem, list0, mem0)
    requires forall x :: x in list ==> mem[x].sys > 0
    requires Core(SetOf(list0), ext, mem0) <= SetOf(list)
    ensures SetOf(list) == Core(SetOf(list0), ext, mem0)
  {
    assert Open(list, mem, ext, 0);
    forall o | o in SetOf(list)
      ensures Referenced(o, SetOf(list), ext, mem0)
    {
      if o !in ext {
        var p := HeldOwner(list, mem, o);
        assert Owns(mem0, p, o);
      }
    }
    CoreIsGreatest(SetOf(list0), ext, mem0, SetOf(list));
  }

  /** What outside references and ownership keep alive is alive whatever becomes of the users of o. */
  lemma KeepIsAlive(list: seq<Ptr>, mem: Memory, ext: multiset<Ptr>, o: Ptr, keep: set<Ptr>, mem0: Memory)
    requires o in list && o in mem && keep <= SetOf(list) && Supported(keep, ext, mem0)
    requires forall p :: p in keep ==> p in mem && p in mem0 && mem[p].handles == mem0[p].handles
    ensures keep <= Alive(list, Recounted(mem, o, 0, mem[o].sys), ext, o)
  {
    var mem' := Recounted(mem, o, 0, mem[o].sys);
    var more := ext + multiset(Roots(list, mem', o));
    SupportedAgree(keep, ext, mem0, mem');
    SupportedMore(keep, ext, more, mem');
    CoreIsGreatest(SetOf(list), more, mem', keep);
  }

  /** If o itself has references, nothing but the roots is without. */
  lemma LiveAll(list: seq<Ptr>, mem: Memory, ext: multiset<Ptr>, roots: set<Ptr>, o: Ptr)
    requires Counted(list, mem, ext) && LiveBut(list, mem, roots, o) && o in list && o in mem
    requires mem[o].user != 0 || mem[o].sys != 0
    requires o in roots <==> mem[o].user > 0
    ensures Live(list, mem, roots)
  {
    assert Open(list, mem, ext, 0) && Rooting(list, mem, roots, 0);
  }

  /** Giving back the memory of an unlisted object changes nothing of this. */
  lemma FreedLive(list: seq<Ptr>, mem: Memory, ext: multiset<Ptr>, keep: set<Ptr>, roots: set<Ptr>, o: Ptr)
    requires o !in list && (forall x :: x in list ==> x in mem) && Firm(list, mem, ext, keep, roots)
    requires Rooted(list, mem, roots) && Live(list, mem, roots)
    ensures Firm(list, mem - {o}, ext, keep, roots) && Rooted(list, mem - {o}, roots) && Live(list, mem - {o}, roots)
  {
    assert Rooting(list, mem, roots, 0);
    SupportedAgree(keep, ext + multiset(roots), mem, mem - {o});
  }

  /** Any new value of the user counter keeps the invariant. */
  lemma Reset(head: Ptr, list: seq<Ptr>, mem: Memory, ext: multiset<Ptr>, o: Ptr, user: nat)
    requires Linked(head, list, mem) && Counted(list, mem, ext) && Closed(list, mem, ext) && o in list && o in mem
    ensures var mem' := Recounted(mem, o, user, mem[o].sys);
      Linked(head, list, mem') && Counted(list, mem', ext) && Closed(list, mem', ext) && mem[o].sys >= 0
  {
    assert Open(list, mem, ext, 0);
    RecountedIsValid(head, list, mem, ext, o, user, mem[o].sys, ext);
  }

  lemma FreeUnlisted(head: Ptr, list: seq<Ptr>, mem: Memory, ext: multiset<Ptr>, o: Ptr)
    requires Linked(head, list, mem) && Counted(list, mem, ext) && Closed(list, mem, ext) && o !in list
    ensures var mem' := mem - {o}; Linked(head, list, mem') && Counted(list, mem', ext) && Closed(list, mem', ext)
  {
    assert Open(list, mem, ext, 0);
    var mem' := mem - {o};
    LinkedAgree(head, list, mem, mem');
    ClosedAgree(list, mem, mem', ext);
    forall x | x in list && x in mem'
      ensures mem'[x].user >= 0 && mem'[x].sys == ext[x] + Held(list, mem', x)
    {
      HeldAgree(list, mem, mem', x);
    }
  }
}
