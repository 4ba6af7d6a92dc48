/**
 Object lifetime under concurrency (rsObjectBase.cpp, with the intern cache of
 rsElement.cpp): client threads look objects up in the cache under the async lock,
 the RS thread releases references and deletes objects. Every atomic access of the
 source is one step, so a run is any interleaving of the threads.
 */
module LifetimeSteps {
  import opened Common

  type Tid = nat
  type Oid = nat
  type RefId = nat

  /** The RS thread: the only one that runs ObjectBase::checkDelete. */
  const RS: Tid := 0

  datatype Kind = User | Sys
  datatype Holder = Thread(t: Tid) | Field(o: Oid)

  /** One counted reference: who holds it, what it counts, and in which counter. */
  datatype Ref = Ref(holder: Holder, target: Oid, kind: Kind)

  datatype Obj = Obj(user: nat, sys: nat, freed: bool) {
    function Count(k: Kind): nat {
      if k == User then user else sys
    }

    function Plus(k: Kind): Obj {
      if k == User then this.(user := user + 1) else this.(sys := sys + 1)
    }

    function Minus(k: Kind): Obj
      requires Count(k) > 0
    {
      if k == User then this.(user := user - 1) else this.(sys := sys - 1)
    }
  }

  function Other(k: Kind): Kind {
    if k == User then Sys else User
  }

  datatype ClientPc =
    | Idle
    | Scanning            // holds the lock, searching the cache
    | Creating            // the search failed, the lock is free again
    | Pushing(o: Oid)     // built o and holds a reference to it, not in the cache yet
    | PushLocked(o: Oid)  // holds the lock to append o to the cache
    | Unlocking           // holds the lock, about to release it

  datatype RsPc =
    | RsIdle
    | RsTest(o: Oid, k: Kind)  // a counter of o went to zero, test the other one
    | RsWantLock(o: Oid)       // in checkDelete, before the lock
    | RsReadUser(o: Oid)       // lock held, first half of the recheck
    | RsReadSys(o: Oid)        // lock held, second half of the recheck
    | RsUnlink(o: Oid)         // recheck passed, remove from the object list
    | RsUncache(o: Oid)        // preDestroy: remove from the cache
    | RsUnlock(o: Oid)
    | RsDelete(o: Oid)         // lock released, about to delete

  datatype State = State(objs: map<Oid, Obj>, list: set<Oid>, cache: set<Oid>, lock: Option<Tid>,
                         refs: map<RefId, Ref>, pc: map<Tid, ClientPc>, rs: RsPc)

  datatype Step =
    | Lock(t: Tid)
    | Hit(t: Tid, o: Oid, r: RefId)
    | Miss(t: Tid)
    | Create(t: Tid, o: Oid, r: RefId)
    | PushLock(t: Tid)
    | Push(t: Tid)
    | Unlock(t: Tid)
    | Copy(t: Tid, from: RefId, r: RefId, holder: Holder, kind: Kind)
    | HandOver(t: Tid, r: RefId)
    | Drop(t: Tid, r: RefId)
    | Release(r: RefId)
    | RsStep

  // ------------------------------------------------------------------- Steps

  /** Thread t may take a client step now; the RS thread only between releases. */
  predicate Ready(s: State, t: Tid) {
    t in s.pc && (t == RS ==> s.rs == RsIdle)
  }

  predicate Holds(s: State, t: Tid, r: RefId) {
    r in s.refs && s.refs[r].holder == Thread(t) && s.refs[r].target in s.objs
  }

  /**
   When step a is possible in s. A client thread that drops a reference still holds
   another one to the same object, as Element::create does when it trades its system
   reference for a user reference; either counter may go to zero.
   */
  predicate Enabled(s: State, a: Step) {
    match a
    case Lock(t) => Ready(s, t) && s.pc[t] == Idle && s.lock == None
    case Hit(t, o, r) => Ready(s, t) && s.pc[t] == Scanning && o in s.cache && o in s.objs && r !in s.refs
    case Miss(t) => Ready(s, t) && s.pc[t] == Scanning
    case Create(t, o, r) =>
      Ready(s, t) && s.pc[t] == Creating && s.lock == None && o !in s.objs && r !in s.refs
    case PushLock(t) => Ready(s, t) && s.pc[t].Pushing? && s.lock == None
    case Push(t) => Ready(s, t) && s.pc[t].PushLocked?
    case Unlock(t) => Ready(s, t) && s.pc[t] == Unlocking
    case Copy(t, from, r, holder, kind) =>
      && Ready(s, t) && s.pc[t] == Idle && Holds(s, t, from) && r !in s.refs
      && (match holder
          case Thread(t2) => t2 in s.pc
          case Field(o) => exists q :: q in s.refs && Holds(s, t, q) && s.refs[q].target == o)
    case HandOver(t, r) => Ready(s, t) && s.pc[t] == Idle && Holds(s, t, r) && RS in s.pc
    case Drop(t, r) =>
      && Ready(s, t) && t != RS && s.pc[t] == Idle && Holds(s, t, r)
      && s.objs[s.refs[r].target].Count(s.refs[r].kind) > 0
      && (exists q :: q in s.refs && q != r && Holds(s, t, q) && s.refs[q].target == s.refs[r].target)
    case Release(r) =>
      && Ready(s, RS) && s.pc[RS] == Idle && Holds(s, RS, r)
      && s.objs[s.refs[r].target].Count(s.refs[r].kind) > 0
    case RsStep =>
      && s.rs != RsIdle && s.rs.o in s.objs
      && (s.rs.RsWantLock? ==> s.lock == None)
  }

  /** Incrementing a counter and recording who holds the new reference. */
  function AddRef(s: State, r: RefId, ref: Ref): State
    requires ref.target in s.objs
  {
    s.(refs := s.refs[r := ref], objs := s.objs[ref.target := s.objs[ref.target].Plus(ref.kind)])
  }

  function DropRef(s: State, r: RefId): State
    requires r in s.refs && s.refs[r].target in s.objs
    requires s.objs[s.refs[r].target].Count(s.refs[r].kind) > 0
  {
    var ref := s.refs[r];
    s.(refs := s.refs - {r}, objs := s.objs[ref.target := s.objs[ref.target].Minus(ref.kind)])
  }

  /** The references held by the fields of a deleted object are now for the RS thread to release. */
  function Orphaned(refs: map<RefId, Ref>, o: Oid): map<RefId, Ref> {
    map r | r in refs :: if refs[r].holder == Field(o) then refs[r].(holder := Thread(RS)) else refs[r]
  }

  function RsDo(s: State): State
    requires s.rs != RsIdle && s.rs.o in s.objs
  {
    match s.rs
    case RsTest(o, k) =>
      s.(rs := if s.objs[o].Count(Other(k)) == 0 then RsWantLock(o) else RsIdle)
    case RsWantLock(o) => s.(lock := Some(RS), rs := RsReadUser(o))
    case RsReadUser(o) =>
      if s.objs[o].user != 0 then s.(lock := None, rs := RsIdle) else s.(rs := RsReadSys(o))
    case RsReadSys(o) =>
      if s.objs[o].sys != 0 then s.(lock := None, rs := RsIdle) else s.(rs := RsUnlink(o))
    case RsUnlink(o) => s.(list := s.list - {o}, rs := RsUncache(o))
    case RsUncache(o) => s.(cache := s.cache - {o}, rs := RsUnlock(o))
    case RsUnlock(o) => s.(lock := None, rs := RsDelete(o))
    case RsDelete(o) =>
      s.(objs := s.objs[o := s.objs[o].(freed := true)], refs := Orphaned(s.refs, o), rs := RsIdle)
  }

  function Do(s: State, a: Step): State
    requires Enabled(s, a)
  {
    match a
    case Lock(t) => s.(lock := Some(t), pc := s.pc[t := Scanning])
    case Hit(t, o, r) => AddRef(s, r, Ref(Thread(t), o, Sys)).(pc := s.pc[t := Unlocking])
    case Miss(t) => s.(lock := None, pc := s.pc[t := Creating])
    case Create(t, o, r) =>
      s.(objs := s.objs[o := Obj(0, 1, false)], list := s.list + {o},
         refs := s.refs[r := Ref(Thread(t), o, Sys)], pc := s.pc[t := Pushing(o)])
    case PushLock(t) => s.(lock := Some(t), pc := s.pc[t := PushLocked(s.pc[t].o)])
    case Push(t) => s.(cache := s.cache + {s.pc[t].o}, pc := s.pc[t := Unlocking])
    case Unlock(t) => s.(lock := None, pc := s.pc[t := Idle])
    case Copy(t, from, r, holder, kind) => AddRef(s, r, Ref(holder, s.refs[from].target, kind))
    case HandOver(t, r) => s.(refs := s.refs[r := s.refs[r].(holder := Thread(RS))])
    case Drop(t, r) => DropRef(s, r)
    case Release(r) =>
      var ref := s.refs[r];
      DropRef(s, r).(rs := if s.objs[ref.target].Count(ref.kind) <= 1 then RsTest(ref.target, ref.kind) else RsIdle)
    case RsStep => RsDo(s)
  }

  /** Every thread is idle, everything listed or referenced is live, and the counters are right. */
  ghost predicate Init(s: State) {
    && s.lock == None && RS in s.pc && (forall t :: t in s.pc ==> s.pc[t] == Idle) && s.rs == RsIdle
    && Safe(s) && Counted(s)
  }

  /** Which steps the threads of a program take: any restriction of what is possible. */
  type Policy = (State, Step) -> bool

  /** A run under a policy: states joined by steps, each possible and allowed where it is taken. */
  ghost predicate IsRun(allow: Policy, states: seq<State>, steps: seq<Step>) {
    && |states| == |steps| + 1 && Init(states[0])
    && forall i :: 0 <= i < |steps| ==> Taken(allow, states[i], steps[i], states[i + 1])
  }

  ghost predicate Taken(allow: Policy, s: State, a: Step, s': State) {
    Enabled(s, a) && allow(s, a) && s' == Do(s, a)
  }

  ghost predicate Reachable(allow: Policy, s: State) {
    exists states, steps :: IsRun(allow, states, steps) && states[|steps|] == s
  }

  /** A client drops the last system reference to an object between the two reads of its recheck. */
  predicate Races(s: State, a: Step) {
    && a.Drop? && a.r in s.refs && s.refs[a.r].target in s.objs
    && s.refs[a.r].kind == Sys && s.objs[s.refs[a.r].target].sys == 1 && s.rs == RsReadSys(s.refs[a.r].target)
  }

  /** No reference is to a deleted object, and no deleted object is in the cache or the list. */
  ghost predicate Safe(s: State) {
    && (forall r :: r in s.refs ==> s.refs[r].target in s.objs && !s.objs[s.refs[r].target].freed)
    && (forall o :: o in s.cache ==> o in s.objs && !s.objs[o].freed)
    && (forall o :: o in s.list ==> o in s.objs && !s.objs[o].freed)
  }

  // --------------------------------------------------------------- Invariant

  ghost function RefsTo(refs: map<RefId, Ref>, o: Oid, k: Kind): set<RefId> {
    set r | r in refs && refs[r].target == o && refs[r].kind == k
  }

  /** The counters count exactly the references that are held. */
  ghost predicate Counted(s: State) {
    forall o, k :: o in s.objs ==> s.objs[o].Count(k) == |RefsTo(s.refs, o, k)|
  }

  /** The thread that has the lock is the one whose program counter says so. */
  ghost predicate LockOk(s: State) {
    && (forall t :: t in s.pc && (s.pc[t].Scanning? || s.pc[t].PushLocked? || s.pc[t].Unlocking?) ==> s.lock == Some(t))
    && (s.rs.RsReadUser? || s.rs.RsReadSys? || s.rs.RsUnlink? || s.rs.RsUncache? || s.rs.RsUnlock? ==>
          s.lock == Some(RS))
    && RS in s.pc && (s.rs != RsIdle ==> s.pc[RS] == Idle)
  }

  /** A thread that has built an object keeps a reference to it until the object is cached. */
  ghost predicate BuildersOk(s: State) {
    forall t :: Builds(s, t) ==> exists r :: IsRef(s, r, Ref(Thread(t), s.pc[t].o, Sys))
  }

  predicate Builds(s: State, t: Tid) {
    t in s.pc && (s.pc[t].Pushing? || s.pc[t].PushLocked?)
  }

  predicate IsRef(s: State, r: RefId, ref: Ref) {
    r in s.refs && s.refs[r] == ref
  }

  /** What the RS thread has learnt about the object that it is deleting. */
  ghost predicate RsOk(s: State) {
    s.rs != RsIdle ==>
      && s.rs.o in s.objs && !s.objs[s.rs.o].freed
      && (s.rs.RsReadSys? ==> s.objs[s.rs.o].user == 0 || s.objs[s.rs.o].sys > 0)
      && (s.rs.RsUnlink? || s.rs.RsUncache? || s.rs.RsUnlock? || s.rs.RsDelete? ==>
            s.objs[s.rs.o].user == 0 && s.objs[s.rs.o].sys == 0)
      && (s.rs.RsUncache? || s.rs.RsUnlock? || s.rs.RsDelete? ==> s.rs.o !in s.list)
      && (s.rs.RsUnlock? || s.rs.RsDelete? ==> s.rs.o !in s.cache)
  }

  ghost predicate Inv(s: State) {
    Safe(s) && Counted(s) && LockOk(s) && BuildersOk(s) && RsOk(s)
  }

  lemma AddedRefs(refs: map<RefId, Ref>, r: RefId, ref: Ref, o: Oid, k: Kind)
    requires r !in refs
    ensures RefsTo(refs[r := ref], o, k) ==
            RefsTo(refs, o, k) + if ref.target == o && ref.kind == k then {r} else {}
  {
  }

  lemma DroppedRefs(refs: map<RefId, Ref>, r: RefId, o: Oid, k: Kind)
    requires r in refs
    ensures RefsTo(refs - {r}, o, k) == RefsTo(refs, o, k) - {r}
    ensures r in RefsTo(refs, o, k) <==> refs[r].target == o && refs[r].kind == k
  {
  }

  /** A new reference to a live object keeps the counters right. */
  lemma AddRefCounted(s: State, r: RefId, ref: Ref)
    requires Counted(s) && ref.target in s.objs && r !in s.refs
    ensures Counted(AddRef(s, r, ref))
  {
    var s' := AddRef(s, r, ref);
    forall o, k | o in s'.objs
      ensures s'.objs[o].Count(k) == |RefsTo(s'.refs, o, k)|
    {
      AddedRefs(s.refs, r, ref, o, k);
    }
  }

  lemma DropRefCounted(s: State, r: RefId)
    requires Counted(s) && r in s.refs && s.refs[r].target in s.objs
    requires s.objs[s.refs[r].target].Count(s.refs[r].kind) > 0
    ensures Counted(DropRef(s, r))
  {
    var s' := DropRef(s, r);
    forall o, k | o in s'.objs
      ensures s'.objs[o].Count(k) == |RefsTo(s'.refs, o, k)|
    {
      DroppedRefs(s.refs, r, o, k);
    }
  }

  /** An object somebody holds a reference to has a nonzero counter. */
  lemma HeldIsCounted(s: State, r: RefId)
    requires Counted(s) && r in s.refs && s.refs[r].target in s.objs
    ensures s.objs[s.refs[r].target].Count(s.refs[r].kind) > 0
  {
    assert r in RefsTo(s.refs, s.refs[r].target, s.refs[r].kind);
  }

  lemma OrphanedCounted(s: State, o: Oid)
    requires Counted(s)
    ensures Counted(s.(refs := Orphaned(s.refs, o)))
  {
    forall o2, k | o2 in s.objs
      ensures RefsTo(Orphaned(s.refs, o), o2, k) == RefsTo(s.refs, o2, k)
    {
    }
  }

  /** Builders are fine as long as nobody takes their references away. */
  lemma BuildersKept(s: State, s': State)
    requires BuildersOk(s)
    requires forall t :: Builds(s', t) ==> Builds(s, t) && s'.pc[t].o == s.pc[t].o
    requires forall t, r :: Builds(s', t) && r in s.refs && s.refs[r].holder == Thread(t) ==> IsRef(s', r, s.refs[r])
    ensures BuildersOk(s')
  {
    forall t | Builds(s', t)
      ensures exists r :: IsRef(s', r, Ref(Thread(t), s'.pc[t].o, Sys))
    {
      var r :| IsRef(s, r, Ref(Thread(t), s.pc[t].o, Sys));
      assert IsRef(s', r, Ref(Thread(t), s'.pc[t].o, Sys));
    }
  }

  lemma HitKeepsInv(s: State, t: Tid, o: Oid, r: RefId)
    requires Inv(s) && Enabled(s, Hit(t, o, r))
    ensures Inv(Do(s, Hit(t, o, r)))
  {
    AddRefCounted(s, r, Ref(Thread(t), o, Sys));
    BuildersKept(s, Do(s, Hit(t, o, r)));
  }

  lemma CreateKeepsInv(s: State, t: Tid, o: Oid, r: RefId)
    requires Inv(s) && Enabled(s, Create(t, o, r))
    ensures Inv(Do(s, Create(t, o, r)))
  {
    var s', ref := Do(s, Create(t, o, r)), Ref(Thread(t), o, Sys);
    var s0 := s.(objs := s.objs[o := Obj(0, 0, false)]);
    assert forall k :: RefsTo(s.refs, o, k) == {};
    assert Counted(s0);
    AddRefCounted(s0, r, ref);
    assert s'.objs == AddRef(s0, r, ref).objs;
    assert IsRef(s', r, ref);
    forall t2 | Builds(s', t2)
      ensures exists q :: IsRef(s', q, Ref(Thread(t2), s'.pc[t2].o, Sys))
    {
      if t2 != t {
        var q :| IsRef(s, q, Ref(Thread(t2), s.pc[t2].o, Sys));
        assert IsRef(s', q, Ref(Thread(t2), s.pc[t2].o, Sys));
      }
    }
  }

  lemma PushKeepsInv(s: State, t: Tid)
    requires Inv(s) && Enabled(s, Push(t))
    ensures Inv(Do(s, Push(t)))
  {
    var r :| IsRef(s, r, Ref(Thread(t), s.pc[t].o, Sys));
    HeldIsCounted(s, r);
    BuildersKept(s, Do(s, Push(t)));
  }

  lemma CopyKeepsInv(s: State, t: Tid, from: RefId, r: RefId, holder: Holder, kind: Kind)
    requires Inv(s) && Enabled(s, Copy(t, from, r, holder, kind))
    ensures Inv(Do(s, Copy(t, from, r, holder, kind)))
  {
    HeldIsCounted(s, from);
    AddRefCounted(s, r, Ref(holder, s.refs[from].target, kind));
    BuildersKept(s, Do(s, Copy(t, from, r, holder, kind)));
  }

  lemma HandOverKeepsInv(s: State, t: Tid, r: RefId)
    requires Inv(s) && Enabled(s, HandOver(t, r))
    ensures Inv(Do(s, HandOver(t, r)))
  {
    var s' := Do(s, HandOver(t, r));
    assert forall o, k :: RefsTo(s'.refs, o, k) == RefsTo(s.refs, o, k);
    BuildersKept(s, s');
  }

  /** Taking and releasing the lock touches no object. */
  lemma LockingKeepsInv(s: State, a: Step)
    requires Inv(s) && Enabled(s, a) && (a.Lock? || a.Miss? || a.PushLock? || a.Unlock?)
    ensures Inv(Do(s, a))
  {
    BuildersKept(s, Do(s, a));
  }

  /** A client may give up a reference unless it races with the recheck. */
  lemma DropKeepsInv(s: State, t: Tid, r: RefId)
    requires Inv(s) && Enabled(s, Drop(t, r)) && !Races(s, Drop(t, r))
    ensures Inv(Do(s, Drop(t, r)))
  {
    DropRefCounted(s, r);
    BuildersKept(s, Do(s, Drop(t, r)));
  }

  lemma ReleaseKeepsInv(s: State, r: RefId)
    requires Inv(s) && Enabled(s, Release(r))
    ensures Inv(Do(s, Release(r)))
  {
    DropRefCounted(s, r);
    BuildersKept(s, Do(s, Release(r)));
  }

  lemma RsStepKeepsInv(s: State)
    requires Inv(s) && Enabled(s, RsStep)
    ensures Inv(Do(s, RsStep))
  {
    var s' := Do(s, RsStep);
    BuildersKept(s, s');
    if s.rs.RsDelete? {
      OrphanedCounted(s, s.rs.o);
      forall r | r in s.refs
        ensures s.refs[r].target != s.rs.o
      {
        HeldIsCounted(s, r);
      }
    }
  }

  lemma StepKeepsInv(s: State, a: Step)
    requires Inv(s) && Enabled(s, a) && !Races(s, a)
    ensures Inv(Do(s, a))
  {
    match a
    case Drop(t, r) => DropKeepsInv(s, t, r);
    case Release(r) => ReleaseKeepsInv(s, r);
    case RsStep => RsStepKeepsInv(s);
    case Hit(t, o, r) => HitKeepsInv(s, t, o, r);
    case Create(t, o, r) => CreateKeepsInv(s, t, o, r);
    case Push(t) => PushKeepsInv(s, t);
    case Copy(t, from, r, holder, kind) => CopyKeepsInv(s, t, from, r, holder, kind);
    case HandOver(t, r) => HandOverKeepsInv(s, t, r);
    case _ => LockingKeepsInv(s, a);
  }

  /** None of the first n steps races. */
  ghost predicate RaceFree(states: seq<State>, steps: seq<Step>, n: nat)
    requires n <= |states| && n <= |steps|
  {
    forall i :: 0 <= i < n ==> !Races(states[i], steps[i])
  }

  lemma {:induction false} RunKeepsInv(allow: Policy, states: seq<State>, steps: seq<Step>, n: nat)
    requires IsRun(allow, states, steps) && n <= |steps| && RaceFree(states, steps, n)
    ensures Inv(states[n])
  {
    if n > 0 {
      RunKeepsInv(allow, states, steps, n - 1);
      assert Taken(allow, states[n - 1], steps[n - 1], states[n - 1 + 1]);
      StepKeepsInv(states[n - 1], steps[n - 1]);
    }
  }

  /**
   In every interleaving without a race, a held reference is never to a deleted object,
   the cache holds no deleted object, and the counters count the references.
   */
  lemma RaceFreeRunIsSafe(allow: Policy, states: seq<State>, steps: seq<Step>)
    requires IsRun(allow, states, steps) && RaceFree(states, steps, |steps|)
    ensures Safe(states[|steps|]) && Counted(states[|steps|])
  {
    RunKeepsInv(allow, states, steps, |steps|);
  }

  // ------------------------------------------------------------- What a race leads to

  /** The RS thread passes the recheck of o and has i of the five steps behind it that end with the deletion. */
  function Deleting(s: State, o: Oid, i: nat): State
    requires o in s.objs
  {
    if i == 0 then s
    else if i == 1 then s.(rs := RsUnlink(o))
    else if i == 2 then s.(list := s.list - {o}, rs := RsUncache(o))
    else if i == 3 then s.(list := s.list - {o}, cache := s.cache - {o}, rs := RsUnlock(o))
    else if i == 4 then s.(list := s.list - {o}, cache := s.cache - {o}, lock := None, rs := RsDelete(o))
    else s.(list := s.list - {o}, cache := s.cache - {o}, lock := None, rs := RsIdle,
            objs := s.objs[o := s.objs[o].(freed := true)], refs := Orphaned(s.refs, o))
  }

  lemma DeletingStep(s: State, o: Oid, i: nat)
    requires o in s.objs && s.rs == RsReadSys(o) && s.objs[o].sys == 0 && i < 5
    ensures Enabled(Deleting(s, o, i), RsStep) && Do(Deleting(s, o, i), RsStep) == Deleting(s, o, i + 1)
  {
  }

  /** After a race the RS thread finds no system reference, although a user reference is held. */
  lemma RaceLeavesUser(s: State, a: Step)
    requires Inv(s) && Enabled(s, a) && Races(s, a)
    ensures var o, s' := s.refs[a.r].target, Do(s, a);
      o in s'.objs && s'.rs == RsReadSys(o) && s'.objs[o].sys == 0 && exists q :: q in s'.refs && s'.refs[q].target == o
  {
    var q :| q in s.refs && q != a.r && Holds(s, a.t, q) && s.refs[q].target == s.refs[a.r].target;
    assert q in Do(s, a).refs;
  }

  /** So the RS thread alone goes on to delete an object to which a reference is held. */
  lemma RaceDooms(s: State, a: Step)
    requires Inv(s) && Enabled(s, a) && Races(s, a)
    ensures var o, s' := s.refs[a.r].target, Do(s, a);
      && o in s'.objs && !Safe(Deleting(s', o, 5))
      && forall i: nat :: i < 5 ==> RsStepTo(Deleting(s', o, i), Deleting(s', o, i + 1))
  {
    RaceLeavesUser(s, a);
    var o, s' := s.refs[a.r].target, Do(s, a);
    forall i: nat | i < 5
      ensures RsStepTo(Deleting(s', o, i), Deleting(s', o, i + 1))
    {
      DeletingStep(s', o, i);
    }
    FreedIsUnsafe(s', o);
  }

  lemma FreedIsUnsafe(s: State, o: Oid)
    requires o in s.objs && exists q :: q in s.refs && s.refs[q].target == o
    ensures !Safe(Deleting(s, o, 5))
  {
    var q :| q in s.refs && s.refs[q].target == o;
    assert Deleting(s, o, 5).refs[q].target == o;
  }

  ghost predicate RsStepTo(s: State, s': State) {
    Enabled(s, RsStep) && s' == Do(s, RsStep)
  }

  // ------------------------------------------------------- What releases and lookups do

  /** Once the last reference of both kinds is released, the RS thread alone deletes the object, and forgets it. */
  lemma LastReleaseDeletes(s: State, r: RefId) returns (path: seq<State>)
    requires Enabled(s, Release(r)) && s.lock == None
    requires var o, s' := s.refs[r].target, Do(s, Release(r)); s'.objs[o].user == 0 && s'.objs[o].sys == 0
    ensures |path| == 9 && path[0] == Do(s, Release(r))
    ensures forall i: nat :: i < 8 ==> RsStepTo(path[i], path[i + 1])
    ensures var o, end := s.refs[r].target, path[8];
      o in end.objs && end.objs[o].freed && o !in end.list && o !in end.cache && end.lock == None && end.rs == RsIdle
  {
    var o, s0 := s.refs[r].target, Do(s, Release(r));
    var s3 := Checking(s0, o, 3);
    path := seq(9, i requires 0 <= i < 9 => if i < 4 then Checking(s0, o, i) else Deleting(s3, o, i - 3));
    assert path[8] == Deleting(s3, o, 5);
    forall i: nat | i < 8
      ensures RsStepTo(path[i], path[i + 1])
    {
      if i < 3 {
        CheckingStep(s0, o, i);
      } else {
        DeletingStep(s3, o, i - 3);
      }
    }
  }

  /** The RS thread has i of the three steps behind it that end in the recheck of the system counter. */
  function Checking(s: State, o: Oid, i: nat): State {
    if i == 0 then s
    else if i == 1 then s.(rs := RsWantLock(o))
    else if i == 2 then s.(lock := Some(RS), rs := RsReadUser(o))
    else s.(lock := Some(RS), rs := RsReadSys(o))
  }

  lemma CheckingStep(s: State, o: Oid, i: nat)
    requires o in s.objs && s.rs.RsTest? && s.rs.o == o && s.lock == None && i < 3
    requires s.objs[o].user == 0 && s.objs[o].sys == 0
    ensures RsStepTo(Checking(s, o, i), Checking(s, o, i + 1))
  {
  }

  /** As long as a reference of either kind is left, a release changes nothing else, and takes no lock. */
  lemma OtherReferenceSaves(s: State, r: RefId)
    requires Enabled(s, Release(r))
    requires var o, s' := s.refs[r].target, Do(s, Release(r)); s'.objs[o].user > 0 || s'.objs[o].sys > 0
    ensures var s' := Do(s, Release(r)); s'.rs == RsIdle || RsStepTo(s', s'.(rs := RsIdle))
  {
  }

  /** o is in the cache, or about to be, or on its way out. */
  ghost predicate Findable(s: State, o: Oid) {
    || o in s.cache || (exists t :: t in s.pc && (s.pc[t] == Pushing(o) || s.pc[t] == PushLocked(o)))
    || s.rs == RsUnlock(o) || s.rs == RsDelete(o) || (o in s.objs && s.objs[o].freed)
  }

  lemma FindableKept(s: State, a: Step, o: Oid)
    requires Enabled(s, a) && Findable(s, o)
    ensures Findable(Do(s, a), o)
  {
    var s' := Do(s, a);
    if t :| t in s.pc && (s.pc[t] == Pushing(o) || s.pc[t] == PushLocked(o)) {
      assert t in s'.pc && (s'.pc[t] == Pushing(o) || s'.pc[t] == PushLocked(o) || o in s'.cache);
    }
  }

  /** In every run, whatever was created stays findable: later lookups hit it until it is deleted. */
  lemma {:induction false} CreatedIsFindable(allow: Policy, states: seq<State>, steps: seq<Step>, i: nat, n: nat)
    requires IsRun(allow, states, steps) && i < n <= |steps| && steps[i].Create?
    ensures Findable(states[n], steps[i].o)
    decreases n
  {
    assert Taken(allow, states[n - 1], steps[n - 1], states[n]);
    if i + 1 < n {
      CreatedIsFindable(allow, states, steps, i, n - 1);
      FindableKept(states[n - 1], steps[n - 1], steps[i].o);
    } else {
      assert states[n].pc[steps[i].t] == Pushing(steps[i].o);
    }
  }

  // ---------------------------------------------------------------- The exact condition

  lemma RunPrefix(allow: Policy, states: seq<State>, steps: seq<Step>, n: nat)
    requires IsRun(allow, states, steps) && n <= |steps|
    ensures Reachable(allow, states[n])
  {
    var ss, as' := states[..n + 1], steps[..n];
    forall i | 0 <= i < |as'|
      ensures Taken(allow, ss[i], as'[i], ss[i + 1])
    {
      assert Taken(allow, states[i], steps[i], states[i + 1]);
    }
    assert IsRun(allow, ss, as') && ss[|as'|] == states[n];
  }

  lemma ReachableNext(allow: Policy, s: State, a: Step)
    requires Reachable(allow, s) && Enabled(s, a) && allow(s, a)
    ensures Reachable(allow, Do(s, a))
  {
    var states, steps :| IsRun(allow, states, steps) && states[|steps|] == s;
    var ss, as' := states + [Do(s, a)], steps + [a];
    forall i | 0 <= i < |as'|
      ensures Taken(allow, ss[i], as'[i], ss[i + 1])
    {
      assert i < |steps| ==> Taken(allow, states[i], steps[i], states[i + 1]);
    }
    assert IsRun(allow, ss, as') && ss[|as'|] == Do(s, a);
  }

  /** Where the RS thread is never held up, a race makes an unsafe state reachable. */
  lemma RaceReachesUnsafe(allow: Policy, s: State, a: Step) returns (bad: State)
    requires Reachable(allow, s) && Inv(s) && Enabled(s, a) && allow(s, a) && Races(s, a)
    requires forall x :: allow(x, RsStep)
    ensures Reachable(allow, bad) && !Safe(bad)
  {
    RaceDooms(s, a);
    var o, s' := s.refs[a.r].target, Do(s, a);
    ReachableNext(allow, s, a);
    var i := 0;
    while i < 5
      invariant 0 <= i <= 5 && Reachable(allow, Deleting(s', o, i))
    {
      assert RsStepTo(Deleting(s', o, i), Deleting(s', o, i + 1));
      ReachableNext(allow, Deleting(s', o, i), RsStep);
      i := i + 1;
    }
    bad := Deleting(s', o, 5);
  }

  /** The first race of a run, if it has one. */
  lemma {:induction false} FirstRace(states: seq<State>, steps: seq<Step>, n: nat) returns (i: nat)
    requires n <= |steps| < |states|
    ensures i <= n && RaceFree(states, steps, i) && (i < n ==> Races(states[i], steps[i]))
  {
    if n == 0 {
      i := 0;
    } else {
      i := FirstRace(states, steps, n - 1);
      if i == n - 1 && !Races(states[n - 1], steps[n - 1]) {
        i := n;
      }
    }
  }

  /** If all reachable states are safe, no race can be reached. */
  lemma SafeMeansNoRace(allow: Policy, s: State, a: Step)
    requires (forall x :: allow(x, RsStep)) && forall x :: Reachable(allow, x) ==> Safe(x)
    requires Reachable(allow, s) && Enabled(s, a) && allow(s, a)
    ensures !Races(s, a)
  {
    if Races(s, a) {
      var states, steps :| IsRun(allow, states, steps) && states[|steps|] == s;
      var i := FirstRace(states, steps, |steps|);
      RunKeepsInv(allow, states, steps, i);
      RunPrefix(allow, states, steps, i);
      var b := if i < |steps| then steps[i] else a;
      assert i < |steps| ==> Taken(allow, states[i], steps[i], states[i + 1]);
      var bad := RaceReachesUnsafe(allow, states[i], b);
      assert false;
    }
  }

  lemma NoRaceMeansSafe(allow: Policy, s: State)
    requires forall x, a :: Reachable(allow, x) && Enabled(x, a) && allow(x, a) ==> !Races(x, a)
    requires Reachable(allow, s)
    ensures Safe(s)
  {
    var states, steps :| IsRun(allow, states, steps) && states[|steps|] == s;
    forall i | 0 <= i < |steps|
      ensures !Races(states[i], steps[i])
    {
      RunPrefix(allow, states, steps, i);
      assert Taken(allow, states[i], steps[i], states[i + 1]);
    }
    RaceFreeRunIsSafe(allow, states, steps);
  }

  /**
   Whatever the threads of a program do, as long as the RS thread is not held up: no
   reference is ever to a deleted object exactly when no client drops the last system
   reference to an object between the two reads of its recheck.
   */
  lemma SafeIffNoRace(allow: Policy)
    requires forall s :: allow(s, RsStep)
    ensures (forall s :: Reachable(allow, s) ==> Safe(s))
            <==> forall s, a :: Reachable(allow, s) && Enabled(s, a) && allow(s, a) ==> !Races(s, a)
  {
    if forall s :: Reachable(allow, s) ==> Safe(s) {
      forall s, a | Reachable(allow, s) && Enabled(s, a) && allow(s, a)
        ensures !Races(s, a)
      {
        SafeMeansNoRace(allow, s, a);
      }
    } else {
      var s :| Reachable(allow, s) && !Safe(s);
      if forall x, a :: Reachable(allow, x) && Enabled(x, a) && allow(x, a) ==> !Races(x, a) {
        NoRaceMeansSafe(allow, s);
      }
    }
  }

  // --------------------------------------------------------------------- A race in full

  /** States of the run below: one object, 7, in the list and the cache iff `kept`, and one client, 1. */
  function Snapshot(user: nat, sys: nat, lock: Option<Tid>, refs: map<RefId, Ref>, pc1: ClientPc, rs: RsPc): State {
    State(map[7 := Obj(user, sys, false)], {7}, {7}, lock, refs, map[RS := Idle, 1 := pc1], rs)
  }

  /**
   A run in which client 1 races with the recheck. The RS thread drops the last
   reference and has read both counters as zero; client 1 finds the object in the cache
   before the RS thread has the lock; then it trades its system reference for a user
   reference between the two reads of the recheck.
   */
  function UnsafeState(i: nat): State {
    var rs, sys := map[10 := Ref(Thread(RS), 7, Sys)], map[11 := Ref(Thread(1), 7, Sys)];
    var both := map[11 := Ref(Thread(1), 7, Sys), 12 := Ref(Thread(1), 7, User)];
    var user := map[12 := Ref(Thread(1), 7, User)];
    if i == 0 then Snapshot(0, 1, None, rs, Idle, RsIdle)
    else if i == 1 then Snapshot(0, 0, None, map[], Idle, RsTest(7, Sys))
    else if i == 2 then Snapshot(0, 0, None, map[], Idle, RsWantLock(7))
    else if i == 3 then Snapshot(0, 0, Some(1), map[], Scanning, RsWantLock(7))
    else if i == 4 then Snapshot(0, 1, Some(1), sys, Unlocking, RsWantLock(7))
    else if i == 5 then Snapshot(0, 1, None, sys, Idle, RsWantLock(7))
    else if i == 6 then Snapshot(0, 1, Some(RS), sys, Idle, RsReadUser(7))
    else if i == 7 then Snapshot(0, 1, Some(RS), sys, Idle, RsReadSys(7))
    else if i == 8 then Snapshot(1, 1, Some(RS), both, Idle, RsReadSys(7))
    else if i == 9 then Snapshot(1, 0, Some(RS), user, Idle, RsReadSys(7))
    else if i == 10 then Snapshot(1, 0, Some(RS), user, Idle, RsUnlink(7))
    else if i == 11 then Snapshot(1, 0, Some(RS), user, Idle, RsUncache(7)).(list := {})
    else if i == 12 then Snapshot(1, 0, Some(RS), user, Idle, RsUnlock(7)).(list := {}, cache := {})
    else if i == 13 then Snapshot(1, 0, None, user, Idle, RsDelete(7)).(list := {}, cache := {})
    else Snapshot(1, 0, None, user, Idle, RsIdle).(objs := map[7 := Obj(1, 0, true)], list := {}, cache := {})
  }

  function UnsafeStep(i: nat): Step {
    if i == 0 then Release(10)
    else if i == 2 then Lock(1)
    else if i == 3 then Hit(1, 7, 11)
    else if i == 4 then Unlock(1)
    else if i == 7 then Copy(1, 11, 12, Thread(1), User)
    else if i == 8 then Drop(1, 11)
    else RsStep
  }

  ghost predicate Joined(i: nat) {
    var s, a := UnsafeState(i), UnsafeStep(i);
    Enabled(s, a) && UnsafeState(i + 1) == Do(s, a)
  }

  lemma JoinedRelease()
    ensures Joined(0) && Joined(1)
  {
  }

  lemma JoinedLookup()
    ensures Joined(2) && Joined(3) && Joined(4)
  {
  }

  lemma JoinedRecheck()
    ensures Joined(5) && Joined(6)
  {
  }

  lemma JoinedTrade()
    ensures Joined(7) && Joined(8)
  {
    assert Holds(UnsafeState(8), 1, 12);
  }

  lemma JoinedUnlink()
    ensures Joined(9) && Joined(10)
  {
  }

  lemma JoinedUnlock()
    ensures Joined(11) && Joined(12)
  {
  }

  lemma JoinedDelete()
    ensures Joined(13)
  {
    assert Orphaned(UnsafeState(13).refs, 7) == UnsafeState(13).refs;
  }

  lemma AllJoined(i: nat)
    requires i < 14
    ensures Joined(i)
  {
    if i < 2 {
      JoinedRelease();
    } else if i < 5 {
      JoinedLookup();
    } else if i < 7 {
      JoinedRecheck();
    } else if i < 9 {
      JoinedTrade();
    } else if i < 11 {
      JoinedUnlink();
    } else if i < 13 {
      JoinedUnlock();
    } else {
      JoinedDelete();
    }
  }

  lemma UnsafeStartsQuiet()
    ensures Init(UnsafeState(0))
  {
    var s := UnsafeState(0);
    assert RefsTo(s.refs, 7, User) == {} && RefsTo(s.refs, 7, Sys) == {10};
  }

  function Anything(s: State, a: Step): bool {
    true
  }

  /** The run races in its step 8, and its last state has a reference to a deleted object. */
  lemma ElementCreateCanRace()
    ensures Races(UnsafeState(8), UnsafeStep(8)) && Reachable(Anything, UnsafeState(14)) && !Safe(UnsafeState(14))
  {
    var states, steps := seq(15, i requires 0 <= i => UnsafeState(i)), seq(14, i requires 0 <= i => UnsafeStep(i));
    UnsafeStartsQuiet();
    forall i | 0 <= i < |steps|
      ensures Taken(Anything, states[i], steps[i], states[i + 1])
    {
      AllJoined(i);
    }
    assert IsRun(Anything, states, steps);
    assert 12 in UnsafeState(14).refs;
  }
}
