/**
 The command FIFO between a client thread and the core thread (rsThreadIO.cpp,
 rsFifoSocket.cpp): one byte stream to the core, one back, and every interleaving of the
 two threads.
 */
module CommandFifo {
  import opened Common
  import opened Bytes
  import opened CommandCodec

  /** The generator's table has room for this many entries. */
  const MAX_APIS: nat := 128

  /** A call of an internal function. */
  datatype Call = Call(api: nat, views: seq<View>)

  /**
   What a stub has sent: its arguments, the client's memory at that time, the command, the call
   it stands for, and the size of the reply that its caller waits for.
   */
  datatype Sent = Sent(api: nat, args: seq<Arg>, mem: Memory, cmd: seq<byte>, call: Call, wait: Option<nat>)

  datatype Client = Idle | Waiting(want: nat)

  datatype Core = Polling | Playing(id: nat, cmd: seq<byte>)

  /**
   issued and played are the calls made by stubs, had they been direct, and by playback;
   queue holds the commands not yet played, with the one in playback first. These three are
   not used by the threads.
   */
  datatype State = State(mem: Memory, toCore: seq<byte>, toClient: seq<byte>, client: Client, core: Core,
                         queue: seq<Sent>, issued: seq<Call>, played: seq<Call>)

  datatype Step = Write(mem: Memory) | Invoke(api: nat, args: seq<Arg>) | Begin
                | Finish(reply: seq<byte>, after: Memory)
                | Resume

  ghost predicate GoodApis(apis: seq<Api>) {
    |apis| <= MAX_APIS && forall i :: 0 <= i < |apis| ==> GoodApi(apis[i])
  }

  // --------------------------------------------------------------------- Records

  ghost function WaitOf(api: Api, args: seq<Arg>): Option<nat> {
    if Waits(api, args) then Some(ReplySize(api)) else None
  }

  ghost function NewSent(apis: seq<Api>, api: nat, args: seq<Arg>, mem: Memory): Sent
    requires api < |apis|
  {
    Sent(api, args, mem, Encode(apis[api], args, mem),
         Call(api, DirectViews(args, Inlines(apis[api]), mem)), WaitOf(apis[api], args))
  }

  ghost predicate GoodSent(apis: seq<Api>, x: Sent) {
    && x.api < |apis| <= MAX_APIS
    && forall k :: Key(k) ==> CanSend(apis[x.api], x.args) && x == NewSent(apis, x.api, x.args, x.mem)
  }

  /** coreHeader and coreCommit: command ids start at 1. */
  function Record(api: nat, cmd: seq<byte>): seq<byte> {
    Le(api + 1, 4) + Le(|cmd|, 4) + cmd
  }

  ghost predicate GoodQueue(apis: seq<Api>, q: seq<Sent>) {
    forall i :: 0 <= i < |q| ==> GoodSent(apis, q[i])
  }

  ghost function Wire(q: seq<Sent>): seq<byte> {
    if q == [] then [] else Record(q[0].api, q[0].cmd) + Wire(q[1..])
  }

  lemma {:induction false} WireSnoc(q: seq<Sent>, x: Sent)
    ensures Wire(q + [x]) == Wire(q) + Record(x.api, x.cmd)
    decreases |q|
  {
    if q == [] {
      assert (q + [x])[1..] == [];
    } else {
      WireSnoc(q[1..], x);
      assert (q + [x])[1..] == q[1..] + [x];
      Reassociate(Record(q[0].api, q[0].cmd), Wire(q[1..]), Record(x.api, x.cmd));
    }
  }

  ghost function Calls(q: seq<Sent>): seq<Call> {
    seq(|q|, i requires 0 <= i < |q| => q[i].call)
  }

  /** A reader that finds a record gets its id and its command, and leaves the rest. */
  lemma RecordRead(api: nat, cmd: seq<byte>, rest: seq<byte>)
    requires api < MAX_APIS && |cmd| <= BUFFER
    ensures var s := Record(api, cmd) + rest;
      && |s| >= HEADER + |cmd| && FromLe(s[0..4]) == api + 1 && FromLe(s[4..8]) == |cmd|
      && s[HEADER..HEADER + |cmd|] == cmd && s[HEADER + |cmd|..] == rest
  {
    var s := Record(api, cmd) + rest;
    assert s[0..4] == Le(api + 1, 4) && s[4..8] == Le(|cmd|, 4);
    assert Pow256(4) == TWO_32;
    LeRoundTrip(api + 1, 4);
    LeRoundTrip(|cmd|, 4);
  }

  // ----------------------------------------------------------------------- Steps

  predicate HasRecord(toCore: seq<byte>) {
    |toCore| >= HEADER && |toCore| >= HEADER + FromLe(toCore[4..8])
  }

  /** The core plays a command of the table whose fields are all there. */
  ghost predicate Playable(apis: seq<Api>, core: Core) {
    core.Playing? && 1 <= core.id <= |apis| && |core.cmd| >= StructSize(apis[core.id - 1].params)
  }

  /** The internal function gets an address in the client's memory that is not just for its constant data. */
  ghost predicate MayWrite(api: Api) {
    !Inlines(api) && exists i :: 0 <= i < |api.params| && (api.params[i].Pointer? || api.params[i].Nested?)
  }

  /**
   A client that waits takes no other step. Memory changes when the client writes it, or when
   an internal function writes through a pointer it was given.
   */
  ghost predicate Enabled(apis: seq<Api>, s: State, step: Step) {
    match step
    case Write(_) => s.client.Idle?
    case Invoke(api, args) => s.client.Idle? && api < |apis| && CanSend(apis[api], args)
    case Begin => s.core.Polling? && HasRecord(s.toCore)
    case Finish(reply, after) =>
      && Playable(apis, s.core) && |reply| == ReplySize(apis[s.core.id - 1])
      && (after == s.mem || MayWrite(apis[s.core.id - 1]))
    case Resume => s.client.Waiting? && |s.toClient| >= s.client.want
  }

  ghost function DoInvoke(s: State, x: Sent): State {
    s.(toCore := s.toCore + Record(x.api, x.cmd),
       client := if x.wait.Some? then Waiting(x.wait.value) else s.client,
       queue := s.queue + [x], issued := s.issued + [x.call])
  }

  ghost function DoBegin(s: State): State
    requires HasRecord(s.toCore)
  {
    var n := FromLe(s.toCore[4..8]);
    s.(core := Playing(FromLe(s.toCore[0..4]), s.toCore[HEADER..HEADER + n]), toCore := s.toCore[HEADER + n..])
  }

  /** The core has made the call and sends the reply, if any. */
  ghost function DoFinish(s: State, call: Call, reply: seq<byte>, after: Memory): State {
    s.(mem := after, core := Polling, queue := if s.queue == [] then [] else s.queue[1..],
       played := s.played + [call], toClient := s.toClient + reply)
  }

  ghost function PlayedCall(apis: seq<Api>, core: Core, mem: Memory): Call
    requires Playable(apis, core)
  {
    Call(core.id - 1, Decode(apis[core.id - 1], core.cmd, mem))
  }

  ghost predicate PlayedReplies(apis: seq<Api>, core: Core)
    requires Playable(apis, core)
  {
    Replies(apis[core.id - 1], core.cmd)
  }

  ghost function Do(apis: seq<Api>, s: State, step: Step): State
    requires |apis| <= MAX_APIS && Enabled(apis, s, step)
  {
    match step
    case Write(mem) => s.(mem := mem)
    case Invoke(api, args) => DoInvoke(s, NewSent(apis, api, args, s.mem))
    case Begin => DoBegin(s)
    case Finish(reply, after) =>
      DoFinish(s, PlayedCall(apis, s.core, s.mem), if PlayedReplies(apis, s.core) then reply else [], after)
    case Resume => s.(client := Idle, toClient := s.toClient[s.client.want..])
  }

  ghost predicate IsRun(apis: seq<Api>, states: seq<State>, steps: seq<Step>) {
    && GoodApis(apis) && |states| == |steps| + 1
    && (exists mem :: states[0] == State(mem, [], [], Idle, Polling, [], [], []))
    && forall i :: 0 <= i < |steps| ==>
         Enabled(apis, states[i], steps[i]) && states[i + 1] == Do(apis, states[i], steps[i])
  }

  ghost predicate Reachable(apis: seq<Api>, s: State) {
    exists states, steps :: IsRun(apis, states, steps) && states[|steps|] == s
  }

  // ------------------------------------------------------------------- Invariant

  /** The commands still in the stream. */
  ghost function InStream(s: State): seq<Sent>
    requires s.core.Playing? ==> s.queue != []
  {
    if s.core.Playing? then s.queue[1..] else s.queue
  }

  /** The streams hold what the history says. */
  ghost predicate StreamOk(apis: seq<Api>, s: State) {
    && GoodQueue(apis, s.queue)
    && (s.core.Playing? ==> s.queue != [] && s.core.id == s.queue[0].api + 1 && s.core.cmd == s.queue[0].cmd)
    && s.toCore == Wire(InStream(s))
    && s.issued == s.played + Calls(s.queue)
  }

  /** No command among the first n waits. */
  ghost predicate NoWait(q: seq<Sent>, n: nat)
    requires n <= |q|
  {
    forall i :: 0 <= i < n ==> q[i].wait.None?
  }

  /** A waiting client has its reply, or its command is the last one in the queue. */
  ghost predicate WaitOk(s: State) {
    match s.client
    case Idle => s.toClient == [] && NoWait(s.queue, |s.queue|)
    case Waiting(want) =>
      if s.toClient != [] then |s.toClient| == want && s.queue == []
      else
        && want > 0 && s.queue != [] && NoWait(s.queue, |s.queue| - 1)
        && var x := s.queue[|s.queue| - 1]; x.wait == Some(want) && x.mem == s.mem
  }

  ghost predicate Inv(apis: seq<Api>, s: State) {
    StreamOk(apis, s) && WaitOk(s)
  }

  lemma NewSentIsGood(apis: seq<Api>, api: nat, args: seq<Arg>, mem: Memory)
    requires GoodApis(apis) && api < |apis| && CanSend(apis[api], args)
    ensures var x := NewSent(apis, api, args, mem);
      GoodSent(apis, x) && x.mem == mem && (x.wait.Some? ==> x.wait.value > 0)
  {
  }

  lemma InvokeKeepsStream(apis: seq<Api>, s: State, x: Sent)
    requires StreamOk(apis, s) && GoodSent(apis, x)
    ensures StreamOk(apis, DoInvoke(s, x))
  {
    WireSnoc(InStream(s), x);
    var q := s.queue + [x];
    assert s.core.Playing? ==> q[1..] == s.queue[1..] + [x];
    assert Calls(q) == Calls(s.queue) + [x.call];
  }

  lemma InvokeKeepsWait(s: State, x: Sent)
    requires WaitOk(s) && s.client.Idle? && x.mem == s.mem && (x.wait.Some? ==> x.wait.value > 0)
    ensures WaitOk(DoInvoke(s, x))
  {
  }

  /** The first command of the queue, as it stands in the stream. */
  lemma FirstInStream(apis: seq<Api>, s: State)
    requires StreamOk(apis, s) && s.core.Polling? && s.queue != []
    ensures var x := s.queue[0]; var n := |x.cmd|;
      && HasRecord(s.toCore) && FromLe(s.toCore[0..4]) == x.api + 1 && FromLe(s.toCore[4..8]) == n
      && s.toCore[HEADER..HEADER + n] == x.cmd && s.toCore[HEADER + n..] == Wire(s.queue[1..])
  {
    var x := s.queue[0];
    assert GoodSent(apis, x);
    SentFits(apis, x);
    RecordRead(x.api, x.cmd, Wire(s.queue[1..]));
  }

  lemma SentFits(apis: seq<Api>, x: Sent)
    requires GoodSent(apis, x)
    ensures |x.cmd| <= BUFFER
  {
    assert Key(0);
    RecordFits(apis[x.api], x.args, x.mem);
  }

  lemma BeginKeepsInv(apis: seq<Api>, s: State)
    requires Inv(apis, s) && s.core.Polling? && HasRecord(s.toCore)
    ensures Inv(apis, DoBegin(s))
  {
    if s.queue == [] {
      assert false;
    }
    FirstInStream(apis, s);
  }

  /** What playback of command x does, if its memory is still as it was or it does not wait. */
  lemma FinishPlaysSent(apis: seq<Api>, x: Sent, mem: Memory)
    requires GoodSent(apis, x) && (x.wait.Some? ==> mem == x.mem)
    ensures var core := Playing(x.api + 1, x.cmd);
      && Playable(apis, core) && PlayedCall(apis, core, mem) == x.call
      && (PlayedReplies(apis, core) <==> x.wait.Some?)
      && (x.wait.Some? ==> x.wait.value == ReplySize(apis[x.api]))
  {
    assert Key(0);
    PlaybackIsDirectCall(apis[x.api], x.args, x.mem, mem);
    WaitsIffReplies(apis[x.api], x.args, x.mem);
  }

  lemma WriterWaits(apis: seq<Api>, x: Sent)
    requires GoodSent(apis, x) && MayWrite(apis[x.api])
    ensures x.wait.Some?
  {
    assert Key(0);
  }

  lemma ShiftCall(issued: seq<Call>, played: seq<Call>, call: Call, calls: seq<Call>, rest: seq<Call>)
    requires issued == played + calls && calls == [call] + rest
    ensures issued == (played + [call]) + rest
  {
  }

  lemma FinishKeepsStream(apis: seq<Api>, s: State, call: Call, reply: seq<byte>, after: Memory)
    requires StreamOk(apis, s) && s.core.Playing? && call == s.queue[0].call
    ensures StreamOk(apis, DoFinish(s, call, reply, after))
  {
    assert Calls(s.queue) == [s.queue[0].call] + Calls(s.queue[1..]);
    ShiftCall(s.issued, s.played, call, Calls(s.queue), Calls(s.queue[1..]));
  }

  lemma FinishKeepsWait(s: State, call: Call, reply: seq<byte>, after: Memory)
    requires WaitOk(s) && s.queue != []
    requires if s.queue[0].wait.Some? then |reply| == s.queue[0].wait.value else reply == [] && after == s.mem
    ensures WaitOk(DoFinish(s, call, reply, after))
  {
  }

  lemma FinishKeepsInv(apis: seq<Api>, s: State, call: Call, reply: seq<byte>, after: Memory)
    requires Inv(apis, s) && s.core.Playing? && call == s.queue[0].call
    requires if s.queue[0].wait.Some? then |reply| == s.queue[0].wait.value else reply == [] && after == s.mem
    ensures Inv(apis, DoFinish(s, call, reply, after))
  {
    FinishKeepsStream(apis, s, call, reply, after);
    FinishKeepsWait(s, call, reply, after);
  }

  lemma FinishStep(apis: seq<Api>, s: State, reply: seq<byte>, after: Memory)
    requires Inv(apis, s) && Enabled(apis, s, Finish(reply, after))
    ensures |apis| <= MAX_APIS && Inv(apis, Do(apis, s, Finish(reply, after)))
  {
    var x := s.queue[0];
    assert GoodSent(apis, x) && s.core == Playing(x.api + 1, x.cmd);
    assert x.wait.Some? ==> x.mem == s.mem;
    FinishPlaysSent(apis, x, s.mem);
    if after != s.mem {
      WriterWaits(apis, x);
    }
    FinishKeepsInv(apis, s, PlayedCall(apis, s.core, s.mem), if PlayedReplies(apis, s.core) then reply else [], after);
  }

  lemma StepKeepsInv(apis: seq<Api>, s: State, step: Step)
    requires GoodApis(apis) && Inv(apis, s) && Enabled(apis, s, step)
    ensures Inv(apis, Do(apis, s, step))
  {
    match step
    case Write(mem) =>
    case Invoke(api, args) =>
      NewSentIsGood(apis, api, args, s.mem);
      InvokeKeepsStream(apis, s, NewSent(apis, api, args, s.mem));
      InvokeKeepsWait(s, NewSent(apis, api, args, s.mem));
    case Begin =>
      BeginKeepsInv(apis, s);
    case Finish(reply, after) =>
      FinishStep(apis, s, reply, after);
    case Resume =>
  }

  lemma {:induction false} RunKeepsInv(apis: seq<Api>, states: seq<State>, steps: seq<Step>, n: nat)
    requires IsRun(apis, states, steps) && n <= |steps|
    ensures Inv(apis, states[n])
  {
    if n > 0 {
      RunKeepsInv(apis, states, steps, n - 1);
      StepKeepsInv(apis, states[n - 1], steps[n - 1]);
    }
  }

  lemma ReachableKeepsInv(apis: seq<Api>, s: State)
    requires Reachable(apis, s)
    ensures Inv(apis, s)
  {
    var states, steps :| IsRun(apis, states, steps) && states[|steps|] == s;
    RunKeepsInv(apis, states, steps, |steps|);
  }

  // --------------------------------------------------------------- Main results

  /** An internal function that was given a pointer for it to write to may leave the memory in any state. */
  lemma FinishCanWrite(apis: seq<Api>, s: State, reply: seq<byte>, after: Memory, i: nat)
    requires Playable(apis, s.core) && |reply| == ReplySize(apis[s.core.id - 1])
    requires i < |apis[s.core.id - 1].params| && !apis[s.core.id - 1].params[i].Scalar?
    requires apis[s.core.id - 1].params[i] != Pointer(true)
    ensures Enabled(apis, s, Finish(reply, after))
  {
    var p := apis[s.core.id - 1].params[i];
    assert p.Pointer? || p.Nested?;
  }

  /** Playback makes the calls that direct calls would have made, in the same order. */
  lemma PlayedIsIssuedPrefix(apis: seq<Api>, s: State)
    requires Reachable(apis, s)
    ensures s.played <= s.issued
    ensures s.core.Polling? && s.toCore == [] ==> s.played == s.issued
  {
    ReachableKeepsInv(apis, s);
    if s.queue == [] {
      assert Calls(s.queue) == [];
    }
  }

  /**
   The return channel is empty while the client does not wait; a waiting client finds its
   whole reply or nothing; and while there is nothing, its own command is the last to play.
   */
  lemma ReturnChannel(apis: seq<Api>, s: State)
    requires Reachable(apis, s)
    ensures s.client.Idle? ==> s.toClient == []
    ensures s.client.Waiting? && s.toClient != [] ==> |s.toClient| == s.client.want && s.played == s.issued
    ensures s.client.Waiting? && s.toClient == [] ==>
      s.queue != [] && s.queue[|s.queue| - 1].wait == Some(s.client.want)
  {
    ReachableKeepsInv(apis, s);
    if s.queue == [] {
      assert Calls(s.queue) == [];
    }
  }

  /**
   As long as a command has not been played that has a pointer to pointers, or a pointer to data
   that is not in the command, its caller waits, and the caller's memory is as it was.
   */
  lemma LivePointersKeepCallerWaiting(apis: seq<Api>, s: State, i: nat, j: nat)
    requires Reachable(apis, s) && i < |s.queue| && j < |s.queue[i].args|
    requires NeedsCaller(s.queue[i].args[j], s.queue[i].cmd, s.queue[i].mem)
    ensures s.client.Waiting? && s.mem == s.queue[i].mem
  {
    ReachableKeepsInv(apis, s);
    assert GoodSent(apis, s.queue[i]);
    NeedyWaits(apis, s.queue[i], j);
  }

  lemma NeedyWaits(apis: seq<Api>, x: Sent, j: nat)
    requires GoodSent(apis, x) && j < |x.args| && NeedsCaller(x.args[j], x.cmd, x.mem)
    ensures x.wait.Some?
  {
    assert Key(0);
    NeedsCallerWaits(apis[x.api], x.args, x.mem, j);
  }

  /** So does the caller of an entry that returns something, is marked sync, or may write the caller's memory. */
  lemma AnswersKeepCallerWaiting(apis: seq<Api>, s: State, i: nat)
    requires Reachable(apis, s) && i < |s.queue|
    ensures s.queue[i].api < |apis|
    ensures var api := apis[s.queue[i].api];
      api.ret.Some? || api.sync || MayWrite(api) ==> s.client.Waiting? && s.mem == s.queue[i].mem
  {
    ReachableKeepsInv(apis, s);
    assert GoodSent(apis, s.queue[i]);
    AnswerWaits(apis, s.queue[i]);
  }

  lemma AnswerWaits(apis: seq<Api>, x: Sent)
    requires GoodSent(apis, x)
    ensures apis[x.api].ret.Some? || apis[x.api].sync || MayWrite(apis[x.api]) ==> x.wait.Some?
  {
    assert Key(0);
    WaitsExactly(apis[x.api], x.args);
  }

  /** A waiting client is never stuck: it can resume, or the core can begin or finish a command. */
  lemma WaitingIsNotStuck(apis: seq<Api>, s: State)
    requires Reachable(apis, s) && s.client.Waiting?
    ensures s.toClient != [] ==> |s.toClient| >= s.client.want
    ensures s.toClient == [] && s.core.Polling? ==> HasRecord(s.toCore)
    ensures s.toClient == [] && s.core.Playing? ==> Playable(apis, s.core)
  {
    ReachableKeepsInv(apis, s);
    if s.toClient == [] && s.core.Playing? {
      assert GoodSent(apis, s.queue[0]);
      FinishPlaysSent(apis, s.queue[0], s.queue[0].mem);
    } else if s.toClient == [] {
      FirstInStream(apis, s);
    }
  }
}
