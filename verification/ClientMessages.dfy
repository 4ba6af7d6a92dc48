/**
 Messages from the core to the client (rsThreadIO.cpp, rsContext.cpp, cpp/RenderScript.cpp):
 senders take a mutex and write a header and a payload; the client reads a header, makes
 room, and reads the payload.
 */
module ClientMessages {
  import opened Common
  import opened Bytes

  type Data = seq<byte>

  const HEADER: nat := 12

  /** ClientCmdHeader. */
  datatype Header = Header(cmd: u32, bytes: u32, user: u32)

  datatype Message = Message(cmd: u32, user: u32, payload: Data)

  /** The length is cut to 32 bits. */
  function HeaderOf(m: Message): Header {
    Header(m.cmd, |m.payload| % TWO_32, m.user)
  }

  function HeaderBytes(h: Header): (s: Data)
    ensures |s| == HEADER
  {
    Le(h.cmd, 4) + Le(h.bytes, 4) + Le(h.user, 4)
  }

  function MessageBytes(m: Message): Data {
    HeaderBytes(HeaderOf(m)) + m.payload
  }

  /** The header in the first bytes of the stream. */
  function ParseHeader(s: Data): Header
    requires |s| >= HEADER
  {
    Header(FromLe(s[..4]) % TWO_32, FromLe(s[4..8]) % TWO_32, FromLe(s[8..12]) % TWO_32)
  }

  lemma HeaderRoundTrip(h: Header, rest: Data)
    ensures ParseHeader(HeaderBytes(h) + rest) == h && (HeaderBytes(h) + rest)[HEADER..] == rest
  {
    var s := HeaderBytes(h) + rest;
    assert s[..4] == Le(h.cmd, 4) && s[4..8] == Le(h.bytes, 4) && s[8..12] == Le(h.user, 4);
    assert Pow256(4) == TWO_32;
    LeRoundTrip(h.cmd, 4);
    LeRoundTrip(h.bytes, 4);
    LeRoundTrip(h.user, 4);
  }

  /** How RS::threadProc makes room for a payload of n bytes. */
  function NextBuffer(size: nat, n: nat): nat {
    if n >= size then n + 32 else size
  }

  // ---------------------------------------------------------------- The operations

  /** The stream to the client, and mLastClientHeader. */
  class Channel {
    var stream: Data
    var last: Header

    constructor ()
      ensures stream == []
    {
      stream, last := [], Header(0, 0, 0);
    }

    /** ThreadIO::sendToClient. */
    method SendToClient(m: Message)
      modifies this`stream
      ensures stream == old(stream) + MessageBytes(m)
    {
      stream := stream + HeaderBytes(HeaderOf(m));
      if |m.payload| != 0 {
        stream := stream + m.payload;
      }
    }

    /** ThreadIO::getClientHeader, once there is a header. */
    method GetClientHeader()
      requires |stream| >= HEADER
      modifies this
      ensures last == ParseHeader(old(stream)) && stream == old(stream)[HEADER..]
    {
      last := ParseHeader(stream);
      stream := stream[HEADER..];
    }

    /** ThreadIO::getClientPayload, once the payload is there; None stands for RESIZE. */
    method GetClientPayload(bufferLen: nat) returns (r: Option<Message>)
      requires |stream| >= last.bytes
      modifies this`stream
      ensures if bufferLen < last.bytes then r == None && stream == old(stream)
              else
                && r == Some(Message(last.cmd, last.user, old(stream)[..last.bytes]))
                && stream == old(stream)[last.bytes..]
    {
      if bufferLen < last.bytes {
        return None;
      }
      r := Some(Message(last.cmd, last.user, stream[..last.bytes]));
      stream := stream[last.bytes..];
    }

    /**
     One round of RS::threadProc: the buffer always has room, and the next message comes out whole
     exactly when it has fewer than 2^32 bytes.
     */
    method Receive(rbufSize: nat, ghost m: Message, ghost rest: Data) returns (rbufSize': nat, r: Option<Message>)
      requires stream == MessageBytes(m) + rest
      modifies this
      ensures r.Some? && (r == Some(m) <==> |m.payload| < TWO_32)
      ensures r == Some(m) ==> stream == rest && rbufSize' > |m.payload|
    {
      assert stream == HeaderBytes(HeaderOf(m)) + (m.payload + rest);
      HeaderRoundTrip(HeaderOf(m), m.payload + rest);
      GetClientHeader();
      rbufSize' := NextBuffer(rbufSize, last.bytes);
      assert |m.payload| < TWO_32 ==>
        (m.payload + rest)[..|m.payload|] == m.payload && (m.payload + rest)[|m.payload|..] == rest;
      r := GetClientPayload(rbufSize');
    }
  }

  // ------------------------------------------------- Senders and client interleaved

  type Tid = nat

  /** A sender waits for the mutex, holds it, or has written the header. */
  datatype Sender = Ready(msg: Message) | Holding(msg: Message) | Headed(msg: Message) | Done

  datatype Client = Reading | Peeked(header: Header)

  /** sent lists the messages in the order in which their senders wrote the header, and received those that came out. */
  datatype State = State(stream: Data, mutex: Option<Tid>, senders: map<Tid, Sender>, client: Client,
                         sent: seq<Message>, received: seq<Message>)

  datatype Step = Start(t: Tid, msg: Message) | Lock(t: Tid) | PutHeader(t: Tid) | PutPayload(t: Tid) | Unlock(t: Tid)
                | Peek | Get(bufferLen: nat)

  ghost predicate Enabled(s: State, step: Step) {
    match step
    case Start(t, msg) => (t !in s.senders || (s.senders[t].Done? && s.mutex != Some(t))) && |msg.payload| < TWO_32
    case Lock(t) => t in s.senders && s.senders[t].Ready? && s.mutex == None
    case PutHeader(t) => t in s.senders && s.senders[t].Holding?
    case PutPayload(t) => t in s.senders && s.senders[t].Headed?
    case Unlock(t) => t in s.senders && s.senders[t].Done? && s.mutex == Some(t)
    case Peek => s.client.Reading? && |s.stream| >= HEADER
    case Get(_) => s.client.Peeked? && |s.stream| >= s.client.header.bytes
  }

  ghost function Do(s: State, step: Step): State
    requires Enabled(s, step)
  {
    match step
    case Start(t, msg) => s.(senders := s.senders[t := Ready(msg)])
    case Lock(t) => s.(mutex := Some(t), senders := s.senders[t := Holding(s.senders[t].msg)])
    case PutHeader(t) =>
      var m := s.senders[t].msg;
      s.(stream := s.stream + HeaderBytes(HeaderOf(m)), senders := s.senders[t := Headed(m)], sent := s.sent + [m])
    case PutPayload(t) => s.(stream := s.stream + s.senders[t].msg.payload, senders := s.senders[t := Done])
    case Unlock(t) => s.(mutex := None)
    case Peek => s.(client := Peeked(ParseHeader(s.stream)), stream := s.stream[HEADER..])
    case Get(bufferLen) =>
      var h := s.client.header;
      if bufferLen < h.bytes then s
      else s.(client := Reading, stream := s.stream[h.bytes..],
              received := s.received + [Message(h.cmd, h.user, s.stream[..h.bytes])])
  }

  ghost predicate IsRun(states: seq<State>, steps: seq<Step>) {
    && |states| == |steps| + 1 && states[0] == State([], None, map[], Reading, [], [])
    && forall i :: 0 <= i < |steps| ==> Enabled(states[i], steps[i]) && states[i + 1] == Do(states[i], steps[i])
  }

  ghost predicate Reachable(s: State) {
    exists states, steps :: IsRun(states, steps) && states[|steps|] == s
  }

  // --------------------------------------------------------------------- Invariant

  function Wire(ms: seq<Message>): Data {
    if ms == [] then [] else MessageBytes(ms[0]) + Wire(ms[1..])
  }

  lemma {:induction false} WireSnoc(ms: seq<Message>, m: Message)
    ensures Wire(ms + [m]) == Wire(ms) + MessageBytes(m)
    decreases |ms|
  {
    if ms == [] {
      assert (ms + [m])[1..] == [];
    } else {
      assert (ms + [m])[1..] == ms[1..] + [m];
      WireSnoc(ms[1..], m);
      Reassociate(MessageBytes(ms[0]), Wire(ms[1..]), MessageBytes(m));
    }
  }

  /** Only the owner of the mutex is between taking it and having written its message. */
  ghost predicate MutexOk(s: State) {
    && (forall t :: t in s.senders && (s.senders[t].Holding? || s.senders[t].Headed?) ==> s.mutex == Some(t))
    && (forall t :: t in s.senders && !s.senders[t].Done? ==> |s.senders[t].msg.payload| < TWO_32)
    && (s.mutex.Some? ==> s.mutex.value in s.senders && !s.senders[s.mutex.value].Ready?)
  }

  /** The payload that the owner of the mutex has still to write. */
  ghost function Missing(s: State): Data {
    if s.mutex.Some? && s.mutex.value in s.senders && s.senders[s.mutex.value].Headed?
    then s.senders[s.mutex.value].msg.payload else []
  }

  /** What the client still has to read of these messages. */
  ghost function Unread(client: Client, pending: seq<Message>): Data {
    if client.Reading? || pending == [] then Wire(pending) else pending[0].payload + Wire(pending[1..])
  }

  ghost predicate StreamOk(s: State, pending: seq<Message>) {
    && s.sent == s.received + pending
    && (forall i :: 0 <= i < |pending| ==> |pending[i].payload| < TWO_32)
    && (s.client.Peeked? ==> pending != [] && s.client.header == HeaderOf(pending[0]))
    && s.stream + Missing(s) == Unread(s.client, pending)
  }

  ghost predicate Inv(s: State) {
    MutexOk(s) && exists pending :: StreamOk(s, pending)
  }

  lemma UnreadSnoc(client: Client, pending: seq<Message>, m: Message)
    requires client.Peeked? ==> pending != []
    ensures Unread(client, pending + [m]) == Unread(client, pending) + MessageBytes(m)
  {
    if client.Reading? {
      WireSnoc(pending, m);
    } else {
      assert (pending + [m])[1..] == pending[1..] + [m];
      WireSnoc(pending[1..], m);
      Reassociate(pending[0].payload, Wire(pending[1..]), MessageBytes(m));
    }
  }

  lemma PutHeaderKeeps(s: State, t: Tid, pending: seq<Message>)
    requires MutexOk(s) && StreamOk(s, pending) && Enabled(s, PutHeader(t))
    ensures MutexOk(Do(s, PutHeader(t))) && StreamOk(Do(s, PutHeader(t)), pending + [s.senders[t].msg])
  {
    var m, s' := s.senders[t].msg, Do(s, PutHeader(t));
    UnreadSnoc(s.client, pending, m);
    assert Missing(s) == [] && s.stream + [] == s.stream;
    assert s'.mutex == Some(t) && Missing(s') == m.payload;
    Reassociate(s.stream, HeaderBytes(HeaderOf(m)), m.payload);
  }

  lemma PutPayloadKeeps(s: State, t: Tid, pending: seq<Message>)
    requires MutexOk(s) && StreamOk(s, pending) && Enabled(s, PutPayload(t))
    ensures MutexOk(Do(s, PutPayload(t))) && StreamOk(Do(s, PutPayload(t)), pending)
  {
    var s' := Do(s, PutPayload(t));
    assert Missing(s) == s.senders[t].msg.payload && Missing(s') == [];
    assert s'.stream + [] == s'.stream;
  }

  /** A prefix of a concatenation that is long enough starts with the first part. */
  lemma TakeFirst(s: Data, rest: Data, a: Data, b: Data)
    requires s + rest == a + b && |s| >= |a|
    ensures s[..|a|] == a && s[|a|..] + rest == b
  {
    assert (s + rest)[..|a|] == s[..|a|] && (a + b)[..|a|] == a;
    assert (s + rest)[|a|..] == s[|a|..] + rest && (a + b)[|a|..] == b;
  }

  lemma PeekKeeps(s: State, pending: seq<Message>)
    requires MutexOk(s) && StreamOk(s, pending) && Enabled(s, Peek)
    ensures MutexOk(Do(s, Peek)) && StreamOk(Do(s, Peek), pending)
  {
    if pending == [] {
      assert false;
    }
    var h := HeaderBytes(HeaderOf(pending[0]));
    Reassociate(h, pending[0].payload, Wire(pending[1..]));
    TakeFirst(s.stream, Missing(s), h, pending[0].payload + Wire(pending[1..]));
    HeaderRoundTrip(HeaderOf(pending[0]), s.stream[HEADER..]);
    assert s.stream == h + s.stream[HEADER..];
  }

  lemma GetKeeps(s: State, bufferLen: nat, pending: seq<Message>)
    requires MutexOk(s) && StreamOk(s, pending) && Enabled(s, Get(bufferLen)) && bufferLen >= s.client.header.bytes
    ensures MutexOk(Do(s, Get(bufferLen))) && pending != [] && StreamOk(Do(s, Get(bufferLen)), pending[1..])
  {
    var h, m := s.client.header, pending[0];
    TakeFirst(s.stream, Missing(s), m.payload, Wire(pending[1..]));
    assert Message(h.cmd, h.user, s.stream[..h.bytes]) == m;
    MoveFirst(s.received, pending);
  }

  lemma MoveFirst(received: seq<Message>, pending: seq<Message>)
    requires pending != []
    ensures received + pending == received + [pending[0]] + pending[1..]
  {
  }

  /** Steps that neither write nor read. */
  lemma {:induction false} QuietKeeps(s: State, step: Step, pending: seq<Message>)
    requires MutexOk(s) && StreamOk(s, pending) && Enabled(s, step) && (step.Start? || step.Lock? || step.Unlock?)
    ensures MutexOk(Do(s, step)) && StreamOk(Do(s, step), pending)
  {
    assert Missing(Do(s, step)) == Missing(s);
  }

  lemma {:induction false} StepKeepsInv(s: State, step: Step)
    requires Inv(s) && Enabled(s, step)
    ensures Inv(Do(s, step))
  {
    var pending :| StreamOk(s, pending);
    match step
    case Start(_, _) =>
      QuietKeeps(s, step, pending);
    case Lock(_) =>
      QuietKeeps(s, step, pending);
    case PutHeader(t) =>
      PutHeaderKeeps(s, t, pending);
    case PutPayload(t) =>
      PutPayloadKeeps(s, t, pending);
    case Unlock(_) =>
      QuietKeeps(s, step, pending);
    case Peek =>
      PeekKeeps(s, pending);
    case Get(bufferLen) =>
      if bufferLen >= s.client.header.bytes {
        GetKeeps(s, bufferLen, pending);
      }
  }

  lemma {:induction false} RunKeepsInv(states: seq<State>, steps: seq<Step>, n: nat)
    requires IsRun(states, steps) && n <= |steps|
    ensures Inv(states[n])
  {
    if n == 0 {
      assert StreamOk(states[0], []);
    } else {
      RunKeepsInv(states, steps, n - 1);
      StepKeepsInv(states[n - 1], steps[n - 1]);
    }
  }

  // ------------------------------------------------------------------- Main results

  /** Messages come out whole, in the order of the mutex, and all of them once nothing is under way. */
  lemma ReceivedIsSentPrefix(s: State)
    requires Reachable(s)
    ensures s.received <= s.sent
    ensures s.stream == [] && s.client.Reading? && s.mutex == None ==> s.received == s.sent
  {
    var pending := PendingOf(s);
    if pending != [] {
      assert |Wire(pending)| >= HEADER;
    }
  }

  /** Too small a buffer changes nothing; any other one gets the whole next message. */
  lemma ResizeLosesNothing(s: State, bufferLen: nat)
    requires Reachable(s) && Enabled(s, Get(bufferLen))
    ensures |s.sent| > |s.received|
    ensures if bufferLen < |s.sent[|s.received|].payload| then Do(s, Get(bufferLen)) == s
            else Do(s, Get(bufferLen)).received == s.received + [s.sent[|s.received|]]
  {
    var pending := PendingOf(s);
    TakeFirst(s.stream, Missing(s), pending[0].payload, Wire(pending[1..]));
  }

  lemma PendingOf(s: State) returns (pending: seq<Message>)
    requires Reachable(s)
    ensures StreamOk(s, pending) && (pending != [] ==> |s.sent| > |s.received| && pending[0] == s.sent[|s.received|])
  {
    var states, steps :| IsRun(states, steps) && states[|steps|] == s;
    RunKeepsInv(states, steps, |steps|);
    pending :| StreamOk(s, pending);
  }

  /** While no sender is at work and a message is left, the client can read on. */
  lemma ClientIsNotStuck(s: State, bufferLen: nat)
    requires Reachable(s) && s.mutex == None && |s.received| < |s.sent|
    ensures Enabled(s, if s.client.Reading? then Peek else Get(bufferLen))
  {
    var pending := PendingOf(s);
    assert s.stream + [] == s.stream;
  }

  /** With the room that RS::threadProc makes after peeking, the answer is never RESIZE. */
  lemma ThreadProcNeverResizes(s: State, size: nat)
    requires Reachable(s) && s.client.Peeked?
    ensures NextBuffer(size, s.client.header.bytes) >= s.client.header.bytes
    ensures |s.sent| > |s.received| && s.client.header == HeaderOf(s.sent[|s.received|])
    ensures s.client.header.bytes == |s.sent[|s.received|].payload|
  {
    var pending := PendingOf(s);
  }
}
