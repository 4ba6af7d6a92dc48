/**
 The two halves of a command (rsg_generator.c): the client stub that fills a record, and
 the playback function that calls the internal function from it.
 */
module CommandCodec {
  import opened Common
  import opened Bytes

  /** Size of a pointer and of size_t. */
  const WORD: nat := 8
  const MAX_INLINE: nat := 1024
  const BUFFER: nat := 2048
  const HEADER: nat := 8
  const MAX_PARAMS: nat := 16

  // ---------------------------------------------------------------- API entries

  /**
   A parameter with the length parameters that follow it: none for a scalar, one for a
   pointer, and two for a pointer to pointers.
   */
  datatype Param = Scalar(width: nat) | Pointer(isConst: bool) | Nested(isConst: bool) {
    function Size(): nat {
      match this
      case Scalar(w) => w
      case Pointer(_) => 2 * WORD
      case Nested(_) => 3 * WORD
    }
    function Count(): nat {
      match this
      case Scalar(_) => 1
      case Pointer(_) => 2
      case Nested(_) => 3
    }
  }

  /** ret is the size of the returned value. */
  datatype Api = Api(params: seq<Param>, ret: Option<nat>, sync: bool)

  datatype Arg = ScalarArg(data: seq<byte>) | PointerArg(addr: nat, len: nat)
               | NestedArg(ptrs: nat, count: nat, lens: nat)

  function StructSize(ps: seq<Param>): nat {
    if ps == [] then 0 else ps[0].Size() + StructSize(ps[1..])
  }

  function ParamCount(ps: seq<Param>): nat {
    if ps == [] then 0 else ps[0].Count() + ParamCount(ps[1..])
  }

  ghost predicate GoodApi(api: Api) {
    && ParamCount(api.params) <= MAX_PARAMS
    && (forall i :: 0 <= i < |api.params| && api.params[i].Scalar? ==> api.params[i].width <= WORD)
    && (api.ret.Some? ==> api.ret.value > 0)
  }

  ghost predicate GoodArg(p: Param, a: Arg) {
    match p
    case Scalar(w) => a.ScalarArg? && |a.data| == w
    case Pointer(_) => a.PointerArg? && a.addr < Pow256(WORD) && a.len < Pow256(WORD)
    case Nested(_) => a.NestedArg? && a.ptrs < Pow256(WORD) && a.count < Pow256(WORD) && a.lens < Pow256(WORD)
  }

  ghost predicate GoodArgs(ps: seq<Param>, args: seq<Arg>) {
    |args| == |ps| && forall i :: 0 <= i < |ps| ==> GoodArg(ps[i], args[i])
  }

  lemma GoodTail(ps: seq<Param>, args: seq<Arg>)
    requires GoodArgs(ps, args) && ps != []
    ensures GoodArg(ps[0], args[0]) && GoodArgs(ps[1..], args[1..])
  {
  }

  // --------------------------------------------- Which entries inline their data

  /** All pointers are to constants and there is one. */
  ghost predicate InlineParams(ps: seq<Param>) {
    && (forall i :: 0 <= i < |ps| ==> ps[i].Scalar? || ps[i] == Pointer(true))
    && (exists i :: 0 <= i < |ps| && ps[i] == Pointer(true))
  }

  /** The emitted stub may inline pointed-to data. */
  ghost predicate Inlines(api: Api) {
    !api.sync && api.ret.None? && InlineParams(api.params)
  }

  /** hasInlineDataPointers. */
  method HasInlineDataPointers(api: Api) returns (r: bool)
    ensures r <==> Inlines(api)
  {
    r := false;
    if api.sync || api.ret.Some? {
      return false;
    }
    var ct := 0;
    while ct < |api.params|
      invariant 0 <= ct <= |api.params|
      invariant forall i :: 0 <= i < ct ==> api.params[i].Scalar? || api.params[i] == Pointer(true)
      invariant r <==> exists i :: 0 <= i < ct && api.params[i] == Pointer(true)
    {
      var vt := api.params[ct];
      if !vt.Scalar? && !vt.isConst {
        return false;
      }
      if vt.Nested? {
        return false;
      }
      if vt.Pointer? {
        r := true;
      }
      ct := ct + 1;
    }
  }

  // ----------------------------------------------------------------- Memory

  type Memory = map<nat, byte>

  function Fetch(mem: Memory, a: nat, n: nat): (s: seq<byte>)
    ensures |s| == n
  {
    seq(n, i requires 0 <= i < n => if a + i in mem then mem[a + i] else 0)
  }

  lemma FetchBytes(mem: Memory, a: nat, n: nat, i: nat)
    requires i < n && a + i in mem
    ensures Fetch(mem, a, n)[i] == mem[a + i]
  {
  }

  // ------------------------------------------------------------ What a call sees

  /** What the internal function gets for one parameter. */
  datatype View = Value(data: seq<byte>) | Null | Data(bytes: seq<byte>) | Raw(addr: nat, len: nat)
                | RawNested(ptrs: nat, count: nat, lens: nat)

  /**
   The direct call. A constant pointer of an inlining entry matters only for the bytes it
   points to, and not at all when there are none.
   */
  function DirectView(a: Arg, inlines: bool, mem: Memory): View {
    match a
    case ScalarArg(data) => Value(data)
    case PointerArg(addr, len) =>
      if !inlines then Raw(addr, len) else if len == 0 then Null else Data(Fetch(mem, addr, len))
    case NestedArg(ptrs, count, lens) => RawNested(ptrs, count, lens)
  }

  /**
   Scalars are passed as they are; raw pointers with address and length; and of a pointer whose
   data may be inlined, each of its bytes.
   */
  lemma DirectViewMeans(a: Arg, inlines: bool, mem: Memory)
    ensures a.ScalarArg? ==> DirectView(a, inlines, mem) == Value(a.data)
    ensures a.NestedArg? ==> DirectView(a, inlines, mem) == RawNested(a.ptrs, a.count, a.lens)
    ensures a.PointerArg? && !inlines ==> DirectView(a, inlines, mem) == Raw(a.addr, a.len)
    ensures a.PointerArg? && inlines && a.len > 0 ==>
      var view := DirectView(a, inlines, mem);
      && view.Data? && |view.bytes| == a.len
      && forall i :: 0 <= i < a.len && a.addr + i in mem ==> view.bytes[i] == mem[a.addr + i]
  {
  }

  function DirectViews(args: seq<Arg>, inlines: bool, mem: Memory): seq<View> {
    seq(|args|, i requires 0 <= i < |args| => DirectView(args[i], inlines, mem))
  }

  // ------------------------------------------------------------------- Encoding

  function ArgData(a: Arg): nat {
    if a.PointerArg? then a.len else 0
  }

  function DataSize(args: seq<Arg>): nat {
    if args == [] then 0 else ArgData(args[0]) + DataSize(args[1..])
  }

  /** How pointers are sent: as they are, as payload offsets, or as they are for lack of room. */
  datatype Mode = Plain | Inline | Far

  /** The fields of one parameter; `at` is where its data starts in the payload. */
  function Field(a: Arg, at: nat, mode: Mode): seq<byte> {
    match a
    case ScalarArg(data) => data
    case PointerArg(addr, len) =>
      (if mode.Plain? || (mode.Far? && len > 0) then Le(addr, WORD)
       else if len == 0 then Le(0, WORD)
       else Le(at, WORD)) + Le(len, WORD)
    case NestedArg(ptrs, count, lens) => Le(ptrs, WORD) + Le(count, WORD) + Le(lens, WORD)
  }

  function Fields(args: seq<Arg>, at: nat, mode: Mode): seq<byte> {
    if args == [] then [] else Field(args[0], at, mode) + Fields(args[1..], at + ArgData(args[0]), mode)
  }

  function DataOf(a: Arg, mem: Memory): seq<byte> {
    if a.PointerArg? then Fetch(mem, a.addr, a.len) else []
  }

  /** The data of all pointers, one after the other. */
  function Payload(args: seq<Arg>, mem: Memory): seq<byte> {
    if args == [] then [] else DataOf(args[0], mem) + Payload(args[1..], mem)
  }

  ghost function ModeOf(api: Api, args: seq<Arg>): Mode {
    if !Inlines(api) then Plain else if DataSize(args) < MAX_INLINE then Inline else Far
  }

  /** The command that the stub leaves in the send buffer, after the header. */
  ghost function Encode(api: Api, args: seq<Arg>, mem: Memory): seq<byte> {
    var mode := ModeOf(api, args);
    Fields(args, 0, mode) + if mode.Inline? then Payload(args, mem) else []
  }

  // ------------------------------------------------------------------- Decoding

  /** Playback of one parameter from its fields; base is the payload, if there is one. */
  function FieldView(p: Param, cmd: seq<byte>, base: Option<seq<byte>>, inlines: bool, mem: Memory): View
    requires |cmd| >= p.Size()
  {
    match p
    case Scalar(w) => Value(cmd[..w])
    case Pointer(_) =>
      var ptr, len := FromLe(cmd[..WORD]), FromLe(cmd[WORD..2 * WORD]);
      if !inlines then Raw(ptr, len)
      else if len == 0 then Null
      else (match base case Some(b) => Data(Slice(b, ptr, len)) case None => Data(Fetch(mem, ptr, len)))
    case Nested(_) =>
      RawNested(FromLe(cmd[..WORD]), FromLe(cmd[WORD..2 * WORD]), FromLe(cmd[2 * WORD..3 * WORD]))
  }

  function FieldViews(ps: seq<Param>, cmd: seq<byte>, base: Option<seq<byte>>, inlines: bool, mem: Memory): seq<View>
    requires |cmd| >= StructSize(ps)
  {
    if ps == [] then []
    else [FieldView(ps[0], cmd, base, inlines, mem)] + FieldViews(ps[1..], cmd[ps[0].Size()..], base, inlines, mem)
  }

  ghost function BaseOf(api: Api, cmd: seq<byte>): Option<seq<byte>>
    requires |cmd| >= StructSize(api.params)
  {
    if Inlines(api) && |cmd| != StructSize(api.params) then Some(cmd[StructSize(api.params)..]) else None
  }

  /** What playback of the command passes to the internal function. */
  ghost function Decode(api: Api, cmd: seq<byte>, mem: Memory): seq<View>
    requires |cmd| >= StructSize(api.params)
  {
    FieldViews(api.params, cmd, BaseOf(api, cmd), Inlines(api), mem)
  }

  // ------------------------------------------------------------------ Round trip

  lemma FieldSize(p: Param, a: Arg, at: nat, mode: Mode)
    requires GoodArg(p, a)
    ensures |Field(a, at, mode)| == p.Size()
  {
  }

  lemma {:induction false} FieldsSize(ps: seq<Param>, args: seq<Arg>, at: nat, mode: Mode)
    requires GoodArgs(ps, args)
    ensures |Fields(args, at, mode)| == StructSize(ps)
    decreases |ps|
  {
    if ps != [] {
      GoodTail(ps, args);
      FieldSize(ps[0], args[0], at, mode);
      FieldsSize(ps[1..], args[1..], at + ArgData(args[0]), mode);
    }
  }

  lemma {:induction false} PayloadSize(args: seq<Arg>, mem: Memory)
    ensures |Payload(args, mem)| == DataSize(args)
    decreases |args|
  {
    if args != [] {
      PayloadSize(args[1..], mem);
    }
  }

  ghost predicate IsField(a: Arg, at: nat, mode: Mode, field: seq<byte>) {
    forall k :: Key(k) ==> field == Field(a, at, mode)
  }

  ghost predicate AreFields(args: seq<Arg>, at: nat, mode: Mode, fields: seq<byte>) {
    forall k :: Key(k) ==> fields == Fields(args, at, mode)
  }

  lemma FieldsSplit(ps: seq<Param>, args: seq<Arg>, fields: seq<byte>, at: nat, mode: Mode)
    returns (head: seq<byte>, tail: seq<byte>)
    requires GoodArgs(ps, args) && ps != [] && AreFields(args, at, mode, fields)
    ensures fields == head + tail && |head| == ps[0].Size() && |tail| == StructSize(ps[1..])
    ensures IsField(args[0], at, mode, head) && AreFields(args[1..], at + ArgData(args[0]), mode, tail)
    ensures GoodArg(ps[0], args[0]) && GoodArgs(ps[1..], args[1..])
  {
    assert Key(0);
    GoodTail(ps, args);
    FieldSize(ps[0], args[0], at, mode);
    FieldsSize(ps[1..], args[1..], at + ArgData(args[0]), mode);
    head, tail := Field(args[0], at, mode), Fields(args[1..], at + ArgData(args[0]), mode);
  }

  /** What the decoder needs besides the fields, for data that starts at `at` in the payload. */
  ghost predicate Supplies(base: Option<seq<byte>>, at: nat, args: seq<Arg>, mode: Mode, mem: Memory, mem': Memory) {
    forall k :: KeyAt(|args|, k) ==>
      && (mode.Far? ==> base.None? && mem == mem')
      && (mode.Inline? && DataSize(args) > 0 ==>
            && base.Some? && at + DataSize(args) <= |base.value| < Pow256(WORD)
            && base.value[at..at + DataSize(args)] == Payload(args, mem))
  }

  /** One parameter comes back as the direct call has it. */
  lemma FieldRoundTrip(p: Param, a: Arg, head: seq<byte>, rest: seq<byte>, at: nat, mode: Mode, base: Option<seq<byte>>,
                       mem: Memory, mem': Memory)
    requires GoodArg(p, a) && Supplies(base, at, [a], mode, mem, mem') && IsField(a, at, mode, head)
    ensures |head| == p.Size()
    ensures FieldView(p, head + rest, base, !mode.Plain?, mem') == DirectView(a, !mode.Plain?, mem)
  {
    assert Key(0);
    var cmd := head + rest;
    match a
    case ScalarArg(data) =>
      assert cmd[..|data|] == data;
    case PointerArg(addr, len) =>
      PointerRoundTrip(p, a, rest, at, mode, base, mem, mem');
    case NestedArg(ptrs, count, lens) =>
      assert cmd[..WORD] == Le(ptrs, WORD) && cmd[WORD..2 * WORD] == Le(count, WORD);
      assert cmd[2 * WORD..3 * WORD] == Le(lens, WORD);
      LeRoundTrip(ptrs, WORD);
      LeRoundTrip(count, WORD);
      LeRoundTrip(lens, WORD);
  }

  lemma PointerRoundTrip(p: Param, a: Arg, rest: seq<byte>, at: nat, mode: Mode, base: Option<seq<byte>>,
                         mem: Memory, mem': Memory)
    requires GoodArg(p, a) && a.PointerArg? && Supplies(base, at, [a], mode, mem, mem')
    ensures |Field(a, at, mode)| == p.Size()
    ensures FieldView(p, Field(a, at, mode) + rest, base, !mode.Plain?, mem') == DirectView(a, !mode.Plain?, mem)
  {
    assert KeyAt(1, 0);
    var addr, len := a.addr, a.len;
    SingleArg(a, mem);
    LeRoundTrip(len, WORD);
    if mode.Plain? || (mode.Far? && len > 0) {
      TwoWords(Le(addr, WORD), Le(len, WORD), rest);
      LeRoundTrip(addr, WORD);
    } else if len > 0 {
      TwoWords(Le(at, WORD), Le(len, WORD), rest);
      LeRoundTrip(at, WORD);
    } else {
      TwoWords(Le(0, WORD), Le(len, WORD), rest);
    }
  }

  lemma TwoWords(a: seq<byte>, b: seq<byte>, rest: seq<byte>)
    requires |a| == |b| == WORD
    ensures (a + b + rest)[..WORD] == a && (a + b + rest)[WORD..2 * WORD] == b
  {
  }

  lemma SuppliesParts(base: Option<seq<byte>>, at: nat, args: seq<Arg>, mode: Mode, mem: Memory, mem': Memory)
    requires args != [] && Supplies(base, at, args, mode, mem, mem')
    ensures Supplies(base, at, [args[0]], mode, mem, mem')
    ensures Supplies(base, at + ArgData(args[0]), args[1..], mode, mem, mem')
  {
    assert KeyAt(|args|, 0);
    var a := args[0];
    SingleArg(a, mem);
    if mode.Inline? && DataSize(args) > 0 {
      PayloadSize(args[1..], mem);
      PayloadSize([a], mem);
      SliceParts(base.value, at, DataOf(a, mem), Payload(args[1..], mem));
    }
  }

  lemma SingleArg(a: Arg, mem: Memory)
    ensures DataSize([a]) == ArgData(a) && Payload([a], mem) == DataOf(a, mem)
  {
    assert [a][1..] == [];
    assert Payload([a], mem) == DataOf(a, mem) + Payload([], mem);
    assert DataSize([a]) == ArgData(a) + DataSize([]);
  }

  lemma SliceParts(s: seq<byte>, at: nat, x: seq<byte>, y: seq<byte>)
    requires at + |x| + |y| <= |s| && s[at..at + |x| + |y|] == x + y
    ensures s[at..at + |x|] == x && s[at + |x|..at + |x| + |y|] == y
  {
    var p := s[at..at + |x| + |y|];
    assert p[..|x|] == s[at..at + |x|] && p[|x|..] == s[at + |x|..at + |x| + |y|];
  }

  lemma ViewsFromParts(ps: seq<Param>, args: seq<Arg>, cmd: seq<byte>, head: seq<byte>, tail: seq<byte>,
                       base: Option<seq<byte>>, inlines: bool, mem: Memory, mem': Memory)
    requires ps != [] && args != [] && cmd == head + tail && |head| == ps[0].Size() && |tail| >= StructSize(ps[1..])
    requires FieldView(ps[0], cmd, base, inlines, mem') == DirectView(args[0], inlines, mem)
    requires FieldViews(ps[1..], tail, base, inlines, mem') == DirectViews(args[1..], inlines, mem)
    ensures |cmd| >= StructSize(ps)
    ensures FieldViews(ps, cmd, base, inlines, mem') == DirectViews(args, inlines, mem)
  {
    assert cmd[|head|..] == tail;
    DirectViewsFirst(args, inlines, mem);
  }

  lemma DirectViewsFirst(args: seq<Arg>, inlines: bool, mem: Memory)
    requires args != []
    ensures DirectViews(args, inlines, mem)
            == [DirectView(args[0], inlines, mem)] + DirectViews(args[1..], inlines, mem)
  {
  }

  /** All parameters come back as the direct call has them. */
  lemma {:induction false} FieldsRoundTrip(ps: seq<Param>, args: seq<Arg>, fields: seq<byte>, rest: seq<byte>, at: nat,
                                           mode: Mode, base: Option<seq<byte>>, mem: Memory, mem': Memory)
    requires GoodArgs(ps, args) && Supplies(base, at, args, mode, mem, mem') && AreFields(args, at, mode, fields)
    ensures |fields| == StructSize(ps)
    ensures FieldViews(ps, fields + rest, base, !mode.Plain?, mem') == DirectViews(args, !mode.Plain?, mem)
    decreases |ps|
  {
    if ps == [] {
      assert Key(0);
    } else {
      SuppliesParts(base, at, args, mode, mem, mem');
      var head, tail := FieldsSplit(ps, args, fields, at, mode);
      Reassociate(head, tail, rest);
      FieldRoundTrip(ps[0], args[0], head, tail + rest, at, mode, base, mem, mem');
      FieldsRoundTrip(ps[1..], args[1..], tail, rest, at + ArgData(args[0]), mode, base, mem, mem');
      ViewsFromParts(ps, args, fields + rest, head, tail + rest, base, !mode.Plain?, mem, mem');
    }
  }

  ghost predicate CanSend(api: Api, args: seq<Arg>) {
    GoodApi(api) && GoodArgs(api.params, args) && DataSize(args) < Pow256(WORD)
  }

  /**
   Playback of a command calls the internal function as the direct call would have been made
   with the client's memory at the time of the stub; only commands too large to inline need
   that memory to be still the same.
   */
  lemma PlaybackIsDirectCall(api: Api, args: seq<Arg>, mem: Memory, mem': Memory)
    requires CanSend(api, args) && (ModeOf(api, args).Far? ==> mem == mem')
    ensures |Encode(api, args, mem)| >= StructSize(api.params)
    ensures Decode(api, Encode(api, args, mem), mem') == DirectViews(args, Inlines(api), mem)
  {
    var mode := ModeOf(api, args);
    var rest := if mode.Inline? then Payload(args, mem) else [];
    var cmd := Encode(api, args, mem);
    FieldsSize(api.params, args, 0, mode);
    PayloadSize(args, mem);
    assert cmd[StructSize(api.params)..] == rest;
    assert mode.Inline? && DataSize(args) > 0 ==> rest[0..DataSize(args)] == rest;
    FieldsRoundTrip(api.params, args, Fields(args, 0, mode), rest, 0, mode, BaseOf(api, cmd), mem, mem');
  }

  // ------------------------------------------------------------- Record sizes

  lemma {:induction false} StructFits(ps: seq<Param>)
    requires forall i :: 0 <= i < |ps| && ps[i].Scalar? ==> ps[i].width <= WORD
    ensures StructSize(ps) <= WORD * ParamCount(ps)
    decreases |ps|
  {
    if ps != [] {
      StructFits(ps[1..]);
    }
  }

  /** A command and its header fit the send buffer and the playback buffer. */
  lemma RecordFits(api: Api, args: seq<Arg>, mem: Memory)
    requires CanSend(api, args)
    ensures HEADER + |Encode(api, args, mem)| <= BUFFER == 2048
  {
    FieldsSize(api.params, args, 0, ModeOf(api, args));
    PayloadSize(args, mem);
    StructFits(api.params);
  }

  /** The data of argument i follows the data of the arguments before it in the payload, at its offset. */
  lemma {:induction false} PayloadSlices(args: seq<Arg>, mem: Memory, i: nat)
    requires i < |args|
    ensures Payload(args, mem) == Payload(args[..i], mem) + DataOf(args[i], mem) + Payload(args[i + 1..], mem)
    ensures |Payload(args[..i], mem)| == DataSize(args[..i])
    decreases |args|
  {
    PayloadSize(args[..i], mem);
    if i > 0 {
      PayloadSlices(args[1..], mem, i - 1);
      assert args[..i][1..] == args[1..][..i - 1] && args[1..][i..] == args[i + 1..];
      Glue(Payload(args, mem), DataOf(args[0], mem), Payload(args[1..], mem), Payload(args[1..][..i - 1], mem),
           DataOf(args[i], mem), Payload(args[i + 1..], mem), Payload(args[..i], mem));
    }
  }

  lemma Glue(all: seq<byte>, first: seq<byte>, rest: seq<byte>, x: seq<byte>, y: seq<byte>, z: seq<byte>,
             before: seq<byte>)
    requires all == first + rest && rest == x + y + z && before == first + x
    ensures all == before + y + z
  {
  }

  /** The slices of different arguments do not overlap. */
  lemma {:induction false} SlicesDisjoint(args: seq<Arg>, i: nat, j: nat)
    requires i < j < |args|
    ensures DataSize(args[..i]) + ArgData(args[i]) <= DataSize(args[..j])
    decreases |args|
  {
    if i == 0 {
      assert args[..j][0] == args[0];
    } else {
      SlicesDisjoint(args[1..], i - 1, j - 1);
      assert args[..i][1..] == args[1..][..i - 1] && args[..j][1..] == args[1..][..j - 1];
    }
  }

  // ---------------------------------------------------------- Waits and replies

  /** Some parameter is a pointer. */
  ghost predicate HasPointer(api: Api) {
    exists i :: 0 <= i < |api.params| && !api.params[i].Scalar?
  }

  /** The length of a reply. */
  function ReplySize(api: Api): nat {
    if api.ret.Some? then api.ret.value else 4
  }

  /** The stub waits for a reply. */
  ghost predicate Waits(api: Api, args: seq<Arg>) {
    if Inlines(api) then DataSize(args) >= MAX_INLINE else api.ret.Some? || api.sync || HasPointer(api)
  }

  /**
   A stub waits exactly if its entry returns something, is marked sync, or has a pointer that is
   not to constants or not single-level, or if the data of its pointers is too large to be inlined.
   */
  lemma WaitsExactly(api: Api, args: seq<Arg>)
    requires CanSend(api, args)
    ensures Waits(api, args) <==>
      || api.ret.Some? || api.sync || DataSize(args) >= 1024
      || exists i :: 0 <= i < |api.params| && (api.params[i].Nested? || api.params[i] == Pointer(false))
  {
    if !Inlines(api) && DataSize(args) > 0 {
      var i := DataHasPointer(args);
      assert GoodArg(api.params[i], args[i]);
    }
  }

  lemma {:induction false} DataHasPointer(args: seq<Arg>) returns (i: nat)
    requires DataSize(args) > 0
    ensures i < |args| && args[i].PointerArg?
    decreases |args|
  {
    if args[0].PointerArg? {
      i := 0;
    } else {
      i := DataHasPointer(args[1..]);
      i := i + 1;
    }
  }

  /** The bytes stand somewhere in the command. */
  ghost predicate Carries(cmd: seq<byte>, bytes: seq<byte>) {
    exists before, after :: cmd == before + bytes + after
  }

  /** Playback has to go to the caller's memory for this argument: its bytes are not in the command. */
  ghost predicate NeedsCaller(a: Arg, cmd: seq<byte>, mem: Memory) {
    a.NestedArg? || (a.PointerArg? && a.len > 0 && !Carries(cmd, Fetch(mem, a.addr, a.len)))
  }

  /** Such an argument makes the stub wait. */
  lemma NeedsCallerWaits(api: Api, args: seq<Arg>, mem: Memory, j: nat)
    requires CanSend(api, args) && j < |args| && NeedsCaller(args[j], Encode(api, args, mem), mem)
    ensures Waits(api, args)
  {
    assert GoodArg(api.params[j], args[j]);
    if ModeOf(api, args).Inline? {
      InlinedIsCarried(api, args, mem, j);
    }
  }

  lemma InlinedIsCarried(api: Api, args: seq<Arg>, mem: Memory, j: nat)
    requires ModeOf(api, args).Inline? && j < |args| && args[j].PointerArg?
    ensures Carries(Encode(api, args, mem), Fetch(mem, args[j].addr, args[j].len))
  {
    var fields, before, x := Fields(args, 0, Inline), Payload(args[..j], mem), DataOf(args[j], mem);
    PayloadSlices(args, mem, j);
    Regroup(fields, before, x, Payload(args[j + 1..], mem));
  }

  lemma Regroup(a: seq<byte>, b: seq<byte>, x: seq<byte>, c: seq<byte>)
    ensures a + (b + x + c) == (a + b) + x + c
  {
  }

  /** The sum of the length fields. */
  function TotalSize(ps: seq<Param>, cmd: seq<byte>): nat
    requires |cmd| >= StructSize(ps)
  {
    if ps == [] then 0
    else (if ps[0].Pointer? then FromLe(cmd[WORD..2 * WORD]) else 0) + TotalSize(ps[1..], cmd[ps[0].Size()..])
  }

  /** Playback sends a reply. */
  ghost predicate Replies(api: Api, cmd: seq<byte>)
    requires |cmd| >= StructSize(api.params)
  {
    if Inlines(api) then TotalSize(api.params, cmd) != 0 && |cmd| == StructSize(api.params)
    else api.ret.Some? || api.sync || HasPointer(api)
  }

  lemma TotalFromParts(ps: seq<Param>, cmd: seq<byte>, head: seq<byte>, tail: seq<byte>, len: nat)
    requires ps != [] && cmd == head + tail && |head| == ps[0].Size() && |tail| >= StructSize(ps[1..])
    requires ps[0].Pointer? ==> len == FromLe(head[WORD..2 * WORD])
    requires !ps[0].Pointer? ==> len == 0
    ensures |cmd| >= StructSize(ps) && TotalSize(ps, cmd) == len + TotalSize(ps[1..], tail)
  {
    assert cmd[|head|..] == tail;
    assert ps[0].Pointer? ==> cmd[WORD..2 * WORD] == head[WORD..2 * WORD];
  }

  lemma FieldLength(p: Param, a: Arg, at: nat, mode: Mode, field: seq<byte>)
    requires GoodArg(p, a) && IsField(a, at, mode, field) && |field| == p.Size()
    ensures p.Pointer? ==> FromLe(field[WORD..2 * WORD]) == ArgData(a)
    ensures !p.Pointer? ==> ArgData(a) == 0
  {
    assert Key(0);
    if p.Pointer? {
      assert field[WORD..2 * WORD] == Le(a.len, WORD);
      LeRoundTrip(a.len, WORD);
    }
  }

  lemma {:induction false} TotalIsDataSize(ps: seq<Param>, args: seq<Arg>, fields: seq<byte>, rest: seq<byte>,
                                           at: nat, mode: Mode)
    requires GoodArgs(ps, args) && AreFields(args, at, mode, fields)
    ensures |fields| == StructSize(ps) && TotalSize(ps, fields + rest) == DataSize(args)
    decreases |ps|
  {
    if ps == [] {
      assert Key(0);
    } else {
      var head, tail := FieldsSplit(ps, args, fields, at, mode);
      Reassociate(head, tail, rest);
      TotalIsDataSize(ps[1..], args[1..], tail, rest, at + ArgData(args[0]), mode);
      FieldLength(ps[0], args[0], at, mode, head);
      TotalFromParts(ps, fields + rest, head, tail + rest, ArgData(args[0]));
    }
  }

  /** The client waits exactly when playback replies. */
  lemma WaitsIffReplies(api: Api, args: seq<Arg>, mem: Memory)
    requires CanSend(api, args)
    ensures |Encode(api, args, mem)| >= StructSize(api.params)
    ensures Waits(api, args) <==> Replies(api, Encode(api, args, mem))
  {
    var mode := ModeOf(api, args);
    FieldsSize(api.params, args, 0, mode);
    PayloadSize(args, mem);
    TotalIsDataSize(api.params, args, Fields(args, 0, mode), if mode.Inline? then Payload(args, mem) else [], 0, mode);
  }

  // ------------------------------------------------------------ The emitted code

  /** The dataSize sum of a stub. */
  method SumLengths(args: seq<Arg>) returns (size: nat)
    ensures size == DataSize(args)
  {
    size := 0;
    var ct := 0;
    while ct < |args|
      invariant 0 <= ct <= |args| && DataSize(args) == size + DataSize(args[ct..])
    {
      if args[ct].PointerArg? {
        size := size + args[ct].len;
      }
      ct := ct + 1;
    }
  }

  /** Parameters that count for needFlush. */
  method HasPointers(api: Api) returns (r: bool)
    ensures r <==> HasPointer(api)
  {
    r := false;
    var ct := 0;
    while ct < |api.params|
      invariant 0 <= ct <= |api.params| && (r <==> exists i :: 0 <= i < ct && !api.params[i].Scalar?)
    {
      r := r || !api.params[ct].Scalar?;
      ct := ct + 1;
    }
  }

  lemma FieldsNext(args: seq<Arg>, ct: nat, at: nat, mode: Mode, mem: Memory)
    requires ct < |args|
    ensures Fields(args[ct..], at, mode)
            == Field(args[ct], at, mode) + Fields(args[ct + 1..], at + ArgData(args[ct]), mode)
    ensures Payload(args[ct..], mem)
            == DataOf(args[ct], mem) + Payload(args[ct + 1..], mem)
  {
    assert args[ct..][1..] == args[ct + 1..];
  }

  ghost function ModeFor(inlines: bool, dataSize: nat): Mode {
    if !inlines then Plain else if dataSize < MAX_INLINE then Inline else Far
  }

  /** The assignment of one parameter, with what memcpy adds to the payload. */
  method FillField(a: Arg, inlines: bool, dataSize: nat, payload: nat, ghost at: nat, mem: Memory)
    returns (field: seq<byte>, data: seq<byte>)
    requires ModeFor(inlines, dataSize).Inline? ==> at == payload
    ensures field == Field(a, at, ModeFor(inlines, dataSize))
    ensures data == if a.PointerArg? && ModeFor(inlines, dataSize).Inline? then Fetch(mem, a.addr, a.len) else []
  {
    data := [];
    match a {
      case ScalarArg(scalar) =>
        field := scalar;
      case PointerArg(addr, len) =>
        if inlines {
          if len == 0 {
            field := Le(0, WORD);
          } else if dataSize < MAX_INLINE {
            data := Fetch(mem, addr, len);
            field := Le(payload, WORD);
          } else {
            field := Le(addr, WORD);
          }
        } else {
          field := Le(addr, WORD);
        }
        field := field + Le(len, WORD);
      case NestedArg(ptrs, count, lens) =>
        field := Le(ptrs, WORD) + Le(count, WORD) + Le(lens, WORD);
    }
  }

  /** The parameters before ct are filled in. */
  ghost predicate Filling(args: seq<Arg>, ct: nat, mode: Mode, at: nat, fields: seq<byte>, payload: seq<byte>,
                          mem: Memory)
    requires ct <= |args|
  {
    forall k :: KeyAt(ct, k) ==>
      && Fields(args, 0, mode) == fields + Fields(args[ct..], at, mode)
      && if mode.Inline? then Payload(args, mem) == payload + Payload(args[ct..], mem) else payload == []
  }

  lemma FillingStart(args: seq<Arg>, mode: Mode, mem: Memory)
    ensures Filling(args, 0, mode, 0, [], [], mem)
  {
    assert args[0..] == args;
  }

  lemma FillingDone(args: seq<Arg>, mode: Mode, at: nat, fields: seq<byte>, payload: seq<byte>, mem: Memory)
    requires Filling(args, |args|, mode, at, fields, payload, mem)
    ensures fields == Fields(args, 0, mode) && payload == if mode.Inline? then Payload(args, mem) else []
  {
    assert KeyAt(|args|, 0);
  }

  lemma Shift(all: seq<byte>, before: seq<byte>, rest: seq<byte>, head: seq<byte>, tail: seq<byte>)
    requires all == before + rest && rest == head + tail
    ensures all == (before + head) + tail
  {
  }

  lemma FillingNext(args: seq<Arg>, ct: nat, mode: Mode, at: nat, fields: seq<byte>, payload: seq<byte>, mem: Memory,
                    field: seq<byte>, data: seq<byte>)
    requires ct < |args| && Filling(args, ct, mode, at, fields, payload, mem)
    requires field == Field(args[ct], at, mode)
    requires data == if args[ct].PointerArg? && mode.Inline? then Fetch(mem, args[ct].addr, args[ct].len) else []
    ensures Filling(args, ct + 1, mode, at + ArgData(args[ct]), fields + field, payload + data, mem)
  {
    assert KeyAt(ct, 0);
    FieldsNext(args, ct, at, mode, mem);
    Shift(Fields(args, 0, mode), fields, Fields(args[ct..], at, mode), field,
          Fields(args[ct + 1..], at + ArgData(args[ct]), mode));
    if mode.Inline? {
      Shift(Payload(args, mem), payload, Payload(args[ct..], mem), data, Payload(args[ct + 1..], mem));
    }
  }

  /** The assignments of all parameters; `at` counts the data so far. */
  method FillCommand(args: seq<Arg>, inlines: bool, dataSize: nat, mem: Memory) returns (cmd: seq<byte>)
    ensures var mode := ModeFor(inlines, dataSize);
      cmd == Fields(args, 0, mode) + if mode.Inline? then Payload(args, mem) else []
  {
    ghost var mode, at: nat := ModeFor(inlines, dataSize), 0;
    var fields: seq<byte>, payload: seq<byte> := [], [];
    FillingStart(args, mode, mem);
    var ct := 0;
    while ct < |args|
      invariant 0 <= ct <= |args| && (mode.Inline? ==> at == |payload|)
      invariant Filling(args, ct, mode, at, fields, payload, mem)
    {
      var field, data := FillField(args[ct], inlines, dataSize, |payload|, at, mem);
      FillingNext(args, ct, mode, at, fields, payload, mem, field, data);
      fields, payload, at := fields + field, payload + data, at + ArgData(args[ct]);
      ct := ct + 1;
    }
    FillingDone(args, mode, at, fields, payload, mem);
    cmd := fields + payload;
  }

  /** A client stub: the command it commits, and the size of the reply it waits for, if any. */
  method Stub(api: Api, args: seq<Arg>, mem: Memory) returns (cmd: seq<byte>, wait: Option<nat>)
    requires CanSend(api, args)
    ensures cmd == Encode(api, args, mem)
    ensures wait == if Waits(api, args) then Some(ReplySize(api)) else None
    ensures (api.ret.Some? ==> wait == api.ret) && (api.sync ==> wait.Some?)
    ensures api.ret.None? && wait.Some? ==> wait.value == 4
    ensures forall j :: 0 <= j < |args| && NeedsCaller(args[j], cmd, mem) ==> wait.Some?
  {
    WaitsExactly(api, args);
    forall j: nat | j < |args| && NeedsCaller(args[j], Encode(api, args, mem), mem)
      ensures Waits(api, args)
    {
      NeedsCallerWaits(api, args, mem, j);
    }
    var inlines := HasInlineDataPointers(api);
    var dataSize := SumLengths(args);
    cmd := FillCommand(args, inlines, dataSize, mem);
    var needFlush := HasPointers(api);
    needFlush := needFlush || api.ret.Some? || api.sync;
    wait := None;
    if inlines {
      if dataSize >= MAX_INLINE {
        wait := Some(4);
      }
    } else if api.ret.Some? {
      wait := api.ret;
    } else if needFlush {
      wait := Some(4);
    }
  }

  lemma ViewsNext(ps: seq<Param>, cmd: seq<byte>, ct: nat, off: nat, base: Option<seq<byte>>, inlines: bool,
                  mem: Memory)
    requires ct < |ps| && |cmd| >= off + StructSize(ps[ct..])
    ensures |cmd| >= off + ps[ct].Size() + StructSize(ps[ct + 1..])
    ensures FieldViews(ps[ct..], cmd[off..], base, inlines, mem)
            == [FieldView(ps[ct], cmd[off..], base, inlines, mem)]
               + FieldViews(ps[ct + 1..], cmd[off + ps[ct].Size()..], base, inlines, mem)
    ensures TotalSize(ps[ct..], cmd[off..])
            == (if ps[ct].Pointer? then FromLe(cmd[off..][WORD..2 * WORD]) else 0)
               + TotalSize(ps[ct + 1..], cmd[off + ps[ct].Size()..])
  {
    assert ps[ct..][1..] == ps[ct + 1..];
    assert cmd[off..][ps[ct].Size()..] == cmd[off + ps[ct].Size()..];
  }

  function LengthField(p: Param, cmd: seq<byte>): nat
    requires |cmd| >= p.Size()
  {
    if p.Pointer? then FromLe(cmd[WORD..2 * WORD]) else 0
  }

  /** The parameters before ct have been read. */
  ghost predicate Playing(ps: seq<Param>, ct: nat, cmd: seq<byte>, off: nat, base: Option<seq<byte>>, inlines: bool,
                          mem: Memory, views: seq<View>, totalSize: nat)
    requires ct <= |ps|
  {
    forall k :: KeyAt(ct, k) ==>
      && |cmd| >= off + StructSize(ps[ct..]) && |cmd| >= StructSize(ps)
      && FieldViews(ps, cmd, base, inlines, mem) == views + FieldViews(ps[ct..], cmd[off..], base, inlines, mem)
      && TotalSize(ps, cmd) == totalSize + TotalSize(ps[ct..], cmd[off..])
  }

  lemma PlayingStart(ps: seq<Param>, cmd: seq<byte>, base: Option<seq<byte>>, inlines: bool, mem: Memory)
    requires |cmd| >= StructSize(ps)
    ensures Playing(ps, 0, cmd, 0, base, inlines, mem, [], 0)
  {
    assert ps[0..] == ps && cmd[0..] == cmd;
  }

  lemma PlayingDone(ps: seq<Param>, cmd: seq<byte>, off: nat, base: Option<seq<byte>>, inlines: bool,
                    mem: Memory, views: seq<View>, totalSize: nat)
    requires Playing(ps, |ps|, cmd, off, base, inlines, mem, views, totalSize)
    ensures |cmd| >= StructSize(ps) && views == FieldViews(ps, cmd, base, inlines, mem)
    ensures totalSize == TotalSize(ps, cmd)
  {
    assert KeyAt(|ps|, 0);
  }

  lemma ShiftViews(all: seq<View>, before: seq<View>, rest: seq<View>, head: seq<View>, tail: seq<View>)
    requires all == before + rest && rest == head + tail
    ensures all == (before + head) + tail
  {
  }

  lemma PlayingNext(ps: seq<Param>, ct: nat, cmd: seq<byte>, off: nat, base: Option<seq<byte>>, inlines: bool,
                    mem: Memory, views: seq<View>, totalSize: nat)
    requires ct < |ps| && Playing(ps, ct, cmd, off, base, inlines, mem, views, totalSize)
    ensures |cmd| >= off + ps[ct].Size()
    ensures Playing(ps, ct + 1, cmd, off + ps[ct].Size(), base, inlines, mem,
                    views + [FieldView(ps[ct], cmd[off..], base, inlines, mem)],
                    totalSize + LengthField(ps[ct], cmd[off..]))
  {
    assert KeyAt(ct, 0);
    ViewsNext(ps, cmd, ct, off, base, inlines, mem);
    ShiftViews(FieldViews(ps, cmd, base, inlines, mem), views, FieldViews(ps[ct..], cmd[off..], base, inlines, mem),
               [FieldView(ps[ct], cmd[off..], base, inlines, mem)],
               FieldViews(ps[ct + 1..], cmd[off + ps[ct].Size()..], base, inlines, mem));
  }

  /** The arguments of the internal call, and the totalSize sum. */
  method ReadFields(ps: seq<Param>, cmd: seq<byte>, base: Option<seq<byte>>, inlines: bool, mem: Memory)
    returns (views: seq<View>, totalSize: nat)
    requires |cmd| >= StructSize(ps)
    ensures views == FieldViews(ps, cmd, base, inlines, mem) && totalSize == TotalSize(ps, cmd)
  {
    views, totalSize := [], 0;
    var off: nat, ct: nat := 0, 0;
    PlayingStart(ps, cmd, base, inlines, mem);
    while ct < |ps|
      invariant 0 <= ct <= |ps| && Playing(ps, ct, cmd, off, base, inlines, mem, views, totalSize)
    {
      PlayingNext(ps, ct, cmd, off, base, inlines, mem, views, totalSize);
      views := views + [FieldView(ps[ct], cmd[off..], base, inlines, mem)];
      totalSize := totalSize + LengthField(ps[ct], cmd[off..]);
      off := off + ps[ct].Size();
      ct := ct + 1;
    }
    PlayingDone(ps, cmd, off, base, inlines, mem, views, totalSize);
  }

  /** A playback function: what it calls, and the size of the reply it sends, if any. */
  method Playback(api: Api, cmd: seq<byte>, mem: Memory) returns (views: seq<View>, reply: Option<nat>)
    requires |cmd| >= StructSize(api.params)
    ensures views == Decode(api, cmd, mem)
    ensures reply == if Replies(api, cmd) then Some(ReplySize(api)) else None
  {
    var inlines := HasInlineDataPointers(api);
    var size := StructSize(api.params);
    var base := if inlines && |cmd| != size then Some(cmd[size..]) else None;
    var totalSize;
    views, totalSize := ReadFields(api.params, cmd, base, inlines, mem);
    var needFlush := HasPointers(api);
    reply := None;
    if inlines {
      if totalSize != 0 && |cmd| == size {
        reply := Some(4);
      }
    } else if api.ret.Some? {
      reply := api.ret;
    } else if api.sync || needFlush {
      reply := Some(4);
    }
  }
}
