/**
 What the serial forms look like, byte by byte, on small inputs: the order of fields, the class
 ids, the alignment and the byte order that writers and readers have in common.
 */
module Formats {
  import opened Common
  import opened Bytes
  import opened Streams
  import opened Elements
  import A3DFile
  import ClientMessages
  import CommandCodec
  import CommandFifo
  import MipLevels

  lemma SmallLe(n: nat)
    requires n < 256
    ensures Le(n, 4) == [n, 0, 0, 0] && Le(n, 8) == [n, 0, 0, 0, 0, 0, 0, 0]
  {
    assert Le(0, 1) == [0] && Le(0, 2) == [0, 0] && Le(0, 3) == [0, 0, 0];
    assert Le(0, 4) == [0, 0, 0, 0] && Le(0, 5) == [0, 0, 0, 0, 0] && Le(0, 6) == [0, 0, 0, 0, 0, 0];
    assert Le(0, 7) == [0, 0, 0, 0, 0, 0, 0];
    assert n / 256 == 0;
  }

  /** Bytes 1, 2, 3 and 4 are the number 0x04030201. */
  lemma LittleEndian()
    ensures Le(0x0403_0201, 4) == [1, 2, 3, 4] && FromLe([1, 2, 3, 4]) == 0x0403_0201
  {
    assert Le(0x04, 1) == [4] && Le(0x0403, 2) == [3, 4] && Le(0x0403_02, 3) == [2, 3, 4];
    LeRoundTrip(0x0403_0201, 4);
  }

  /** A number of the stream d at position at, which is a multiple of four. */
  ghost predicate NumberAt(d: Data, at: nat, n: nat) {
    at % 4 == 0 && at + 4 <= |d| && d[at] == n % 256 && d[at + 1] == n / 256 && d[at + 2] == 0 && d[at + 3] == 0
  }

  lemma FirstNumber(d: Data, at: nat, n: u32, rest: seq<Token>, end: nat)
    requires Holds(d, at, [U32(n)] + rest, end) && at % 4 == 0 && n < 256
    ensures NumberAt(d, at, n) && Holds(d, at + 4, rest, end)
  {
    HoldsFirst(d, at, U32(n), rest, end);
    SmallLe(n);
    assert Align4(at) == at by {
      Align4IsRoundUp(at);
    }
    FourBytes(d, at, n);
  }

  lemma FirstByte(d: Data, at: nat, b: byte, rest: seq<Token>, end: nat)
    requires Holds(d, at, [U8(b)] + rest, end)
    ensures at < |d| && d[at] == b && Holds(d, at + 1, rest, end)
  {
    HoldsFirst(d, at, U8(b), rest, end);
    assert d[at..at + 1] == [b];
    assert d[at] == d[at..at + 1][0];
  }

  lemma FirstLetter(d: Data, at: nat, c: byte, rest: seq<Token>, end: nat)
    requires Holds(d, at, [Str([c])] + rest, end) && at % 4 == 0
    ensures NumberAt(d, at, 1) && at + 4 < |d| && d[at + 4] == c && Holds(d, at + 5, rest, end)
  {
    HoldsFirst(d, at, Str([c]), rest, end);
    SmallLe(1);
    assert Align4(at) == at by {
      Align4IsRoundUp(at);
    }
    assert TokenBytes(Str([c])) == [1, 0, 0, 0, c];
    FiveBytes(d, at, c);
  }

  lemma FiveBytes(d: Data, at: nat, c: byte)
    requires at + 5 <= |d| && d[at..at + 5] == [1, 0, 0, 0, c]
    ensures d[at] == 1 && d[at + 1] == d[at + 2] == d[at + 3] == 0 && d[at + 4] == c
  {
    var x := d[at..at + 5];
    assert d[at] == x[0] && d[at + 1] == x[1] && d[at + 2] == x[2] && d[at + 3] == x[3] && d[at + 4] == x[4];
  }

  lemma FourBytes(d: Data, at: nat, n: byte)
    requires at + 4 <= |d| && d[at..at + 4] == [n, 0, 0, 0]
    ensures d[at] == n && d[at + 1] == d[at + 2] == d[at + 3] == 0
  {
    var x := d[at..at + 4];
    assert d[at] == x[0] && d[at + 1] == x[1] && d[at + 2] == x[2] && d[at + 3] == x[3];
  }

  /** A number after one byte is three bytes further on. */
  lemma NumberAfterByte(d: Data, at: nat, n: u32, rest: seq<Token>, end: nat)
    requires Holds(d, at, [U32(n)] + rest, end) && at % 4 == 1 && n < 256
    ensures NumberAt(d, at + 3, n) && Holds(d, at + 7, rest, end)
  {
    HoldsFirst(d, at, U32(n), rest, end);
    SmallLe(n);
    assert Align4(at) == at + 3 by {
      Align4IsRoundUp(at);
    }
    FourBytes(d, at + 3, n);
  }

  // ------------------------------------------------------------------ Elements and types

  /** Class 3, a name of one letter, type, kind, normalisation, vector size, number of fields. */
  ghost predicate HeadAt(d: Data, at: nat, e: Element, letter: byte) {
    && at % 4 == 0 && |d| >= at + 20
    && NumberAt(d, at, 3) && NumberAt(d, at + 4, 1) && d[at + 8] == letter
    && d[at + 9] == e.comp.dtype && d[at + 10] == e.comp.kind && d[at + 11] == (if e.comp.normalized then 1 else 0)
    && NumberAt(d, at + 12, e.comp.vector) && NumberAt(d, at + 16, |e.fields|)
  }

  ghost predicate SmallHead(e: Element, letter: byte) {
    && e.name == Some([letter]) && e.comp.dtype < 256 && e.comp.kind < 256 && e.comp.vector < 256 && |e.fields| < 256
  }

  lemma HeadFormat(d: Data, at: nat, e: Element, letter: byte, rest: seq<Token>, end: nat)
    requires SmallHead(e, letter) && Holds(d, at, HeadTokens(e) + rest, end) && at % 4 == 0
    ensures HeadAt(d, at, e, letter) && Holds(d, at + 20, rest, end)
  {
    var norm: byte := if e.comp.normalized then 1 else 0;
    var r5 := [U32(|e.fields|)] + rest;
    var r4 := [U32(e.comp.vector)] + r5;
    var r3 := [U8(norm)] + r4;
    var r2 := [U8(e.comp.kind)] + r3;
    var r1 := [U8(e.comp.dtype)] + r2;
    assert HeadTokens(e) + rest == [U32(3)] + ([Str([letter])] + r1);
    FirstNumber(d, at, 3, [Str([letter])] + r1, end);
    FirstLetter(d, at + 4, letter, r1, end);
    FirstByte(d, at + 9, e.comp.dtype, r2, end);
    FirstByte(d, at + 10, e.comp.kind, r3, end);
    FirstByte(d, at + 11, norm, r4, end);
    FirstNumber(d, at + 12, e.comp.vector, r5, end);
    FirstNumber(d, at + 16, |e.fields|, rest, end);
  }

  /** A leaf is nothing but its head. */
  lemma LeafFormat(d: Data, at: nat, e: Element, letter: byte, rest: seq<Token>, end: nat)
    requires SmallHead(e, letter) && e.fields == [] && at % 4 == 0 && Holds(d, at, ElementTokens(e) + rest, end)
    ensures HeadAt(d, at, e, letter) && Holds(d, at + 20, rest, end)
  {
    assert ElementTokens(e) + rest == HeadTokens(e) + rest;
    HeadFormat(d, at, e, letter, rest, end);
  }

  /** A structure has a field's name, its array size and its element after the head. */
  lemma StructFormat(d: Data, at: nat, e: Element, letter: byte, name: byte, leaf: byte, end: nat)
    requires SmallHead(e, letter) && |e.fields| == 1 && e.fields[0].name == [name] && e.fields[0].count < 256
    requires SmallHead(e.fields[0].elem, leaf) && e.fields[0].elem.fields == []
    requires Holds(d, at, ElementTokens(e), end) && at % 4 == 0
    ensures HeadAt(d, at, e, letter) && NumberAt(d, at + 20, 1) && |d| > at + 24 && d[at + 24] == name
    ensures NumberAt(d, at + 28, e.fields[0].count) && HeadAt(d, at + 32, e.fields[0].elem, leaf) && end == at + 52
    ensures Created(e) ==> d[at + 9] == 0 && d[at + 10] == 0 && d[at + 11] == 0 && NumberAt(d, at + 12, 1)
  {
    SingleField(e);
    HeadFormat(d, at, e, letter, FieldTokens(e, 0), end);
    FieldFormat(d, at + 20, e, name, leaf, end);
  }

  lemma SingleField(e: Element)
    requires |e.fields| == 1
    ensures ElementTokens(e) == HeadTokens(e) + FieldTokens(e, 0)
  {
    assert FieldsFrom(e, 1) == [];
    assert FieldsFrom(e, 0) == FieldTokens(e, 0) + [];
  }

  lemma FieldFormat(d: Data, at: nat, e: Element, name: byte, leaf: byte, end: nat)
    requires |e.fields| == 1 && e.fields[0].name == [name] && e.fields[0].count < 256
    requires SmallHead(e.fields[0].elem, leaf) && e.fields[0].elem.fields == []
    requires Holds(d, at, FieldTokens(e, 0), end) && at % 4 == 0
    ensures NumberAt(d, at, 1) && |d| > at + 4 && d[at + 4] == name
    ensures NumberAt(d, at + 8, e.fields[0].count) && HeadAt(d, at + 12, e.fields[0].elem, leaf) && end == at + 32
  {
    var f := e.fields[0];
    var x := ElementTokens(f.elem) + [];
    assert FieldTokens(e, 0) == [Str([name])] + ([U32(f.count)] + x);
    FirstLetter(d, at, name, [U32(f.count)] + x, end);
    NumberAfterByte(d, at + 5, f.count, x, end);
    LeafFormat(d, at + 12, f.elem, leaf, [], end);
    HoldsNone(d, at + 32, end);
  }

  /** A type: class 2, its name, its element, three extents, and the flags for mip levels and faces. */
  lemma TypeFormat(d: Data, at: nat, t: A3DFile.TypeObj, letter: byte, leaf: byte, end: nat)
    requires t.name == Some([letter]) && SmallHead(t.elem, leaf) && t.elem.fields == []
    requires t.dims.x < 256 && t.dims.y < 256 && t.dims.z < 256
    requires Holds(d, at, A3DFile.TypeTokens(t), end) && at % 4 == 0
    ensures NumberAt(d, at, 2) && NumberAt(d, at + 4, 1) && |d| >= end == at + 46 && d[at + 8] == letter
    ensures HeadAt(d, at + 12, t.elem, leaf)
    ensures NumberAt(d, at + 32, t.dims.x) && NumberAt(d, at + 36, t.dims.y) && NumberAt(d, at + 40, t.dims.z)
    ensures d[at + 44] == 1 && d[at + 45] == if t.dims.faces then 1 else 0
  {
    var tail, ets := A3DFile.TypeTail(t), ElementTokens(t.elem);
    assert A3DFile.TypeTokens(t) == [U32(2)] + ([Str([letter])] + (ets + tail));
    FirstNumber(d, at, 2, [Str([letter])] + (ets + tail), end);
    FirstLetter(d, at + 4, letter, ets + tail, end);
    HeadLater(d, at + 9, t.elem, tail, end);
    LeafFormat(d, at + 12, t.elem, leaf, tail, end);
    TailFormat(d, at + 32, t, end);
  }

  /** An element that starts after one byte starts three bytes further on. */
  lemma HeadLater(d: Data, at: nat, e: Element, rest: seq<Token>, end: nat)
    requires Holds(d, at, ElementTokens(e) + rest, end) && at % 4 == 1
    ensures Holds(d, at + 3, ElementTokens(e) + rest, end)
  {
    var ts := (ElementTokens(e) + rest)[1..];
    assert ElementTokens(e) + rest == [U32(3)] + ts;
    assert Key(0);
    assert Align4(at) == at + 3 == Align4(at + 3) by {
      Align4IsRoundUp(at);
      Align4IsRoundUp(at + 3);
    }
  }

  lemma TailFormat(d: Data, at: nat, t: A3DFile.TypeObj, end: nat)
    requires t.dims.x < 256 && t.dims.y < 256 && t.dims.z < 256 && at % 4 == 0
    requires Holds(d, at, A3DFile.TypeTail(t), end)
    ensures NumberAt(d, at, t.dims.x) && NumberAt(d, at + 4, t.dims.y) && NumberAt(d, at + 8, t.dims.z)
    ensures |d| >= end == at + 14 && d[at + 12] == 1 && d[at + 13] == if t.dims.faces then 1 else 0
  {
    var faces: byte := if t.dims.faces then 1 else 0;
    var r3 := [U8(1)] + ([U8(faces)] + []);
    var r2 := [U32(t.dims.z)] + r3;
    var r1 := [U32(t.dims.y)] + r2;
    assert A3DFile.TypeTail(t) == [U32(t.dims.x)] + r1;
    FirstNumber(d, at, t.dims.x, r1, end);
    FirstNumber(d, at + 4, t.dims.y, r2, end);
    FirstNumber(d, at + 8, t.dims.z, r3, end);
    FirstByte(d, at + 12, 1, [U8(faces)] + [], end);
    FirstByte(d, at + 13, faces, [], end);
    HoldsNone(d, at + 14, end);
  }

  // --------------------------------------------------------------------------- A3D files

  /** Version 0.1, no flags, the number of entries; an entry is its name, its class, its offset and its length. */
  lemma HeaderFormat(d: Data, x: A3DFile.Entry, letter: byte, end: nat)
    requires x.name == [letter] && x.cls < 256 && x.offset < 256 && x.length < 256
    requires Holds(d, 0, A3DFile.HeaderTokens([x]), end)
    ensures NumberAt(d, 0, 0) && NumberAt(d, 4, 1) && NumberAt(d, 8, 0) && NumberAt(d, 12, 1)
    ensures NumberAt(d, 16, 1) && |d| >= end == 36 && d[20] == letter
    ensures NumberAt(d, 24, x.cls) && NumberAt(d, 28, x.offset) && NumberAt(d, 32, x.length)
  {
    var e3 := [U32(x.length)] + [];
    var e2 := [U32(x.offset)] + e3;
    var e1 := [U32(x.cls)] + e2;
    var e0 := [Str([letter])] + e1;
    assert A3DFile.EntriesTokens([x]) == A3DFile.EntryTokens(x) + A3DFile.EntriesTokens([]);
    assert A3DFile.EntriesTokens([x]) == e0;
    var h3, h2, h1 := [U32(1)] + e0, [U32(0)] + ([U32(1)] + e0), [U32(1)] + ([U32(0)] + ([U32(1)] + e0));
    assert A3DFile.HeaderTokens([x]) == [U32(0)] + h1;
    FirstNumber(d, 0, 0, h1, end);
    FirstNumber(d, 4, 1, h2, end);
    FirstNumber(d, 8, 0, h3, end);
    FirstNumber(d, 12, 1, e0, end);
    FirstLetter(d, 16, letter, e1, end);
    NumberAfterByte(d, 21, x.cls, e2, end);
    FirstNumber(d, 28, x.offset, e3, end);
    FirstNumber(d, 32, x.length, [], end);
    HoldsNone(d, 36, end);
  }

  /** The lowest of the flags says whether offsets have 64 bits. */
  lemma FlagFormat(flags: byte)
    ensures var d := [0, 0, 0, 0, 1, 0, 0, 0, flags, 0, 0, 0, 0, 0, 0, 0];
      A3DFile.ParseHeader(d) == Got((0, 1, exists n: nat :: flags == 2 * n + 1, []), 16)
  {
    var d: Data := [0, 0, 0, 0, 1, 0, 0, 0, flags, 0, 0, 0, 0, 0, 0, 0];
    Align4IsRoundUp(0);
    Align4IsRoundUp(4);
    Align4IsRoundUp(8);
    Align4IsRoundUp(12);
    assert ReadU32(d, 0) == Got(0, 4) && ReadU32(d, 4) == Got(1, 8);
    assert ReadU32(d, 8) == Got(flags, 12) && ReadU32(d, 12) == Got(0, 16);
    if flags % 2 == 1 {
      assert flags == 2 * (flags / 2) + 1;
    }
  }

  /** The text at the start of a file. */
  lemma MagicText()
    ensures |A3DFile.MAGIC| == |"Android3D_ff"|
    ensures forall i :: 0 <= i < 12 ==> A3DFile.MAGIC[i] == "Android3D_ff"[i] as int
  {
  }

  // ------------------------------------------------------------------- Commands and messages

  /** A message: command, length, user id, payload. */
  lemma MessageFormat(cmd: byte, user: byte, x: byte)
    ensures ClientMessages.MessageBytes(ClientMessages.Message(cmd, user, [x]))
            == [cmd, 0, 0, 0, 1, 0, 0, 0, user, 0, 0, 0, x]
  {
    SmallLe(cmd);
    SmallLe(1);
    SmallLe(user);
  }

  /** A command: its id, which is one more than its place in the table, its length, and its fields. */
  lemma RecordFormat(api: byte, x: byte)
    requires api < 255
    ensures CommandFifo.Record(api, [x]) == [api + 1, 0, 0, 0, 1, 0, 0, 0, x]
  {
    SmallLe(api + 1);
    SmallLe(1);
  }

  /** A constant pointer becomes an offset and a length, and its data follows the fields. */
  lemma InlineFormat(a: byte, addr: byte, x: byte, y: byte)
    requires addr < 255
    ensures var api := CommandCodec.Api([CommandCodec.Scalar(1), CommandCodec.Pointer(true)], None, false);
      var args := [CommandCodec.ScalarArg([a]), CommandCodec.PointerArg(addr, 2)];
      CommandCodec.Encode(api, args, map[addr := x, addr + 1 := y])
      == [a] + [0, 0, 0, 0, 0, 0, 0, 0] + [2, 0, 0, 0, 0, 0, 0, 0] + [x, y]
  {
    var ps, mem := [CommandCodec.Scalar(1), CommandCodec.Pointer(true)], map[addr := x, addr + 1 := y];
    var s, p := CommandCodec.ScalarArg([a]), CommandCodec.PointerArg(addr, 2);
    var args := [s, p];
    assert ps[1] == CommandCodec.Pointer(true);
    assert args[1..] == [p] && [p][1..] == [];
    assert CommandCodec.DataSize([p]) == 2 + CommandCodec.DataSize([]);
    assert CommandCodec.DataSize(args) == 2;
    InlineFields(a, addr);
    assert CommandCodec.Fetch(mem, addr, 2) == [x, y];
    assert CommandCodec.Payload([p], mem) == [x, y] + CommandCodec.Payload([], mem);
    assert CommandCodec.Payload(args, mem) == [] + [x, y];
  }

  lemma InlineFields(a: byte, addr: byte)
    ensures CommandCodec.Fields([CommandCodec.ScalarArg([a]), CommandCodec.PointerArg(addr, 2)], 0, CommandCodec.Inline)
            == [a] + [0, 0, 0, 0, 0, 0, 0, 0] + [2, 0, 0, 0, 0, 0, 0, 0]
  {
    var s, p := CommandCodec.ScalarArg([a]), CommandCodec.PointerArg(addr, 2);
    SmallLe(0);
    SmallLe(2);
    assert [s, p][1..] == [p] && [p][1..] == [];
    assert CommandCodec.Fields([p], 0, CommandCodec.Inline) == Le(0, 8) + Le(2, 8) + [];
  }

  /** A pointer to write to is sent as it is, with its length. */
  lemma RawFormat(a: byte, addr: byte, mem: CommandCodec.Memory)
    ensures var api := CommandCodec.Api([CommandCodec.Scalar(1), CommandCodec.Pointer(false)], None, false);
      var args := [CommandCodec.ScalarArg([a]), CommandCodec.PointerArg(addr, 2)];
      CommandCodec.Encode(api, args, mem) == [a] + [addr, 0, 0, 0, 0, 0, 0, 0] + [2, 0, 0, 0, 0, 0, 0, 0]
  {
    var ps := [CommandCodec.Scalar(1), CommandCodec.Pointer(false)];
    var s, p := CommandCodec.ScalarArg([a]), CommandCodec.PointerArg(addr, 2);
    assert ps[1] == CommandCodec.Pointer(false);
    assert [s, p][1..] == [p] && [p][1..] == [];
    SmallLe(addr);
    SmallLe(2);
    assert CommandCodec.Fields([p], 0, CommandCodec.Plain) == Le(addr, 8) + Le(2, 8) + [];
  }
}
