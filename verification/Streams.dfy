/** Output and input streams with aligned numbers (rsStream.h, rsStream.cpp). */
module Streams {
  import opened Common
  import opened Bytes

  type Data = seq<byte>

  /** The next multiple of four. */
  function Align4(pos: nat): (r: nat)
    ensures pos <= r < pos + 4
  {
    if pos == 0 then 0 else if pos <= 4 then 4 else 4 + Align4(pos - 4)
  }

  /** It is what the source's mask gives. */
  lemma {:induction false} Align4IsRoundUp(pos: nat)
    ensures Align4(pos) == (pos + 3) / 4 * 4
  {
    if pos > 4 {
      Align4IsRoundUp(pos - 4);
    }
  }

  // ---------------------------------------------------------------------- Tokens

  /** What one add call writes and one load call reads. */
  datatype Token = U8(b: byte) | U32(n: u32) | Str(s: Data)

  /** Numbers and strings start at a multiple of four; a string starts with its length. */
  function TokenEnd(at: nat, t: Token): (end: nat)
    ensures end >= at
  {
    match t
    case U8(_) => at + 1
    case U32(_) => Align4(at) + 4
    case Str(s) => Align4(at) + 4 + |s|
  }

  ghost function TokenBytes(t: Token): Data {
    match t
    case U8(b) => [b]
    case U32(n) => Le(n, 4)
    case Str(s) => Le(|s|, 4) + s
  }

  ghost function TokenStart(at: nat, t: Token): nat {
    if t.U8? then at else Align4(at)
  }

  /** Bytes between `at` and the start of a number are padding, and can be anything. */
  ghost predicate TokenAt(d: Data, at: nat, t: Token) {
    TokenEnd(at, t) <= |d| && d[TokenStart(at, t)..TokenEnd(at, t)] == TokenBytes(t)
  }

  function End(at: nat, ts: seq<Token>): (end: nat)
    ensures end >= at
    decreases |ts|
  {
    if ts == [] then at else End(TokenEnd(at, ts[0]), ts[1..])
  }

  ghost predicate AllAt(d: Data, at: nat, ts: seq<Token>)
    decreases |ts|
  {
    ts == [] || (TokenAt(d, at, ts[0]) && AllAt(d, TokenEnd(at, ts[0]), ts[1..]))
  }

  lemma {:induction false} AllAtConcat(d: Data, at: nat, ts: seq<Token>, us: seq<Token>)
    ensures End(at, ts + us) == End(End(at, ts), us)
    ensures AllAt(d, at, ts + us) <==> AllAt(d, at, ts) && AllAt(d, End(at, ts), us)
    decreases |ts|
  {
    if ts == [] {
      assert ts + us == us;
    } else {
      assert (ts + us)[1..] == ts[1..] + us;
      AllAtConcat(d, TokenEnd(at, ts[0]), ts[1..], us);
    }
  }

  lemma FirstToken(d: Data, at: nat, t: Token, rest: seq<Token>)
    ensures AllAt(d, at, [t] + rest) <==> TokenAt(d, at, t) && AllAt(d, TokenEnd(at, t), rest)
    ensures End(at, [t] + rest) == End(TokenEnd(at, t), rest)
  {
    assert ([t] + rest)[1..] == rest;
  }

  lemma TokenAtPrefix(d: Data, d': Data, at: nat, t: Token)
    requires d <= d' && TokenAt(d, at, t)
    ensures TokenAt(d', at, t)
  {
    assert d'[TokenStart(at, t)..TokenEnd(at, t)] == d[TokenStart(at, t)..TokenEnd(at, t)];
  }

  /** Written tokens stay when more is written after them. */
  lemma {:induction false} AllAtPrefix(d: Data, d': Data, at: nat, ts: seq<Token>)
    requires d <= d' && AllAt(d, at, ts)
    ensures AllAt(d', at, ts)
    decreases |ts|
  {
    if ts != [] {
      TokenAtPrefix(d, d', at, ts[0]);
      AllAtPrefix(d, d', TokenEnd(at, ts[0]), ts[1..]);
    }
  }

  /** Writing the tokens after d gives d'. */
  ghost predicate Wrote(d: Data, d': Data, ts: seq<Token>) {
    forall k :: Key(k) ==> d <= d' && |d'| == End(|d|, ts) && AllAt(d', |d|, ts)
  }

  lemma WroteNone(d: Data)
    ensures Wrote(d, d, [])
  {
  }

  lemma WroteBoth(d: Data, d1: Data, d2: Data, ts: seq<Token>, us: seq<Token>)
    requires Wrote(d, d1, ts) && Wrote(d1, d2, us)
    ensures Wrote(d, d2, ts + us)
  {
    assert Key(0);
    AllAtPrefix(d1, d2, |d|, ts);
    AllAtConcat(d2, |d|, ts, us);
  }

  lemma WroteOne(d: Data, d': Data, t: Token)
    requires d <= d' && |d'| == TokenEnd(|d|, t) && d'[TokenStart(|d|, t)..] == TokenBytes(t)
    ensures Wrote(d, d', [t])
  {
    assert [t][1..] == [];
    assert End(|d|, [t]) == End(TokenEnd(|d|, t), []);
    assert d'[TokenStart(|d|, t)..] == d'[TokenStart(|d|, t)..|d'|];
    assert TokenAt(d', |d|, t) && AllAt(d', |d|, [t]);
  }

  lemma StringFromParts(d: Data, d1: Data, s: Data)
    requires |s| < TWO_32 && Wrote(d, d1, [U32(|s|)])
    ensures Wrote(d, d1 + s, [Str(s)])
  {
    assert Key(0);
    var d2, p := d1 + s, Align4(|d|);
    assert [U32(|s|)][1..] == [];
    assert |d1| == End(TokenEnd(|d|, U32(|s|)), []) == p + 4;
    assert d2[p..] == d1[p..p + 4] + s;
    WroteOne(d, d2, Str(s));
  }

  /** The tokens stand in d from `at` to `end`. */
  ghost predicate Holds(d: Data, at: nat, ts: seq<Token>, end: nat) {
    forall k :: Key(k) ==> AllAt(d, at, ts) && End(at, ts) == end
  }

  lemma HoldsSplit(d: Data, at: nat, ts: seq<Token>, us: seq<Token>, end: nat) returns (mid: nat)
    requires Holds(d, at, ts + us, end)
    ensures Holds(d, at, ts, mid) && Holds(d, mid, us, end)
  {
    assert Key(0);
    AllAtConcat(d, at, ts, us);
    mid := End(at, ts);
  }

  lemma HoldsFirst(d: Data, at: nat, t: Token, rest: seq<Token>, end: nat)
    requires Holds(d, at, [t] + rest, end)
    ensures TokenAt(d, at, t) && Holds(d, TokenEnd(at, t), rest, end)
  {
    assert Key(0);
    FirstToken(d, at, t, rest);
  }

  lemma WroteHolds(d: Data, d': Data, ts: seq<Token>)
    requires Wrote(d, d', ts)
    ensures d <= d' && Holds(d', |d|, ts, |d'|)
  {
    assert Key(0);
  }

  /** Tokens stay where they are when more is written after them. */
  lemma HoldsPrefix(d: Data, d': Data, at: nat, ts: seq<Token>, end: nat)
    requires d <= d' && Holds(d, at, ts, end)
    ensures Holds(d', at, ts, end)
  {
    assert Key(0);
    AllAtPrefix(d, d', at, ts);
  }

  lemma HoldsNone(d: Data, at: nat, end: nat)
    requires Holds(d, at, [], end)
    ensures end == at
  {
    assert Key(0);
  }

  // --------------------------------------------------------------------- Reading

  datatype Parsed<+T> = Got(value: T, next: nat) | Null | Broken

  /** IStream::loadU8; reading past the end of the data is Broken. */
  function ReadU8(d: Data, at: nat): Parsed<byte> {
    if at < |d| then Got(d[at], at + 1) else Broken
  }

  function U32At(d: Data, p: nat): u32
    requires p + 4 <= |d|
  {
    var b0: int, b1: int, b2: int, b3: int := d[p], d[p + 1], d[p + 2], d[p + 3];
    b0 + 0x100 * b1 + 0x1_0000 * b2 + 0x100_0000 * b3
  }

  function ReadU32(d: Data, at: nat): Parsed<u32> {
    var p := Align4(at);
    if p + 4 <= |d| then Got(U32At(d, p), p + 4) else Broken
  }

  lemma U32AtIsLe(d: Data, p: nat)
    requires p + 4 <= |d|
    ensures U32At(d, p) == FromLe(d[p..p + 4])
  {
    var s := d[p..p + 4];
    assert s[1..][1..] == s[2..] && s[2..][1..] == s[3..] && s[3..][1..] == [];
    assert FromLe(s[3..]) == s[3] && FromLe(s[2..]) == s[2] + 256 * FromLe(s[3..]);
    assert FromLe(s[1..]) == s[1] + 256 * FromLe(s[2..]);
  }

  function ReadString(d: Data, at: nat): Parsed<Data> {
    match ReadU32(d, at)
    case Got(n, p) => if p + n <= |d| then Got(d[p..p + n], p + n) else Broken
    case _ => Broken
  }

  lemma ReadsU8(d: Data, at: nat, b: byte)
    requires TokenAt(d, at, U8(b))
    ensures ReadU8(d, at) == Got(b, TokenEnd(at, U8(b)))
  {
    assert d[at..at + 1] == [d[at]];
  }

  lemma ReadsU32(d: Data, at: nat, n: u32)
    requires TokenAt(d, at, U32(n))
    ensures ReadU32(d, at) == Got(n, TokenEnd(at, U32(n)))
  {
    U32AtIsLe(d, Align4(at));
    assert Pow256(4) == TWO_32;
    LeRoundTrip(n, 4);
  }

  lemma SliceOfTwo(d: Data, p: nat, a: Data, b: Data)
    requires p + |a| + |b| <= |d| && d[p..p + |a| + |b|] == a + b
    ensures d[p..p + |a|] == a && d[p + |a|..p + |a| + |b|] == b
  {
    var all := d[p..p + |a| + |b|];
    assert all[..|a|] == d[p..p + |a|] && all[|a|..] == d[p + |a|..p + |a| + |b|];
  }

  lemma ReadsString(d: Data, at: nat, s: Data)
    requires TokenAt(d, at, Str(s)) && |s| < TWO_32
    ensures ReadString(d, at) == Got(s, TokenEnd(at, Str(s)))
  {
    SliceOfTwo(d, Align4(at), Le(|s|, 4), s);
    U32AtIsLe(d, Align4(at));
    assert Pow256(4) == TWO_32;
    LeRoundTrip(|s|, 4);
  }

  // ---------------------------------------------------------------- Output stream

  /** The size of a buffer after a number has been added at `pos`. */
  function LengthAfterU32(pos: nat, length: nat): nat {
    if Align4(pos) + 4 >= length then 2 * length else length
  }

  /** A single growth makes room for n characters after their length. */
  predicate StringFits(pos: nat, length: nat, n: nat) {
    Align4(pos) + 4 + n < 2 * LengthAfterU32(pos, length)
  }

  /** That is so, wherever the position is, exactly for strings that are not much longer than the buffer. */
  lemma StringAlwaysFits(length: nat, n: nat)
    requires length >= 8 && length % 4 == 0
    ensures (forall pos: nat :: pos < length ==> StringFits(pos, length, n)) <==> n < length + 4
  {
    Align4IsRoundUp(length - 8);
    assert n >= length + 4 ==> !StringFits(length - 8, length, n);
    forall pos: nat | pos < length && n < length + 4
      ensures StringFits(pos, length, n)
    {
      Align4IsRoundUp(pos);
    }
  }

  lemma ShortStringFits(pos: nat, length: nat, n: nat)
    requires pos < length && length >= 8 && n <= length
    ensures StringFits(pos, length, n)
  {
  }

  /** The buffer has room for one more byte at the position, whatever has been added. */
  class OStream {
    var data: array<byte>
    var pos: nat

    ghost predicate Valid()
      reads this
    {
      data.Length >= 8 && pos < data.Length
    }

    ghost function Written(): Data
      reads this, data
      requires Valid()
    {
      data[..pos]
    }

    constructor (length: nat)
      requires length >= 8
      ensures Valid() && fresh(data) && data.Length == length && Written() == []
    {
      data := new byte[length];
      pos := 0;
    }

    /** OStream::growSize. */
    method GrowSize()
      requires data.Length >= 8
      modifies this`data
      ensures fresh(data) && data.Length == 2 * old(data.Length)
      ensures data[..old(data.Length)] == old(data[..])
    {
      var d := new byte[2 * data.Length];
      forall i | 0 <= i < data.Length {
        d[i] := data[i];
      }
      assert d[..data.Length] == data[..];
      data := d;
    }

    /** Makes room for n bytes after `from`, growing at most once. */
    method Reserve(from: nat, n: nat)
      requires Valid() && from >= pos && from + n < 2 * data.Length
      modifies this
      ensures Valid() && pos == old(pos) && from + n < data.Length
      ensures data.Length == if from + n >= old(data.Length) then 2 * old(data.Length) else old(data.Length)
      ensures Written() == old(Written())
      ensures data == old(data) || fresh(data)
    {
      if from + n >= data.Length {
        GrowSize();
        assert data[..pos] == data[..old(data.Length)][..pos];
      }
    }

    /** Stores the bytes of a token, which starts at `from`. */
    method Store(from: nat, s: Data, ghost t: Token)
      requires Valid() && from == TokenStart(pos, t) && s == TokenBytes(t) && from + |s| == TokenEnd(pos, t)
      requires from + |s| < data.Length
      modifies this`pos, data
      ensures Valid() && Wrote(old(Written()), Written(), [t]) && data == old(data) && pos == TokenEnd(old(pos), t)
    {
      forall i | 0 <= i < |s| {
        data[from + i] := s[i];
      }
      ghost var before := old(data[..pos]);
      assert data[..pos] == before;
      pos := from + |s|;
      assert data[..pos][from..] == data[from..pos] == s;
      WroteOne(before, data[..pos], t);
    }

    /** OStream::addU8. */
    method AddU8(b: byte)
      requires Valid()
      modifies this, data
      ensures Valid() && Wrote(old(Written()), Written(), [U8(b)])
      ensures data.Length >= old(data.Length) && (data == old(data) || fresh(data))
    {
      Reserve(pos, 1);
      Store(pos, [b], U8(b));
    }

    /** OStream::addU32. */
    method AddU32(n: u32)
      requires Valid()
      modifies this, data
      ensures Valid() && Wrote(old(Written()), Written(), [U32(n)]) && pos == Align4(old(pos)) + 4
      ensures data.Length == LengthAfterU32(old(pos), old(data.Length)) && (data == old(data) || fresh(data))
    {
      Reserve(Align4(pos), 4);
      Store(Align4(pos), Le(n, 4), U32(n));
    }

    /** OStream::addOffset on a stream that was opened for 32-bit offsets, as all output streams are. */
    method AddOffset(v: nat)
      requires Valid()
      modifies this, data
      ensures Valid() && Wrote(old(Written()), Written(), [U32(v % TWO_32)])
      ensures data.Length >= old(data.Length) && (data == old(data) || fresh(data))
    {
      AddU32(v % TWO_32);
    }

    /** Appends bytes for which there is room. */
    method StoreBytes(s: Data)
      requires Valid() && pos + |s| < data.Length
      modifies this`pos, data
      ensures Valid() && Written() == old(Written()) + s && data == old(data)
    {
      forall i | 0 <= i < |s| {
        data[pos + i] := s[i];
      }
      pos := pos + |s|;
    }

    /** OStream::addString; the buffer grows at most once for the characters. */
    method AddString(s: Data)
      requires Valid() && StringFits(pos, data.Length, |s|) && |s| < TWO_32
      modifies this, data
      ensures Valid() && Wrote(old(Written()), Written(), [Str(s)])
      ensures data.Length >= old(data.Length) && (data == old(data) || fresh(data))
    {
      AddU32(|s|);
      ghost var d1 := Written();
      Reserve(pos, |s|);
      StoreBytes(s);
      StringFromParts(old(Written()), d1, s);
    }

    /** OStream::addByteArray grows as often as needed. */
    method AddByteArray(s: Data)
      requires Valid()
      modifies this, data
      ensures Valid() && Written() == old(Written()) + s
      ensures data.Length >= old(data.Length) && (data == old(data) || fresh(data))
    {
      while pos + |s| >= data.Length
        modifies this`data
        invariant Valid() && pos == old(pos) && Written() == old(Written()) && data.Length >= old(data.Length)
        invariant data == old(data) || fresh(data)
        decreases pos + |s| - data.Length
      {
        ghost var before := data[..];
        GrowSize();
        assert data[..pos] == data[..|before|][..pos];
      }
      StoreBytes(s);
    }

    /** OStream::align(4), whose mask has 32 bits. */
    method Align()
      requires Valid()
      modifies this, data
      ensures pos == Align4(old(pos)) % TWO_32
      ensures Align4(old(pos)) < TWO_32 ==> Valid() && old(Written()) <= Written()
      ensures data.Length >= old(data.Length) && (data == old(data) || fresh(data))
    {
      ghost var d, p := data[..pos], pos;
      pos := Align4(pos) % TWO_32;
      if pos >= data.Length {
        GrowSize();
        assert data[..p] == data[..old(data.Length)][..p];
      }
    }
  }

  // ----------------------------------------------------------------- Input stream

  /** The source does not check for the end of the data: callers must not read past it. */
  class IStream {
    const data: Data
    var pos: nat

    constructor (data: Data)
      ensures this.data == data && pos == 0
    {
      this.data := data;
      pos := 0;
    }

    /** IStream::loadU8. */
    method LoadU8() returns (b: byte)
      requires ReadU8(data, pos) != Broken
      modifies this
      ensures ReadU8(data, old(pos)) == Got(b, pos)
    {
      b := data[pos];
      pos := pos + 1;
    }

    /** IStream::loadU32. */
    method LoadU32() returns (n: u32)
      requires ReadU32(data, pos) != Broken
      modifies this
      ensures ReadU32(data, old(pos)) == Got(n, pos)
    {
      pos := Align4(pos);
      n := U32At(data, pos);
      pos := pos + 4;
    }

    /** IStream::loadString. */
    method LoadString() returns (s: Data)
      requires ReadString(data, pos) != Broken
      modifies this
      ensures ReadString(data, old(pos)) == Got(s, pos)
    {
      var n := LoadU32();
      s := data[pos..pos + n];
      pos := pos + n;
    }

    /** IStream::reset. */
    method Reset(pos: nat)
      modifies this
      ensures this.pos == pos
    {
      this.pos := pos;
    }
  }
}
