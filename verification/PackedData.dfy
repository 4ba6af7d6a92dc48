/**
 Copying cells between padded and packed form (rsAllocation.cpp), and the same for
 vectors of three in the C++ client (cpp/Allocation.cpp).
 */
module PackedData {
  import opened Common

  type Data = seq<byte>

  /** A leaf of a structure: its size with and without padding, and how often it is repeated. */
  datatype Part = Part(padded: nat, unpadded: nat, count: nat)

  /** A cell without fields is one part. */
  ghost predicate GoodParts(ps: seq<Part>) {
    forall i :: 0 <= i < |ps| ==> 0 < ps[i].unpadded <= ps[i].padded && ps[i].count >= 1
  }

  function Size(p: Part, padded: bool): nat {
    if padded then p.padded else p.unpadded
  }

  /** getFieldOffsetBytes and getFieldOffsetBytesUnpadded. */
  function Off(ps: seq<Part>, i: nat, padded: bool): nat
    requires i <= |ps|
  {
    if i == 0 then 0 else Off(ps, i - 1, padded) + Times(Size(ps[i - 1], padded), ps[i - 1].count)
  }

  /** The size of a cell. */
  function Inc(ps: seq<Part>, padded: bool): nat {
    Off(ps, |ps|, padded)
  }

  lemma TimesAtLeast(a: nat, n: nat)
    requires n >= 1
    ensures Times(a, n) >= a
  {
    assert a * n == a + a * (n - 1);
  }

  /** The copied bytes of part f end before part g starts, and before the cell ends. */
  lemma {:induction false} PartsApart(ps: seq<Part>, f: nat, g: nat, padded: bool)
    requires GoodParts(ps) && f < g <= |ps|
    ensures Off(ps, f, padded) + ps[f].unpadded <= Off(ps, g, padded)
    decreases g
  {
    TimesAtLeast(Size(ps[g - 1], padded), ps[g - 1].count);
    if f < g - 1 {
      PartsApart(ps, f, g - 1, padded);
    }
  }

  /** The part, among the first n, whose copied bytes include byte q of the cell. */
  function PartAt(ps: seq<Part>, n: nat, padded: bool, q: nat): (r: Option<nat>)
    requires n <= |ps|
    ensures r.Some? ==> r.value < n && Off(ps, r.value, padded) <= q < Off(ps, r.value, padded) + ps[r.value].unpadded
  {
    if n == 0 then None
    else if Off(ps, n - 1, padded) <= q < Off(ps, n - 1, padded) + ps[n - 1].unpadded then Some(n - 1)
    else PartAt(ps, n - 1, padded, q)
  }

  lemma {:induction false} PartAtIs(ps: seq<Part>, n: nat, padded: bool, f: nat, q: nat)
    requires GoodParts(ps) && f < n <= |ps| && Off(ps, f, padded) <= q < Off(ps, f, padded) + ps[f].unpadded
    ensures PartAt(ps, n, padded, q) == Some(f)
    decreases n
  {
    if f < n - 1 {
      PartsApart(ps, f, n - 1, padded);
      PartAtIs(ps, n - 1, padded, f, q);
    }
  }

  // ------------------------------------------------------------------- One cell

  /** Byte q of cell d after the first n parts of cell s have been copied to it. */
  ghost function NewByte(ps: seq<Part>, n: nat, toPadded: bool, d: Data, s: Data, q: nat): byte
    requires GoodParts(ps) && n <= |ps| && q < |d| == Inc(ps, toPadded) && |s| == Inc(ps, !toPadded)
  {
    match PartAt(ps, n, toPadded, q)
    case Some(f) =>
      PartsApart(ps, f, |ps|, !toPadded);
      s[Off(ps, f, !toPadded) + (q - Off(ps, f, toPadded))]
    case None => d[q]
  }

  ghost function NewCell(ps: seq<Part>, n: nat, toPadded: bool, d: Data, s: Data): (r: Data)
    requires GoodParts(ps) && n <= |ps| && |d| == Inc(ps, toPadded) && |s| == Inc(ps, !toPadded)
    ensures |r| == |d|
  {
    seq(|d|, q requires 0 <= q < |d| => NewByte(ps, n, toPadded, d, s, q))
  }

  /** Byte q of a padded cell is not padding: it belongs to repetition k of part f. */
  ghost predicate Belongs(ps: seq<Part>, f: nat, k: nat, q: nat)
    requires f < |ps|
  {
    var start := Off(ps, f, true) + Times(ps[f].padded, k);
    k < ps[f].count && start <= q < start + ps[f].unpadded
  }

  /** Packing a cell and unpacking it into another one restores the copied bytes, and leaves the others. */
  lemma RoundTripByte(ps: seq<Part>, s: Data, u: Data, d: Data, q: nat)
    requires GoodParts(ps) && |s| == |d| == Inc(ps, true) && |u| == Inc(ps, false) && q < |d|
    ensures NewCell(ps, |ps|, true, d, NewCell(ps, |ps|, false, u, s))[q]
            == if PartAt(ps, |ps|, true, q).Some? then s[q] else d[q]
  {
    var packed := NewCell(ps, |ps|, false, u, s);
    match PartAt(ps, |ps|, true, q)
    case None =>
    case Some(f) =>
      PartsApart(ps, f, |ps|, false);
      var p := Off(ps, f, false) + (q - Off(ps, f, true));
      PartAtIs(ps, |ps|, false, f, p);
      assert packed[p] == NewByte(ps, |ps|, false, u, s, p);
  }

  lemma FirstRepetition(ps: seq<Part>, f: nat, q: nat)
    requires GoodParts(ps) && f < |ps| && Belongs(ps, f, 0, q)
    ensures PartAt(ps, |ps|, true, q) == Some(f)
  {
    assert Times(ps[f].padded, 0) == 0;
    PartAtIs(ps, |ps|, true, f, q);
  }

  /** All bytes that are not padding come back. */
  ghost predicate Restores(ps: seq<Part>, s: Data, u: Data, d: Data)
    requires GoodParts(ps) && |s| == |d| == Inc(ps, true) && |u| == Inc(ps, false)
  {
    forall f, k, q :: 0 <= f < |ps| && 0 <= k && 0 <= q < |d| && Belongs(ps, f, k, q) ==>
      NewCell(ps, |ps|, true, d, NewCell(ps, |ps|, false, u, s))[q] == s[q]
  }

  /** Without repetitions, everything but padding comes back. */
  lemma SingleRestores(ps: seq<Part>, s: Data, u: Data, d: Data)
    requires GoodParts(ps) && |s| == |d| == Inc(ps, true) && |u| == Inc(ps, false)
    requires forall i :: 0 <= i < |ps| ==> ps[i].count == 1
    ensures Restores(ps, s, u, d)
  {
    forall f, k, q | 0 <= f < |ps| && 0 <= k && 0 <= q < |d| && Belongs(ps, f, k, q)
      ensures NewCell(ps, |ps|, true, d, NewCell(ps, |ps|, false, u, s))[q] == s[q]
    {
      FirstRepetition(ps, f, q);
      RoundTripByte(ps, s, u, d, q);
    }
  }

  /** The second repetition of a part is not copied. */
  lemma {:induction false} SecondMissed(ps: seq<Part>, f: nat, n: nat, q: nat)
    requires GoodParts(ps) && f < |ps| && ps[f].count >= 2 && n <= |ps| && q == Off(ps, f, true) + ps[f].padded
    ensures PartAt(ps, n, true, q) == None
    decreases n
  {
    if n > 0 {
      SecondMissed(ps, f, n - 1, q);
      if n - 1 > f {
        NextStart(ps, f, n - 1);
      } else if n - 1 < f {
        PartsApart(ps, n - 1, f, true);
      }
    }
  }

  lemma {:induction false} NextStart(ps: seq<Part>, f: nat, g: nat)
    requires GoodParts(ps) && f < g <= |ps| && ps[f].count >= 2
    ensures Off(ps, g, true) >= Off(ps, f, true) + 2 * ps[f].padded
    decreases g
  {
    if f < g - 1 {
      NextStart(ps, f, g - 1);
    } else {
      TimesAtLeast(ps[f].padded, ps[f].count - 1);
      assert ps[f].padded * ps[f].count == ps[f].padded + ps[f].padded * (ps[f].count - 1);
    }
  }

  /** Cells come back for all contents exactly when no part is repeated. */
  lemma RestoresIffSingle(ps: seq<Part>)
    requires GoodParts(ps)
    ensures (forall s: Data, u: Data, d: Data ::
               |s| == |d| == Inc(ps, true) && |u| == Inc(ps, false) ==> Restores(ps, s, u, d))
            <==> forall i :: 0 <= i < |ps| ==> ps[i].count == 1
  {
    if forall i :: 0 <= i < |ps| ==> ps[i].count == 1 {
      forall s: Data, u: Data, d: Data | |s| == |d| == Inc(ps, true) && |u| == Inc(ps, false)
        ensures Restores(ps, s, u, d)
      {
        SingleRestores(ps, s, u, d);
      }
    } else {
      var f :| 0 <= f < |ps| && ps[f].count != 1;
      RepeatedLost(ps, f);
    }
  }

  lemma RepeatedLost(ps: seq<Part>, f: nat)
    requires GoodParts(ps) && f < |ps| && ps[f].count >= 2
    ensures exists s: Data, u: Data, d: Data ::
      |s| == |d| == Inc(ps, true) && |u| == Inc(ps, false) && !Restores(ps, s, u, d)
  {
    NextStart(ps, f, |ps|);
    var s, d, u := Fill(Inc(ps, true), 1), Fill(Inc(ps, true), 0), Fill(Inc(ps, false), 0);
    LosesSecond(ps, f, s, u, d);
  }

  function Fill(n: nat, b: byte): (s: Data)
    ensures |s| == n && forall i :: 0 <= i < n ==> s[i] == b
  {
    seq(n, i => b)
  }

  lemma LosesSecond(ps: seq<Part>, f: nat, s: Data, u: Data, d: Data)
    requires GoodParts(ps) && f < |ps| && ps[f].count >= 2
    requires |s| == |d| == Inc(ps, true) && |u| == Inc(ps, false)
    requires Off(ps, f, true) + ps[f].padded < |s|
    requires s[Off(ps, f, true) + ps[f].padded] != d[Off(ps, f, true) + ps[f].padded]
    ensures !Restores(ps, s, u, d)
  {
    var q := Off(ps, f, true) + ps[f].padded;
    SecondMissed(ps, f, |ps|, q);
    RoundTripByte(ps, s, u, d, q);
    assert Times(ps[f].padded, 1) == ps[f].padded;
    assert Belongs(ps, f, 1, q);
  }

  // ------------------------------------------------------------------ Many cells

  /** Where cell i starts. */
  function Base(inc: nat, i: nat): nat {
    if i == 0 then 0 else Base(inc, i - 1) + inc
  }

  lemma {:induction false} BaseGrows(inc: nat, i: nat, j: nat)
    requires i < j
    ensures Base(inc, i) + inc <= Base(inc, j)
    decreases j
  {
    if i < j - 1 {
      BaseGrows(inc, i, j - 1);
    }
  }

  function Cell(buf: Data, inc: nat, i: nat): Data
    requires Base(inc, i) + inc <= |buf|
  {
    buf[Base(inc, i)..Base(inc, i) + inc]
  }

  /** The bytes of x replace those of d from `at` on. */
  function Overlay(d: Data, at: nat, x: Data): (r: Data)
    requires at + |x| <= |d|
    ensures |r| == |d|
  {
    seq(|d|, i requires 0 <= i < |d| => if at <= i < at + |x| then x[i - at] else d[i])
  }

  /** memcpy. */
  method CopyBytes(dst: array<byte>, to: nat, x: Data)
    requires to + |x| <= dst.Length
    modifies dst
    ensures dst[..] == Overlay(old(dst[..]), to, x)
  {
    forall b | 0 <= b < |x| {
      dst[to + b] := x[b];
    }
  }

  lemma OverlayInCell(d: Data, at: nat, inc: nat, off: nat, x: Data)
    requires at + inc <= |d| && off + |x| <= inc
    ensures Overlay(d, at + off, x) == Overlay(d, at, Overlay(d[at..at + inc], off, x))
  {
  }

  lemma OverlayTwice(d: Data, at: nat, x: Data, y: Data)
    requires |x| == |y| && at + |x| <= |d|
    ensures Overlay(Overlay(d, at, x), at, y) == Overlay(d, at, y)
    ensures Overlay(d, at, x)[at..at + |x|] == x
  {
  }

  lemma OverlayMore(d0: Data, at: nat, x: Data, to: nat, piece: Data, y: Data)
    requires at + |x| <= |d0| && to + |piece| <= |x| && y == Overlay(x, to, piece)
    ensures Overlay(Overlay(d0, at, x), at + to, piece) == Overlay(d0, at, y)
  {
    OverlayTwice(d0, at, x, y);
    OverlayInCell(Overlay(d0, at, x), at, |x|, to, piece);
  }

  /** The bytes of part f in the cell s. */
  function Piece(ps: seq<Part>, f: nat, toPadded: bool, s: Data): (x: Data)
    requires GoodParts(ps) && f < |ps| && |s| == Inc(ps, !toPadded)
    ensures |x| == ps[f].unpadded && Off(ps, f, toPadded) + |x| <= Inc(ps, toPadded)
  {
    PartsApart(ps, f, |ps|, toPadded);
    PartsApart(ps, f, |ps|, !toPadded);
    s[Off(ps, f, !toPadded)..Off(ps, f, !toPadded) + ps[f].unpadded]
  }

  /** The buffer after the first n parts of s have been copied to the cell at `at`. */
  ghost function CopyParts(ps: seq<Part>, n: nat, toPadded: bool, s: Data, at: nat, d0: Data): (d: Data)
    requires GoodParts(ps) && n <= |ps| && |s| == Inc(ps, !toPadded) && at + Inc(ps, toPadded) <= |d0|
    ensures |d| == |d0|
    decreases n
  {
    if n == 0 then d0
    else
      var x := Piece(ps, n - 1, toPadded, s);
      Overlay(CopyParts(ps, n - 1, toPadded, s, at, d0), at + Off(ps, n - 1, toPadded), x)
  }

  /** x is the cell c after the first n parts of s have been copied to it. */
  ghost predicate IsCell(ps: seq<Part>, n: nat, toPadded: bool, c: Data, s: Data, x: Data)
    requires GoodParts(ps) && n <= |ps| && |c| == Inc(ps, toPadded) && |s| == Inc(ps, !toPadded)
  {
    forall k :: Key(k) ==> x == NewCell(ps, n, toPadded, c, s)
  }

  lemma NothingCopied(ps: seq<Part>, toPadded: bool, c: Data, s: Data)
    requires GoodParts(ps) && |c| == Inc(ps, toPadded) && |s| == Inc(ps, !toPadded)
    ensures IsCell(ps, 0, toPadded, c, s, c)
  {
    assert NewCell(ps, 0, toPadded, c, s) == c;
  }

  /** Copying one more part. */
  lemma CellPiece(ps: seq<Part>, f: nat, toPadded: bool, c: Data, s: Data, x: Data) returns (y: Data)
    requires GoodParts(ps) && f < |ps| && |c| == |x| == Inc(ps, toPadded) && |s| == Inc(ps, !toPadded)
    requires IsCell(ps, f, toPadded, c, s, x)
    ensures y == Overlay(x, Off(ps, f, toPadded), Piece(ps, f, toPadded, s)) && IsCell(ps, f + 1, toPadded, c, s, y)
  {
    assert Key(0);
    y := Overlay(x, Off(ps, f, toPadded), Piece(ps, f, toPadded, s));
    forall q: nat | q < |c|
      ensures y[q] == NewByte(ps, f + 1, toPadded, c, s, q)
    {
      PieceByte(ps, f, toPadded, c, s, x, q);
    }
    assert y == NewCell(ps, f + 1, toPadded, c, s);
  }

  lemma PieceByte(ps: seq<Part>, f: nat, toPadded: bool, c: Data, s: Data, x: Data, q: nat)
    requires GoodParts(ps) && f < |ps| && |x| == |c| == Inc(ps, toPadded) && |s| == Inc(ps, !toPadded) && q < |c|
    requires x == NewCell(ps, f, toPadded, c, s)
    ensures Overlay(x, Off(ps, f, toPadded), Piece(ps, f, toPadded, s))[q] == NewByte(ps, f + 1, toPadded, c, s, q)
  {
    ByteStep(ps, f, toPadded, c, s, q);
    assert x[q] == NewByte(ps, f, toPadded, c, s, q);
  }

  lemma ByteStep(ps: seq<Part>, f: nat, toPadded: bool, c: Data, s: Data, q: nat)
    requires GoodParts(ps) && f < |ps| && q < |c| == Inc(ps, toPadded) && |s| == Inc(ps, !toPadded)
    ensures var at, x := Off(ps, f, toPadded), Piece(ps, f, toPadded, s);
      NewByte(ps, f + 1, toPadded, c, s, q)
      == if at <= q < at + |x| then x[q - at] else NewByte(ps, f, toPadded, c, s, q)
  {
    var at, x := Off(ps, f, toPadded), Piece(ps, f, toPadded, s);
    PartsApart(ps, f, |ps|, !toPadded);
    assert PartAt(ps, f + 1, toPadded, q) == if at <= q < at + |x| then Some(f) else PartAt(ps, f, toPadded, q);
    if at <= q < at + |x| {
      assert x[q - at] == s[Off(ps, f, !toPadded) + (q - at)];
    } else {
      assert NewByte(ps, f + 1, toPadded, c, s, q) == NewByte(ps, f, toPadded, c, s, q);
    }
  }

  lemma OverlaySelf(d0: Data, at: nat, n: nat)
    requires at + n <= |d0|
    ensures Overlay(d0, at, d0[at..at + n]) == d0
  {
  }

  /** Copying the parts one after the other makes the new cell. */
  lemma {:induction false} PartsMakeCell(ps: seq<Part>, n: nat, toPadded: bool, s: Data, at: nat, d0: Data)
    returns (x: Data)
    requires GoodParts(ps) && n <= |ps| && |s| == Inc(ps, !toPadded) && at + Inc(ps, toPadded) <= |d0|
    ensures |x| == Inc(ps, toPadded) && IsCell(ps, n, toPadded, d0[at..at + Inc(ps, toPadded)], s, x)
    ensures CopyParts(ps, n, toPadded, s, at, d0) == Overlay(d0, at, x)
    decreases n
  {
    var c := d0[at..at + Inc(ps, toPadded)];
    if n == 0 {
      NothingCopied(ps, toPadded, c, s);
      OverlaySelf(d0, at, |c|);
      x := c;
    } else {
      var y := PartsMakeCell(ps, n - 1, toPadded, s, at, d0);
      x := CellPiece(ps, n - 1, toPadded, c, s, y);
      PartsStep(ps, n, toPadded, s, at, d0, y, x);
    }
  }

  lemma PartsStep(ps: seq<Part>, n: nat, toPadded: bool, s: Data, at: nat, d0: Data, y: Data, x: Data)
    requires GoodParts(ps) && 0 < n <= |ps| && |s| == Inc(ps, !toPadded) && at + Inc(ps, toPadded) <= |d0|
    requires |y| == Inc(ps, toPadded) && CopyParts(ps, n - 1, toPadded, s, at, d0) == Overlay(d0, at, y)
    requires x == Overlay(y, Off(ps, n - 1, toPadded), Piece(ps, n - 1, toPadded, s))
    ensures CopyParts(ps, n, toPadded, s, at, d0) == Overlay(d0, at, x)
  {
    OverlayMore(d0, at, y, Off(ps, n - 1, toPadded), Piece(ps, n - 1, toPadded, s), x);
  }

  /** The inner loop of writePackedData: the fields of one cell. */
  method CopyCell(ps: seq<Part>, toPadded: bool, dst: array<byte>, at: nat, s: Data)
    requires GoodParts(ps) && at + Inc(ps, toPadded) <= dst.Length && |s| == Inc(ps, !toPadded)
    modifies dst
    ensures dst[..] == Overlay(old(dst[..]), at, NewCell(ps, |ps|, toPadded, old(dst[at..at + Inc(ps, toPadded)]), s))
  {
    ghost var d0 := dst[..];
    var fI := 0;
    while fI < |ps|
      invariant 0 <= fI <= |ps| && dst[..] == CopyParts(ps, fI, toPadded, s, at, d0)
    {
      CopyBytes(dst, at + Off(ps, fI, toPadded), Piece(ps, fI, toPadded, s));
      fI := fI + 1;
    }
    ghost var x := PartsMakeCell(ps, |ps|, toPadded, s, at, d0);
    assert d0[at..at + Inc(ps, toPadded)] == old(dst[at..at + Inc(ps, toPadded)]);
    assert x == NewCell(ps, |ps|, toPadded, d0[at..at + Inc(ps, toPadded)], s) by {
      assert Key(0);
    }
  }

  /** The first n cells of d0 have been copied from src, and d is the result. */
  ghost predicate CellsCopied(ps: seq<Part>, n: nat, toPadded: bool, src: Data, d0: Data, d: Data)
    requires GoodParts(ps) && Base(Inc(ps, toPadded), n) <= |d0| && Base(Inc(ps, !toPadded), n) <= |src|
  {
    && |d| == |d0|
    && forall k :: Key(k) ==>
         && d[Base(Inc(ps, toPadded), n)..] == d0[Base(Inc(ps, toPadded), n)..]
         && forall i :: 0 <= i < n ==> CellCopied(ps, n, i, toPadded, src, d0, d)
  }

  ghost predicate CellCopied(ps: seq<Part>, n: nat, i: nat, toPadded: bool, src: Data, d0: Data, d: Data)
    requires GoodParts(ps) && i < n && Base(Inc(ps, toPadded), n) <= |d0| == |d| && Base(Inc(ps, !toPadded), n) <= |src|
  {
    BaseGrows(Inc(ps, toPadded), i, n);
    BaseGrows(Inc(ps, !toPadded), i, n);
    Cell(d, Inc(ps, toPadded), i)
    == NewCell(ps, |ps|, toPadded, Cell(d0, Inc(ps, toPadded), i), Cell(src, Inc(ps, !toPadded), i))
  }

  lemma OverlayOutside(d0: Data, d: Data, at: nat, x: Data, a: nat, b: nat)
    requires at + |x| <= |d0| && d == Overlay(d0, at, x) && a <= b <= |d0| && (b <= at || at + |x| <= a)
    ensures d[a..b] == d0[a..b]
  {
  }

  lemma {:induction false} BaseMonotone(inc: nat, i: nat, j: nat)
    requires i <= j
    ensures Base(inc, i) <= Base(inc, j)
    decreases j
  {
    if i < j {
      BaseMonotone(inc, i, j - 1);
    }
  }

  /** The cells before cell n stay as they are when cell n is copied. */
  lemma CellStays(ps: seq<Part>, n: nat, i: nat, toPadded: bool, src: Data, d0: Data, d: Data, d': Data, x: Data)
    requires GoodParts(ps) && i < n && |d0| == |d| && |x| == Inc(ps, toPadded)
    requires Base(Inc(ps, toPadded), n + 1) <= |d| && Base(Inc(ps, !toPadded), n + 1) <= |src|
    requires d' == Overlay(d, Base(Inc(ps, toPadded), n), x) && CellCopied(ps, n, i, toPadded, src, d0, d)
    ensures CellCopied(ps, n + 1, i, toPadded, src, d0, d')
  {
    BaseGrows(Inc(ps, toPadded), i, n);
    OverlayOutside(d, d', Base(Inc(ps, toPadded), n), x, Base(Inc(ps, toPadded), i),
                   Base(Inc(ps, toPadded), i) + Inc(ps, toPadded));
  }

  lemma TailCell(d0: Data, d: Data, a: nat, n: nat)
    requires |d0| == |d| && a + n <= |d| && d[a..] == d0[a..]
    ensures d[a..a + n] == d0[a..a + n] && d[a + n..] == d0[a + n..]
  {
    assert d[a..][..n] == d[a..a + n] && d0[a..][..n] == d0[a..a + n];
    assert d[a..][n..] == d[a + n..] && d0[a..][n..] == d0[a + n..];
  }

  lemma OverlayTail(d: Data, at: nat, x: Data)
    requires at + |x| <= |d|
    ensures Overlay(d, at, x)[at + |x|..] == d[at + |x|..] && Overlay(d, at, x)[at..at + |x|] == x
  {
  }

  /** Copying cell n, after the ones before it. */
  lemma CellsNext(ps: seq<Part>, n: nat, toPadded: bool, src: Data, d0: Data, d: Data, d': Data, x: Data)
    requires GoodParts(ps) && Base(Inc(ps, toPadded), n + 1) <= |d0| && Base(Inc(ps, !toPadded), n + 1) <= |src|
    requires CellsCopied(ps, n, toPadded, src, d0, d) && |x| == Inc(ps, toPadded)
    requires x == NewCell(ps, |ps|, toPadded, Cell(d, Inc(ps, toPadded), n), Cell(src, Inc(ps, !toPadded), n))
    requires d' == Overlay(d, Base(Inc(ps, toPadded), n), x)
    ensures CellsCopied(ps, n + 1, toPadded, src, d0, d')
  {
    assert Key(0);
    TailCell(d0, d, Base(Inc(ps, toPadded), n), Inc(ps, toPadded));
    CellsExtend(ps, n, toPadded, src, d0, d, d', x);
  }

  lemma CellsExtend(ps: seq<Part>, n: nat, toPadded: bool, src: Data, d0: Data, d: Data, d': Data, x: Data)
    requires GoodParts(ps) && Base(Inc(ps, toPadded), n + 1) <= |d0| && Base(Inc(ps, !toPadded), n + 1) <= |src|
    requires CellsCopied(ps, n, toPadded, src, d0, d) && |x| == Inc(ps, toPadded)
    requires d' == Overlay(d, Base(Inc(ps, toPadded), n), x)
    requires x == NewCell(ps, |ps|, toPadded, Cell(d0, Inc(ps, toPadded), n), Cell(src, Inc(ps, !toPadded), n))
    ensures CellsCopied(ps, n + 1, toPadded, src, d0, d')
  {
    assert Key(0);
    var at, m := Base(Inc(ps, toPadded), n), n + 1;
    TailCell(d0, d, at, |x|);
    OverlayTail(d, at, x);
    forall i | 0 <= i < n
      ensures CellCopied(ps, m, i, toPadded, src, d0, d')
    {
      CellStays(ps, n, i, toPadded, src, d0, d, d', x);
    }
    assert CellCopied(ps, m, n, toPadded, src, d0, d');
  }

  /** One round of the outer loop: the cell at s goes to the cell at d. */
  method CopyCellAt(ps: seq<Part>, ghost i: nat, dst: array<byte>, src: array<byte>, s: nat, d: nat, dstPadded: bool,
                    ghost d0: Data)
    requires GoodParts(ps) && dst != src && s == Base(Inc(ps, !dstPadded), i) && d == Base(Inc(ps, dstPadded), i)
    requires Base(Inc(ps, dstPadded), i + 1) <= dst.Length == |d0| && Base(Inc(ps, !dstPadded), i + 1) <= src.Length
    requires CellsCopied(ps, i, dstPadded, src[..], d0, dst[..])
    modifies dst
    ensures CellsCopied(ps, i + 1, dstPadded, src[..], d0, dst[..])
  {
    ghost var before := dst[..];
    var cell := src[s..s + Inc(ps, !dstPadded)];
    assert cell == Cell(src[..], Inc(ps, !dstPadded), i);
    CopyCell(ps, dstPadded, dst, d, cell);
    CellsNext(ps, i, dstPadded, src[..], d0, before, dst[..],
              NewCell(ps, |ps|, dstPadded, before[d..d + Inc(ps, dstPadded)], cell));
  }

  /** Allocation::writePackedData. */
  method WritePackedData(ps: seq<Part>, numItems: nat, dst: array<byte>, src: array<byte>, dstPadded: bool)
    requires GoodParts(ps) && dst != src
    requires Base(Inc(ps, dstPadded), numItems) <= dst.Length && Base(Inc(ps, !dstPadded), numItems) <= src.Length
    modifies dst
    ensures CellsCopied(ps, numItems, dstPadded, src[..], old(dst[..]), dst[..])
  {
    ghost var d0 := dst[..];
    var s, d, i := 0, 0, 0;
    while i < numItems
      invariant 0 <= i <= numItems && s == Base(Inc(ps, !dstPadded), i) && d == Base(Inc(ps, dstPadded), i)
      invariant Base(Inc(ps, dstPadded), i) <= |d0| && Base(Inc(ps, !dstPadded), i) <= src.Length
      invariant CellsCopied(ps, i, dstPadded, src[..], d0, dst[..])
    {
      BaseMonotone(Inc(ps, dstPadded), i + 1, numItems);
      BaseMonotone(Inc(ps, !dstPadded), i + 1, numItems);
      CopyCellAt(ps, i, dst, src, s, d, dstPadded, d0);
      s, d := s + Inc(ps, !dstPadded), d + Inc(ps, dstPadded);
      i := i + 1;
    }
  }

  /** Packing n cells and unpacking them works cell by cell. */
  lemma CellRoundTrip(ps: seq<Part>, n: nat, s: Data, u: Data, u': Data, d: Data, d': Data, i: nat)
    requires GoodParts(ps) && i < n
    requires Base(Inc(ps, true), n) <= |s| && Base(Inc(ps, false), n) <= |u| && Base(Inc(ps, true), n) <= |d|
    requires CellsCopied(ps, n, false, s, u, u') && CellsCopied(ps, n, true, u', d, d')
    ensures Base(Inc(ps, true), i) + Inc(ps, true) <= |s| && Base(Inc(ps, true), i) + Inc(ps, true) <= |d'|
    ensures Base(Inc(ps, false), i) + Inc(ps, false) <= |u|
    ensures Cell(d', Inc(ps, true), i)
            == NewCell(ps, |ps|, true, Cell(d, Inc(ps, true), i),
                       NewCell(ps, |ps|, false, Cell(u, Inc(ps, false), i), Cell(s, Inc(ps, true), i)))
  {
    assert Key(0);
    BaseGrows(Inc(ps, true), i, n);
    BaseGrows(Inc(ps, false), i, n);
    assert CellCopied(ps, n, i, false, s, u, u') && CellCopied(ps, n, i, true, u', d, d');
  }

  /** The buffer after the first n cells have been copied to it. */
  ghost function CopyCells(ps: seq<Part>, n: nat, toPadded: bool, src: Data, d0: Data): (d: Data)
    requires GoodParts(ps) && Base(Inc(ps, toPadded), n) <= |d0| && Base(Inc(ps, !toPadded), n) <= |src|
    ensures |d| == |d0|
    decreases n
  {
    if n == 0 then d0
    else
      var d := CopyCells(ps, n - 1, toPadded, src, d0);
      var x := NewCell(ps, |ps|, toPadded, Cell(d, Inc(ps, toPadded), n - 1), Cell(src, Inc(ps, !toPadded), n - 1));
      Overlay(d, Base(Inc(ps, toPadded), n - 1), x)
  }

  lemma {:induction false} CopyCellsIsCopied(ps: seq<Part>, n: nat, toPadded: bool, src: Data, d0: Data)
    requires GoodParts(ps) && Base(Inc(ps, toPadded), n) <= |d0| && Base(Inc(ps, !toPadded), n) <= |src|
    ensures CellsCopied(ps, n, toPadded, src, d0, CopyCells(ps, n, toPadded, src, d0))
  {
    if n > 0 {
      CopyCellsIsCopied(ps, n - 1, toPadded, src, d0);
      var d := CopyCells(ps, n - 1, toPadded, src, d0);
      var x := NewCell(ps, |ps|, toPadded, Cell(d, Inc(ps, toPadded), n - 1), Cell(src, Inc(ps, !toPadded), n - 1));
      CellsNext(ps, n - 1, toPadded, src, d0, d, CopyCells(ps, n, toPadded, src, d0), x);
    }
  }

  /** Buffers of n cells: two padded ones, and a packed one. */
  ghost predicate Buffers(ps: seq<Part>, n: nat, s: Data, u: Data, d: Data) {
    |s| == |d| == Base(Inc(ps, true), n) && |u| == Base(Inc(ps, false), n)
  }

  /** All bytes of cell i that are not padding are the same in both buffers. */
  ghost predicate CellRestored(ps: seq<Part>, n: nat, s: Data, d: Data, i: nat)
    requires i < n && |s| == |d| == Base(Inc(ps, true), n)
  {
    BaseGrows(Inc(ps, true), i, n);
    forall f, k, q :: 0 <= f < |ps| && 0 <= k && 0 <= q < Inc(ps, true) && Belongs(ps, f, k, q) ==>
      Cell(d, Inc(ps, true), i)[q] == Cell(s, Inc(ps, true), i)[q]
  }

  /** Packing n cells to u and unpacking them to d restores all of them. */
  ghost predicate AllRestored(ps: seq<Part>, n: nat, s: Data, u: Data, d: Data)
    requires GoodParts(ps) && Buffers(ps, n, s, u, d)
  {
    forall i: nat :: i < n ==> CellRestored(ps, n, s, Unpacked(ps, n, s, u, d), i)
  }

  ghost function Unpacked(ps: seq<Part>, n: nat, s: Data, u: Data, d: Data): (d': Data)
    requires GoodParts(ps) && Buffers(ps, n, s, u, d)
    ensures |d'| == |d|
  {
    CopyCells(ps, n, true, CopyCells(ps, n, false, s, u), d)
  }

  /** A cell of the buffers comes back exactly if it would on its own. */
  lemma CellRestoredIff(ps: seq<Part>, n: nat, s: Data, u: Data, d: Data, i: nat)
    requires GoodParts(ps) && Buffers(ps, n, s, u, d) && i < n
    ensures Base(Inc(ps, true), i) + Inc(ps, true) <= |s| && Base(Inc(ps, false), i) + Inc(ps, false) <= |u|
    ensures CellRestored(ps, n, s, Unpacked(ps, n, s, u, d), i)
            <==> Restores(ps, Cell(s, Inc(ps, true), i), Cell(u, Inc(ps, false), i), Cell(d, Inc(ps, true), i))
  {
    BaseGrows(Inc(ps, true), i, n);
    BaseGrows(Inc(ps, false), i, n);
    var u' := CopyCells(ps, n, false, s, u);
    CopyCellsIsCopied(ps, n, false, s, u);
    CopyCellsIsCopied(ps, n, true, u', d);
    CellRoundTrip(ps, n, s, u, u', d, Unpacked(ps, n, s, u, d), i);
  }

  /** The first cell of a buffer that starts with x. */
  lemma FirstCell(x: Data, rest: Data)
    ensures Base(|x|, 0) + |x| <= |x + rest| && Cell(x + rest, |x|, 0) == x
  {
  }

  /** n cells, of which the first is x. */
  ghost function StartingWith(x: Data, n: nat): (s: Data)
    requires n >= 1
    ensures |s| == Base(|x|, n) && Base(|x|, 0) + |x| <= |s| && Cell(s, |x|, 0) == x
  {
    BaseGrows(|x|, 0, n);
    FirstCell(x, Fill(Base(|x|, n) - |x|, 0));
    x + Fill(Base(|x|, n) - |x|, 0)
  }

  /** Any number of cells come back for all contents exactly when no part is repeated. */
  lemma AllRestoredIffSingle(ps: seq<Part>, n: nat)
    requires GoodParts(ps) && n >= 1
    ensures (forall s: Data, u: Data, d: Data :: Buffers(ps, n, s, u, d) ==> AllRestored(ps, n, s, u, d))
            <==> forall i :: 0 <= i < |ps| ==> ps[i].count == 1
  {
    if forall i :: 0 <= i < |ps| ==> ps[i].count == 1 {
      forall s: Data, u: Data, d: Data | Buffers(ps, n, s, u, d)
        ensures AllRestored(ps, n, s, u, d)
      {
        SingleAllRestored(ps, n, s, u, d);
      }
    } else {
      var f :| 0 <= f < |ps| && ps[f].count != 1;
      RepeatedLostInMany(ps, n, f);
    }
  }

  lemma SingleAllRestored(ps: seq<Part>, n: nat, s: Data, u: Data, d: Data)
    requires GoodParts(ps) && Buffers(ps, n, s, u, d) && forall i :: 0 <= i < |ps| ==> ps[i].count == 1
    ensures AllRestored(ps, n, s, u, d)
  {
    forall i: nat | i < n
      ensures CellRestored(ps, n, s, Unpacked(ps, n, s, u, d), i)
    {
      CellRestoredIff(ps, n, s, u, d, i);
      SingleRestores(ps, Cell(s, Inc(ps, true), i), Cell(u, Inc(ps, false), i), Cell(d, Inc(ps, true), i));
    }
  }

  lemma RepeatedLostInMany(ps: seq<Part>, n: nat, f: nat)
    requires GoodParts(ps) && n >= 1 && f < |ps| && ps[f].count >= 2
    ensures exists s: Data, u: Data, d: Data :: Buffers(ps, n, s, u, d) && !AllRestored(ps, n, s, u, d)
  {
    RepeatedLost(ps, f);
    var s0: Data, u0: Data, d0: Data :|
      |s0| == |d0| == Inc(ps, true) && |u0| == Inc(ps, false) && !Restores(ps, s0, u0, d0);
    var s, u, d := StartingWith(s0, n), StartingWith(u0, n), StartingWith(d0, n);
    CellRestoredIff(ps, n, s, u, d, 0);
    assert Buffers(ps, n, s, u, d) && !AllRestored(ps, n, s, u, d);
  }

  // ------------------------------------------------------- The client's vectors of three

  /** A vector of three components of m bytes each. */
  function Vec3(m: nat): (ps: seq<Part>)
    requires m > 0
    ensures GoodParts(ps)
  {
    [Part(m * 4, m * 3, 1)]
  }

  lemma Vec3Good(m: nat)
    requires m > 0
    ensures Inc(Vec3(m), true) == m * 4 && Inc(Vec3(m), false) == m * 3
  {
    assert Off(Vec3(m), 0, true) == 0 && Off(Vec3(m), 0, false) == 0;
    assert Off(Vec3(m), 1, true) == Times(m * 4, 1) && Off(Vec3(m), 1, false) == Times(m * 3, 1);
  }

  /** A cell of Vec3(m) is copied by one memcpy of its three components. */
  lemma Vec3Cell(m: nat, toPadded: bool, s: Data, d0: Data, at: nat)
    requires m > 0 && |s| == Inc(Vec3(m), !toPadded) && at + Inc(Vec3(m), toPadded) <= |d0|
    ensures m * 3 <= |s| && at + m * 3 <= |d0|
    ensures Overlay(d0, at, NewCell(Vec3(m), 1, toPadded, d0[at..at + Inc(Vec3(m), toPadded)], s))
            == Overlay(d0, at, s[..m * 3])
  {
    Vec3Good(m);
    assert Piece(Vec3(m), 0, toPadded, s) == s[0..m * 3] == s[..m * 3];
    assert CopyParts(Vec3(m), 0, toPadded, s, at, d0) == d0;
    var x := PartsMakeCell(Vec3(m), 1, toPadded, s, at, d0);
    assert Key(0);
  }

  /** ps is the one part of a vector of three components of m bytes. */
  ghost predicate IsVec3(ps: seq<Part>, m: nat) {
    forall k :: Key(k) ==> m > 0 && ps == Vec3(m)
  }

  /** One memcpy of copyWithPadding or copyWithUnPadding, from the cell s. */
  method CopyVec3Cell(dst: array<byte>, at: nat, s: Data, mSize: nat, padding: bool, ghost ps: seq<Part>)
    requires IsVec3(ps, mSize) && GoodParts(ps) && |ps| == 1
    requires |s| == Inc(ps, !padding) && at + Inc(ps, padding) <= dst.Length
    modifies dst
    ensures dst[..] == Overlay(old(dst[..]), at, NewCell(ps, 1, padding, old(dst[at..at + Inc(ps, padding)]), s))
  {
    assert Key(0);
    Vec3Cell(mSize, padding, s, dst[..], at);
    assert dst[..][at..at + Inc(ps, padding)] == dst[at..at + Inc(ps, padding)];
    CopyBytes(dst, at, s[..mSize * 3]);
  }

  /** One round of the loop. */
  method CopyVec3CellAt(ghost i: nat, dst: array<byte>, src: array<byte>, s: nat, d: nat, srcInc: nat, mSize: nat,
                        padding: bool, ghost ps: seq<Part>, ghost d0: Data)
    requires IsVec3(ps, mSize) && GoodParts(ps) && |ps| == 1 && dst != src && srcInc == Inc(ps, !padding)
    requires s == Base(Inc(ps, !padding), i) && d == Base(Inc(ps, padding), i)
    requires Base(Inc(ps, padding), i + 1) <= dst.Length == |d0| && Base(Inc(ps, !padding), i + 1) <= src.Length
    requires CellsCopied(ps, i, padding, src[..], d0, dst[..])
    modifies dst
    ensures CellsCopied(ps, i + 1, padding, src[..], d0, dst[..])
  {
    ghost var before := dst[..];
    var cell := src[s..s + srcInc];
    assert cell == Cell(src[..], srcInc, i);
    CopyVec3Cell(dst, d, cell, mSize, padding, ps);
    CellsNext(ps, i, padding, src[..], d0, before, dst[..],
              NewCell(ps, 1, padding, before[d..d + Inc(ps, padding)], cell));
  }

  /** The loop of copyWithPadding and of copyWithUnPadding. */
  method CopyVec3Cells(dst: array<byte>, src: array<byte>, mSize: nat, count: nat, padding: bool,
                       dstInc: nat, srcInc: nat, ghost ps: seq<Part>)
    requires IsVec3(ps, mSize) && GoodParts(ps) && |ps| == 1 && dst != src
    requires dstInc == Inc(ps, padding) && srcInc == Inc(ps, !padding)
    requires Base(dstInc, count) <= dst.Length && Base(srcInc, count) <= src.Length
    modifies dst
    ensures CellsCopied(ps, count, padding, src[..], old(dst[..]), dst[..])
  {
    ghost var d0 := dst[..];
    var s, d, i := 0, 0, 0;
    while i < count
      invariant 0 <= i <= count && s == Base(srcInc, i) && d == Base(dstInc, i)
      invariant Base(dstInc, i) <= |d0| && Base(srcInc, i) <= src.Length
      invariant CellsCopied(ps, i, padding, src[..], d0, dst[..])
    {
      BaseMonotone(dstInc, i + 1, count);
      BaseMonotone(srcInc, i + 1, count);
      CopyVec3CellAt(i, dst, src, s, d, srcInc, mSize, padding, ps, d0);
      s, d := s + srcInc, d + dstInc;
      i := i + 1;
    }
  }

  /** copyWithPadding and copyWithUnPadding do what writePackedData does on vectors of three. */
  method CopyVec3(dst: array<byte>, src: array<byte>, mSize: nat, count: nat, padding: bool)
    requires mSize > 0 && dst != src
    requires Base(Inc(Vec3(mSize), padding), count) <= dst.Length
    requires Base(Inc(Vec3(mSize), !padding), count) <= src.Length
    modifies dst
    ensures CellsCopied(Vec3(mSize), count, padding, src[..], old(dst[..]), dst[..])
  {
    Vec3Good(mSize);
    var sizeBytesPad, sizeBytes := mSize * 4, mSize * 3;
    if padding {
      CopyVec3Cells(dst, src, mSize, count, padding, sizeBytesPad, sizeBytes, Vec3(mSize));
    } else {
      CopyVec3Cells(dst, src, mSize, count, padding, sizeBytes, sizeBytesPad, Vec3(mSize));
    }
  }
}
