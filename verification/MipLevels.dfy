/**
 Mip levels and cell counts of a type, as the core computes them (rsType.cpp,
 rsCppUtils.h) and as the C++ client does (cpp/Type.cpp).
 */
module MipLevels {
  import opened Common

  function Max(a: nat, b: nat): nat {
    if a < b then b else a
  }

  /** rsFindHighBit. */
  function HighBit(v: nat): nat {
    if v <= 1 then 0 else 1 + HighBit(v / 2)
  }

  /** One step down: dimensions above 1 are halved. */
  function Halve(d: nat): nat {
    if d > 1 then d / 2 else d
  }

  function Level(d: nat, i: nat): nat {
    if i == 0 then d else Halve(Level(d, i - 1))
  }

  function Pow2(i: nat): (p: nat)
    ensures p >= 1
  {
    if i == 0 then 1 else 2 * Pow2(i - 1)
  }

  /** The high bit of v stands for the largest power of two that is not above v. */
  lemma {:induction false} HighBitBounds(v: nat)
    requires v >= 1
    ensures Pow2(HighBit(v)) <= v < Pow2(HighBit(v) + 1)
  {
    if v > 1 {
      HighBitBounds(v / 2);
    }
  }

  /** Level i of a nonzero dimension d is d >> i, but at least 1. */
  lemma {:induction false} LevelIsShift(d: nat, i: nat)
    requires d >= 1
    ensures Level(d, i) == Max(1, d / Pow2(i))
  {
    if i > 0 {
      LevelIsShift(d, i - 1);
      DivTwice(d, Pow2(i - 1));
    }
  }

  lemma DivTwice(d: nat, p: nat)
    requires p >= 1
    ensures d / (2 * p) == d / p / 2
  {
    var q, r := d / p, d % p;
    assert d == p * q + r;
    var h, b := q / 2, q % 2;
    assert q == 2 * h + b;
    assert d == (2 * p) * h + (p * b + r);
    assert b == 0 || b == 1;
    assert 0 <= p * b + r < 2 * p;
    QuotientIs(d, 2 * p, h, p * b + r);
  }

  lemma QuotientIs(d: nat, p: nat, q: nat, r: nat)
    requires p >= 1 && d == p * q + r && r < p
    ensures d / p == q
  {
    UniqueQuotient(p, q, r, d / p, d % p);
  }

  lemma UniqueQuotient(p: nat, q: nat, r: nat, q': nat, r': nat)
    requires p * q + r == p * q' + r' && r < p && r' < p
    ensures q == q'
  {
    assert p * (q + 1) == p * q + p && p * (q' + 1) == p * q' + p;
    if q < q' {
      MulMonotone(p, q + 1, q');
    } else if q' < q {
      MulMonotone(p, q' + 1, q);
    }
  }

  lemma MulMonotone(p: nat, a: nat, b: nat)
    requires a <= b
    ensures p * a <= p * b
  {
  }

  /** Levels above the high bit are 1, and the others are not. */
  lemma {:induction false} LevelAboveOne(d: nat, i: nat)
    ensures Level(d, i) > 1 <==> i < HighBit(d)
  {
    if i > 0 {
      if d <= 1 {
        LevelAboveOne(d, i - 1);
      } else {
        LevelShift(d, i);
        LevelAboveOne(d / 2, i - 1);
      }
    }
  }

  lemma {:induction false} LevelShift(d: nat, i: nat)
    requires i > 0 && d > 1
    ensures Level(d, i) == Level(d / 2, i - 1)
  {
    if i > 1 {
      LevelShift(d, i - 1);
    } else {
      assert Level(d, 0) == d;
    }
  }

  // ------------------------------------------------------------------ Cell counts

  /** The extents of a type that is not YUV. */
  datatype Dims = Dims(x: u32, y: u32, z: u32, mipmaps: bool, faces: bool)

  /** The number of levels. */
  function LodCount(t: Dims): (n: nat)
    ensures n >= 1
  {
    if t.mipmaps then Max(Max(HighBit(t.x), HighBit(t.y)), HighBit(t.z)) + 1 else 1
  }

  function Faces(t: Dims): nat {
    if t.faces then 6 else 1
  }

  /** Cells of a level of one face; a missing y or z counts as 1. */
  function Cells(x: nat, y: nat, z: nat): nat {
    x * (Max(y, 1) * Max(z, 1))
  }

  function LevelCells(t: Dims, i: nat): nat {
    Cells(Level(t.x, i), Level(t.y, i), Level(t.z, i))
  }

  /** Cells of the first n levels of one face, without overflow. */
  ghost function Total(t: Dims, n: nat): nat {
    if n == 0 then 0 else Total(t, n - 1) + LevelCells(t, n - 1)
  }

  /** The core's sum: each product has 32 bits, and the sum has 64. */
  ghost function CoreSum(t: Dims, n: nat): nat {
    if n == 0 then 0 else CoreSum(t, n - 1) + LevelCells(t, n - 1) % TWO_32
  }

  /** What Type::compute leaves in mCellCount. */
  ghost function CoreCount(t: Dims): nat {
    CoreSum(t, LodCount(t)) * Faces(t)
  }

  /** What calcElementCount leaves in mElementCount: a missing x counts as 1, and everything has 32 bits. */
  ghost function ClientCount(t: Dims): u32 {
    var t' := if t.x == 0 then t.(x := 1) else t;
    Total(t', LodCount(t')) * Faces(t') % TWO_32
  }

  lemma {:induction false} CoreSumMod(t: Dims, n: nat)
    ensures CoreSum(t, n) % TWO_32 == Total(t, n) % TWO_32
  {
    if n > 0 {
      CoreSumMod(t, n - 1);
      AddMod(CoreSum(t, n - 1), Total(t, n - 1), LevelCells(t, n - 1));
    }
  }

  lemma AddMod(a: nat, b: nat, c: nat)
    requires a % TWO_32 == b % TWO_32
    ensures (a + c % TWO_32) % TWO_32 == (b + c) % TWO_32
  {
  }

  lemma SixMod(a: nat, b: nat)
    requires a % TWO_32 == b % TWO_32
    ensures a * 6 % TWO_32 == b * 6 % TWO_32
  {
    var p, q, r := a / TWO_32, b / TWO_32, a % TWO_32;
    assert a * 6 == r * 6 + TWO_32 * (p * 6) && b * 6 == r * 6 + TWO_32 * (q * 6);
    AddMultiple(r * 6, p * 6);
    AddMultiple(r * 6, q * 6);
  }

  lemma FacesMod(a: nat, b: nat, faces: nat)
    requires a % TWO_32 == b % TWO_32 && (faces == 1 || faces == 6)
    ensures a * faces % TWO_32 == b * faces % TWO_32
  {
    SixMod(a, b);
  }

  lemma CutIsSame(n: nat)
    ensures n % TWO_32 == n <==> n < TWO_32
  {
  }

  lemma {:induction false} NoCells(t: Dims, n: nat)
    requires t.x == 0
    ensures CoreSum(t, n) == 0
  {
    if n > 0 {
      NoCells(t, n - 1);
      ZeroLevel(n - 1);
    }
  }

  lemma {:induction false} ZeroLevel(i: nat)
    ensures Level(0, i) == 0
  {
    if i > 0 {
      ZeroLevel(i - 1);
    }
  }

  // -------------------------------------------------------- The size of the chain

  lemma LevelPositive(d: nat, i: nat)
    requires d >= 1
    ensures Level(d, i) >= 1
  {
    LevelIsShift(d, i);
  }

  lemma MulBoth(a: nat, b: nat, c: nat, d: nat)
    requires a <= b && c <= d
    ensures a * c <= b * d
  {
    MulMonotone(c, a, b);
    MulMonotone(b, c, d);
  }

  lemma ProductHalves(x: nat, y: nat, z: nat, x': nat, y': nat, z': nat)
    requires x' <= x && y' <= y && z' <= z
    requires 2 * x' <= x || 2 * y' <= y || 2 * z' <= z
    ensures 2 * (x' * (y' * z')) <= x * (y * z)
  {
    MulBoth(y', y, z', z);
    if 2 * x' <= x {
      FactorHalves(y' * z', y * z, x', x);
    } else {
      if 2 * y' <= y {
        FactorHalves(z', z, y', y);
      } else {
        FactorHalves(y', y, z', z);
      }
      FactorHalves(x', x, y' * z', y * z);
    }
  }

  lemma FactorHalves(a: nat, b: nat, c: nat, d: nat)
    requires a <= b && 2 * c <= d
    ensures 2 * (a * c) <= b * d && 2 * (c * a) <= d * b
  {
    MulBoth(a, b, 2 * c, d);
    assert a * (2 * c) == 2 * (a * c);
  }

  /** A level below another one has at most half its cells. */
  lemma LevelHalves(t: Dims, i: nat)
    requires t.x >= 1 && t.mipmaps && i + 1 < LodCount(t)
    ensures 2 * LevelCells(t, i + 1) <= LevelCells(t, i)
  {
    LevelAboveOne(t.x, i);
    LevelAboveOne(t.y, i);
    LevelAboveOne(t.z, i);
    ProductHalves(Level(t.x, i), Max(Level(t.y, i), 1), Max(Level(t.z, i), 1),
                  Level(t.x, i + 1), Max(Level(t.y, i + 1), 1), Max(Level(t.z, i + 1), 1));
  }

  lemma CellsPositive(t: Dims, i: nat)
    requires t.x >= 1
    ensures LevelCells(t, i) >= 1
  {
    LevelPositive(t.x, i);
    MulBoth(1, Max(Level(t.y, i), 1), 1, Max(Level(t.z, i), 1));
    MulBoth(1, Level(t.x, i), 1, Max(Level(t.y, i), 1) * Max(Level(t.z, i), 1));
  }

  lemma {:induction false} ChainBound(t: Dims, n: nat)
    requires t.x >= 1 && 1 <= n <= LodCount(t)
    ensures Total(t, n) + LevelCells(t, n - 1) <= 2 * LevelCells(t, 0)
  {
    if n > 1 {
      ChainBound(t, n - 1);
      LevelHalves(t, n - 2);
    }
  }

  /** All levels of a face together have fewer than twice the cells of its first level. */
  lemma ChainBelowTwice(t: Dims)
    requires t.x >= 1
    ensures Total(t, LodCount(t)) < 2 * LevelCells(t, 0)
  {
    ChainBound(t, LodCount(t));
    CellsPositive(t, LodCount(t) - 1);
  }

  // ------------------------------------------------------------- When counts are right

  /** Cells of all levels of all faces, without overflow. */
  ghost function TrueCount(t: Dims): nat {
    Total(t, LodCount(t)) * Faces(t)
  }

  lemma {:induction false} CoreSumExact(t: Dims, n: nat)
    ensures CoreSum(t, n) <= Total(t, n)
    ensures CoreSum(t, n) == Total(t, n) <==> forall i :: 0 <= i < n ==> LevelCells(t, i) < TWO_32
  {
    if n > 0 {
      CoreSumExact(t, n - 1);
      CutIsSame(LevelCells(t, n - 1));
    }
  }

  /** No level has more cells than the first one. */
  lemma {:induction false} FirstIsLargest(t: Dims, i: nat)
    requires t.x >= 1 && i < LodCount(t)
    ensures LevelCells(t, i) <= LevelCells(t, 0)
  {
    if i > 0 {
      FirstIsLargest(t, i - 1);
      LevelHalves(t, i - 1);
    }
  }

  /** The core counts all cells exactly when the first level of a face has fewer than 2^32. */
  lemma CoreCountIsTrue(t: Dims)
    requires t.x >= 1
    ensures CoreCount(t) == TrueCount(t) <==> LevelCells(t, 0) < TWO_32
  {
    var n := LodCount(t);
    CoreSumExact(t, n);
    forall i | 0 <= i < n
      ensures LevelCells(t, i) <= LevelCells(t, 0)
    {
      FirstIsLargest(t, i);
    }
    SameFaces(CoreSum(t, n), Total(t, n), Faces(t));
  }

  lemma SameFaces(a: nat, b: nat, faces: nat)
    requires faces == 1 || faces == 6
    ensures a * faces == b * faces <==> a == b
  {
  }

  /** The client counts all cells exactly when there are fewer than 2^32 of them. */
  lemma ClientCountIsTrue(t: Dims)
    requires t.x >= 1
    ensures ClientCount(t) == TrueCount(t) <==> TrueCount(t) < TWO_32
  {
    CutIsSame(TrueCount(t));
  }

  /** The client's count is the core's, cut to 32 bits. */
  lemma CountsCongruent(t: Dims)
    requires t.x >= 1
    ensures ClientCount(t) == CoreCount(t) % TWO_32
  {
    CoreSumMod(t, LodCount(t));
    FacesMod(CoreSum(t, LodCount(t)), Total(t, LodCount(t)), Faces(t));
  }

  /** With fewer than 2^32 cells in the first level of a face, the counts agree exactly if all cells are that few. */
  lemma CountsAgree(t: Dims)
    requires t.x >= 1 && LevelCells(t, 0) < TWO_32
    ensures ClientCount(t) == CoreCount(t) <==> TrueCount(t) < TWO_32
    ensures TrueCount(t) < TWO_32 ==> ClientCount(t) == CoreCount(t) == TrueCount(t)
  {
    CoreCountIsTrue(t);
    ClientCountIsTrue(t);
  }

  /** A bound on the first level is enough, since the others add less than as much again. */
  lemma SmallCountsAgree(t: Dims)
    requires t.x >= 1 && 2 * LevelCells(t, 0) * Faces(t) <= TWO_32
    ensures ClientCount(t) == CoreCount(t) == TrueCount(t)
  {
    ChainBelowTwice(t);
    assert TrueCount(t) < 2 * LevelCells(t, 0) * Faces(t);
    CountsAgree(t);
  }

  /** With a single level, only faces can make the counts differ, and do exactly above 2^32 / 6 cells after the cut. */
  lemma SingleLevelAgrees(t: Dims)
    requires t.x >= 1 && !t.mipmaps
    ensures ClientCount(t) == CoreCount(t) <==> !t.faces || LevelCells(t, 0) % TWO_32 <= 715827882
  {
    CountsCongruent(t);
    CutIsSame(CoreCount(t));
    assert CoreSum(t, 1) == CoreSum(t, 0) + LevelCells(t, 0) % TWO_32;
  }

  /** An extent divided by p, but at least 1. */
  function Shifted(d: nat, p: nat): nat
    requires p >= 1
  {
    if d < p then 1 else d / p
  }

  /** The cells of level i, from the extents. */
  ghost function ShiftedCells(t: Dims, i: nat): nat {
    Shifted(t.x, Pow2(i)) * (Shifted(t.y, Pow2(i)) * Shifted(t.z, Pow2(i)))
  }

  lemma LevelIsShifted(t: Dims, i: nat)
    requires t.x >= 1
    ensures LevelCells(t, i) == ShiftedCells(t, i)
  {
    AtLeastOne(t.x, i);
    AtLeastOne(t.y, i);
    AtLeastOne(t.z, i);
    LevelPositive(t.x, i);
  }

  lemma AtLeastOne(d: nat, i: nat)
    ensures Max(Level(d, i), 1) == Shifted(d, Pow2(i))
  {
    if d == 0 {
      ZeroLevel(i);
    } else {
      LevelIsShift(d, i);
      SmallQuotient(d, Pow2(i));
    }
  }

  lemma SmallQuotient(d: nat, p: nat)
    requires p >= 1
    ensures d < p ==> d / p == 0
    ensures d >= p ==> d / p >= 1
  {
  }

  /** The cells of the first n levels, each cut to 32 bits. */
  ghost function CutSum(t: Dims, n: nat): nat {
    if n == 0 then 0 else CutSum(t, n - 1) + ShiftedCells(t, n - 1) % TWO_32
  }

  lemma {:induction false} CoreSumIsCutSum(t: Dims, n: nat)
    requires t.x >= 1
    ensures CoreSum(t, n) == CutSum(t, n)
  {
    if n > 0 {
      CoreSumIsCutSum(t, n - 1);
      LevelIsShifted(t, n - 1);
    }
  }

  /** On all extents, the counts agree exactly when the levels, each cut to 32 bits, add up to less than 2^32. */
  lemma CountsAgreeExactly(t: Dims)
    requires t.x >= 1
    ensures ClientCount(t) == CoreCount(t) <==> CutSum(t, LodCount(t)) * Faces(t) < TWO_32
  {
    CountsCongruent(t);
    CutIsSame(CoreCount(t));
    CoreSumIsCutSum(t, LodCount(t));
  }

  /** Six faces of 65536 by 65535 cells: the core counts them all, and the client does not. */
  lemma CountsCanDiffer()
    ensures var t := Dims(65536, 65535, 0, false, true);
      CoreCount(t) == 6 * 0xFFFF_0000 && ClientCount(t) == 0xFFFA_0000
  {
    var t := Dims(65536, 65535, 0, false, true);
    assert Level(t.x, 0) == 65536 && Level(t.y, 0) == 65535 && Level(t.z, 0) == 0;
    assert LevelCells(t, 0) == 0xFFFF_0000;
    assert CoreSum(t, 1) == CoreSum(t, 0) + 0xFFFF_0000 && Total(t, 1) == Total(t, 0) + 0xFFFF_0000;
  }

  // -------------------------------------------------------- Types without a first extent

  /** The core counts no cells, and the client none exactly when those of one column are cut to nothing. */
  lemma CountsWithoutX(t: Dims)
    requires t.x == 0
    ensures CoreCount(t) == 0
    ensures ClientCount(t) == 0 <==> Total(t.(x := 1), LodCount(t)) % (if t.faces then 0x8000_0000 else TWO_32) == 0
  {
    NoCells(t, LodCount(t));
    SameLods(t);
    SixTimes(Total(t.(x := 1), LodCount(t)));
  }

  /** A first extent of 1 is of no account for the number of levels. */
  lemma SameLods(t: Dims)
    requires t.x == 0
    ensures LodCount(t.(x := 1)) == LodCount(t)
  {
    assert HighBit(0) == 0 && HighBit(1) == 0;
  }

  /** 6 * a is a multiple of 2^32 exactly when a is one of 2^31, as 3 has an inverse modulo 2^31. */
  lemma SixTimes(a: nat)
    ensures a * 6 % TWO_32 == 0 <==> a % 0x8000_0000 == 0
  {
    if a * 6 % TWO_32 == 0 {
      var k := a * 6 / TWO_32;
      assert a * 3 == 0x8000_0000 * k;
      assert a == 0x8000_0000 * (k * 715827883 - a);
      HalfMultiple(k * 715827883 - a);
    }
    if a % 0x8000_0000 == 0 {
      var k := a / 0x8000_0000;
      assert a * 6 == TWO_32 * (k * 3);
      AddMultiple(0, k * 3);
    }
  }

  lemma HalfMultiple(k: int)
    ensures 0x8000_0000 * k % 0x8000_0000 == 0
  {
  }

  /** So with up to 2^31 cells in all faces of the first level, the client counts some cells and the core none. */
  lemma CountsDifferWithoutX(t: Dims)
    requires t.x == 0 && 2 * LevelCells(t.(x := 1), 0) * Faces(t) <= TWO_32
    ensures CoreCount(t) == 0 < ClientCount(t)
  {
    NoCells(t, LodCount(t));
    var t' := t.(x := 1);
    SmallCountsAgree(t');
    CellsPositive(t', 0);
    TotalPositive(t', LodCount(t'));
  }

  lemma {:induction false} TotalPositive(t: Dims, n: nat)
    requires t.x >= 1 && n >= 1
    ensures Total(t, n) >= 1
  {
    CellsPositive(t, n - 1);
  }

  /** A column of 65536 by 65536 cells: neither side counts any. */
  lemma CountsCanAgreeWithoutX()
    ensures var t := Dims(0, 65536, 65536, false, false); CoreCount(t) == ClientCount(t) == 0
  {
    var t := Dims(0, 65536, 65536, false, false);
    var t' := t.(x := 1);
    CountsWithoutX(t);
    assert Level(1, 0) == 1 && Level(65536, 0) == 65536;
    assert Total(t', 1) == Total(t', 0) + LevelCells(t', 0) == TWO_32;
  }

  // ------------------------------------------------------------------ The two loops

  /** rsFindHighBit. */
  method FindHighBit(val: nat) returns (bit: nat)
    ensures bit == HighBit(val)
    ensures val >= 1 ==> Pow2(bit) <= val < Pow2(bit + 1)
  {
    if val >= 1 {
      HighBitBounds(val);
    }
    bit := 0;
    var v := val;
    while v > 1
      invariant HighBit(val) == bit + HighBit(v)
    {
      bit := bit + 1;
      v := v / 2;
    }
  }

  method FindLodCount(t: Dims) returns (n: nat)
    ensures n == LodCount(t)
  {
    if t.mipmaps {
      var l2x := FindHighBit(t.x);
      var l2y := FindHighBit(t.y);
      var l2z := FindHighBit(t.z);
      n := Max(Max(l2x, l2y), l2z) + 1;
    } else {
      n := 1;
    }
  }

  /** The extents of the levels, from the first on, of a dimension d. */
  ghost predicate Filled(dims: seq<u32>, d: nat) {
    forall i :: 0 <= i < |dims| ==> dims[i] == Level(d, i)
  }

  method StoreLevel(dims: array<u32>, lod: nat, v: u32, ghost d: nat)
    requires lod < dims.Length && Filled(dims[..lod], d) && v == Level(d, lod)
    modifies dims
    ensures Filled(dims[..lod + 1], d)
  {
    dims[lod] := v;
  }

  /** Type::compute for a type that is not YUV: the extents of every level, and the cell count. */
  method Compute(t: Dims) returns (lodDimX: array<u32>, lodDimY: array<u32>, lodDimZ: array<u32>, cellCount: nat)
    ensures lodDimX.Length == lodDimY.Length == lodDimZ.Length == LodCount(t)
    ensures Filled(lodDimX[..], t.x) && Filled(lodDimY[..], t.y) && Filled(lodDimZ[..], t.z)
    ensures cellCount == CoreCount(t)
  {
    var n := FindLodCount(t);
    lodDimX, lodDimY, lodDimZ := new u32[n], new u32[n], new u32[n];
    var tx, ty, tz := t.x, t.y, t.z;
    cellCount := 0;
    var lod := 0;
    while lod < n
      invariant 0 <= lod <= n && cellCount == CoreSum(t, lod)
      invariant tx == Level(t.x, lod) && ty == Level(t.y, lod) && tz == Level(t.z, lod)
      invariant Filled(lodDimX[..lod], t.x) && Filled(lodDimY[..lod], t.y) && Filled(lodDimZ[..lod], t.z)
    {
      StoreLevel(lodDimX, lod, tx, t.x);
      StoreLevel(lodDimY, lod, ty, t.y);
      StoreLevel(lodDimZ, lod, tz, t.z);
      cellCount := cellCount + Cells(tx, ty, tz) % TWO_32;
      tx, ty, tz := Halve(tx), Halve(ty), Halve(tz);
      lod := lod + 1;
    }
    if t.faces {
      cellCount := cellCount * 6;
    }
    assert lodDimX[..n] == lodDimX[..] && lodDimY[..n] == lodDimY[..] && lodDimZ[..n] == lodDimZ[..];
  }

  /** Counting a missing dimension as 1 gives the levels at least 1 that the cell count uses. */
  lemma {:induction false} LevelOfOne(d: nat, i: nat)
    ensures Level(Max(d, 1), i) == Max(Level(d, i), 1)
  {
    if i > 0 {
      LevelOfOne(d, i - 1);
    }
  }

  /** The client's running count after level i. */
  ghost function ClientSum(t: Dims, i: nat): nat {
    Total(t, i + 1) * Faces(t) % TWO_32
  }

  lemma ClientStep(t: Dims, i: nat, x: nat, y: nat, z: nat, k: nat)
    requires x == Level(t.x, i + 1) && y == Level(Max(t.y, 1), i + 1) && z == Level(Max(t.z, 1), i + 1) && k == Faces(t)
    ensures (ClientSum(t, i) + x * (y * z) * k) % TWO_32 == ClientSum(t, i + 1)
  {
    LevelOfOne(t.y, i + 1);
    LevelOfOne(t.z, i + 1);
    Accumulate(ClientSum(t, i), Total(t, i + 1), LevelCells(t, i + 1), k);
  }

  lemma Accumulate(s: nat, total: nat, c: nat, k: nat)
    requires (k == 1 || k == 6) && s == total * k % TWO_32
    ensures (s + c * k) % TWO_32 == (total + c) * k % TWO_32
  {
    assert (total + c) * k == total * k + c * k;
  }

  lemma ClientStart(t: Dims, x: nat, y: nat, z: nat, k: nat)
    requires x == t.x && y == Max(t.y, 1) && z == Max(t.z, 1) && k == Faces(t)
    ensures x * (y * z) * k % TWO_32 == ClientSum(t, 0)
  {
    assert Level(t.x, 0) == x;
    assert Total(t, 1) == Total(t, 0) + LevelCells(t, 0) == x * (y * z);
  }

  /** The client's loop has seen all levels once every extent is 1. */
  lemma ClientDone(t: Dims, i: nat)
    requires t.mipmaps && i < LodCount(t)
    ensures (Level(t.x, i) > 1 || Level(Max(t.y, 1), i) > 1 || Level(Max(t.z, 1), i) > 1) <==> i + 1 < LodCount(t)
  {
    LevelOfOne(t.y, i);
    LevelOfOne(t.z, i);
    LevelAboveOne(t.x, i);
    LevelAboveOne(t.y, i);
    LevelAboveOne(t.z, i);
  }

  /** Type::calcElementCount. */
  method CalcElementCount(dims: Dims) returns (count: u32)
    ensures count == ClientCount(dims)
  {
    var x, y, z := if dims.x == 0 then 1 else dims.x, if dims.y == 0 then 1 else dims.y,
      if dims.z == 0 then 1 else dims.z;
    var faces := if dims.faces then 6 else 1;
    ghost var t, i := dims.(x := x), 0;
    ClientStart(t, x, y, z, faces);
    count := x * (y * z) * faces % TWO_32;
    while dims.mipmaps && (x > 1 || y > 1 || z > 1)
      invariant 0 <= i < LodCount(t) && count == ClientSum(t, i)
      invariant x == Level(t.x, i) && y == Level(Max(t.y, 1), i) && z == Level(Max(t.z, 1), i)
      decreases LodCount(t) - i
    {
      ClientDone(t, i);
      x, y, z := Halve(x), Halve(y), Halve(z);
      ClientStep(t, i, x, y, z, faces);
      count := (count + x * (y * z) * faces) % TWO_32;
      i := i + 1;
    }
    if dims.mipmaps {
      ClientDone(t, i);
    }
  }
}
