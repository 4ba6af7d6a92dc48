/** The parts that cells of an element are copied by (rsElement.cpp, rsComponent.cpp, rsAllocation.cpp). */
module PackedElements {
  import opened Common
  import opened Elements
  import opened ElementLayout
  import opened PackedData

  /** The components for which Component::set gives a size without padding. */
  predicate Packable(c: Component) {
    (1 <= c.dtype <= 12 || 16 <= c.dtype <= 18) && 1 <= c.vector <= 4
  }

  /** They are those whose type has a size of its own. */
  lemma PackableIffSized(c: Component)
    ensures Packable(c) <==> TypeBits(c.dtype) > 0 && 1 <= c.vector <= 4
  {
  }

  /** mBitsUnpadded of a component. */
  function LeafBits(c: Component): nat {
    TypeBits(c.dtype) * c.vector
  }

  /** An element without fields, or a structure of such elements. */
  ghost predicate Flat(e: Element) {
    if e.fields == [] then Packable(e.comp)
    else forall i :: 0 <= i < |e.fields| ==> FlatField(e.fields[i])
  }

  ghost predicate FlatField(f: Field) {
    f.elem.fields == [] && Packable(f.elem.comp) && f.count >= 1
  }

  /** Bytes for so many bits. */
  function BytesFor(bits: nat): nat {
    (bits + 7) / 8
  }

  function LeafPart(c: Component, count: nat): Part {
    Part(BytesFor(CoreLeafBits(c)), BytesFor(LeafBits(c)), count)
  }

  function PartsOf(e: Element): (ps: seq<Part>)
    ensures |ps| == if e.fields == [] then 1 else |e.fields|
  {
    if e.fields == [] then [LeafPart(e.comp, 1)]
    else seq(|e.fields|, i requires 0 <= i < |e.fields| => LeafPart(e.fields[i].elem.comp, e.fields[i].count))
  }

  /** Offset bits without padding, before they are cut to 32 bits. */
  function UnpaddedPrefix(e: Element, i: nat): nat
    requires i <= |e.fields|
  {
    if i == 0 then 0 else UnpaddedPrefix(e, i - 1) + Times(LeafBits(e.fields[i - 1].elem.comp), e.fields[i - 1].count)
  }

  /** getFieldOffsetBytesUnpadded. */
  function UnpaddedOffset(e: Element, i: nat): nat
    requires i <= |e.fields|
  {
    UnpaddedPrefix(e, i) % TWO_32 / 8
  }

  /** getSizeBitsUnpadded: a sum of 64 bits over products of 32 bits. */
  function UnpaddedSizeBits(e: Element): nat {
    if e.fields == [] then LeafBits(e.comp) else UnpaddedSizePrefix(e, |e.fields|)
  }

  function UnpaddedSizePrefix(e: Element, i: nat): nat
    requires i <= |e.fields|
  {
    if i == 0 then 0
    else UnpaddedSizePrefix(e, i - 1) + Times(LeafBits(e.fields[i - 1].elem.comp), e.fields[i - 1].count) % TWO_32
  }

  /** A part is not empty, and it has padding exactly if it is a vector of three. */
  lemma PartIsGood(c: Component, count: nat)
    requires Packable(c)
    ensures var p := LeafPart(c, count);
      && 0 < p.unpadded <= p.padded && (p.unpadded < p.padded <==> c.vector == 3)
      && 8 * p.padded == CoreLeafBits(c) && 8 * p.unpadded == LeafBits(c)
  {
    HigherPow2Small(c.vector);
    var b := TypeBits(c.dtype);
    assert b > 0 && b % 8 == 0;
    WholeBytes(b, c.vector);
    WholeBytes(b, HigherPow2(c.vector));
  }

  lemma WholeBytes(b: nat, n: nat)
    requires b % 8 == 0
    ensures 8 * BytesFor(b * n) == b * n
  {
    var t := b / 8;
    assert b * n == 8 * (t * n);
    UncutBytes(t * n);
  }

  lemma UncutBytes(a: nat)
    ensures BytesFor(8 * a) == a && (8 * a < TWO_32 ==> 8 * a % TWO_32 / 8 == a)
  {
  }

  lemma {:induction false} FlatIsGood(e: Element)
    requires Flat(e)
    ensures GoodParts(PartsOf(e)) && PlainTree(e)
  {
    if e.fields == [] {
      PartIsGood(e.comp, 1);
    } else {
      forall i | 0 <= i < |e.fields|
        ensures 0 < PartsOf(e)[i].unpadded <= PartsOf(e)[i].padded && PlainTree(e.fields[i].elem)
      {
        PartIsGood(e.fields[i].elem.comp, e.fields[i].count);
      }
    }
  }

  lemma PartBits(e: Element, i: nat)
    requires Flat(e) && i < |e.fields|
    ensures var f, p := e.fields[i], PartsOf(e)[i];
      && Times(CoreSizeBits(f.elem), f.count) == 8 * Times(p.padded, p.count)
      && Times(LeafBits(f.elem.comp), f.count) == 8 * Times(p.unpadded, p.count)
      && Times(p.unpadded, p.count) <= Times(p.padded, p.count)
  {
    var f, p := e.fields[i], PartsOf(e)[i];
    PartIsGood(f.elem.comp, f.count);
    ScaleProduct(p.padded, p.count);
    ScaleProduct(p.unpadded, p.count);
  }

  /** Offsets of parts, in bits, are the running sums that Element::compute makes. */
  lemma {:induction false} PartPrefixes(e: Element, i: nat)
    requires Flat(e) && e.fields != [] && i <= |e.fields|
    ensures CorePrefix(e, i) == 8 * Off(PartsOf(e), i, true)
    ensures UnpaddedPrefix(e, i) == 8 * Off(PartsOf(e), i, false) <= CorePrefix(e, i)
  {
    if i > 0 {
      PartPrefixes(e, i - 1);
      PartBits(e, i - 1);
    }
  }

  /** As long as the first i fields have fewer than 2^32 bits, getSizeBitsUnpadded adds up the same. */
  lemma {:induction false} UnpaddedSizes(e: Element, i: nat)
    requires Flat(e) && e.fields != [] && i <= |e.fields| && UnpaddedPrefix(e, i) < TWO_32
    ensures UnpaddedSizePrefix(e, i) == UnpaddedPrefix(e, i)
  {
    if i > 0 {
      UnpaddedSizes(e, i - 1);
    }
  }

  lemma {:induction false} OffGrows(ps: seq<Part>, i: nat, j: nat, padded: bool)
    requires i <= j <= |ps|
    ensures Off(ps, i, padded) <= Off(ps, j, padded)
    decreases j
  {
    if i < j {
      OffGrows(ps, i, j - 1, padded);
    }
  }

  /** Cells of an element below 2^32 bits are as large as their parts, with and without padding. */
  lemma CellSizes(e: Element)
    requires Flat(e) && 8 * ClientBytes(e) < TWO_32
    ensures Inc(PartsOf(e), true) == BytesFor(CoreSizeBits(e))
    ensures Inc(PartsOf(e), false) == BytesFor(UnpaddedSizeBits(e))
  {
    FlatIsGood(e);
    SizesAgree(e);
    if e.fields == [] {
      SinglePart(LeafPart(e.comp, 1));
    } else {
      PartPrefixes(e, |e.fields|);
      PrefixesCongruent(e, |e.fields|);
      CutBelow(CorePrefix(e, |e.fields|), 8 * ClientBytes(e));
      UnpaddedSizes(e, |e.fields|);
    }
  }

  lemma SinglePart(p: Part)
    requires p.count == 1
    ensures Inc([p], true) == p.padded && Inc([p], false) == p.unpadded
  {
    assert Off([p], 0, true) == 0 && Off([p], 0, false) == 0;
    assert Times(p.padded, 1) == p.padded && Times(p.unpadded, 1) == p.unpadded;
  }

  /** The offsets that cells are copied by are those of the element's fields. */
  lemma FieldOffsets(e: Element, i: nat)
    requires Flat(e) && 8 * ClientBytes(e) < TWO_32 && i < |e.fields|
    ensures Off(PartsOf(e), i, true) == CoreOffset(e, i)
    ensures Off(PartsOf(e), i, false) == UnpaddedOffset(e, i)
  {
    FlatIsGood(e);
    PartPrefixes(e, i);
    PartPrefixes(e, |e.fields|);
    OffGrows(PartsOf(e), i, |e.fields|, true);
    PrefixesCongruent(e, |e.fields|);
    CutBelow(CorePrefix(e, |e.fields|), 8 * ClientBytes(e));
    UncutBytes(Off(PartsOf(e), i, true));
    UncutBytes(Off(PartsOf(e), i, false));
  }

  /**
   Packing and unpacking restores any number of cells, for all contents, exactly when the element
   has no array fields; parts stand where the element has its fields.
   */
  lemma CellsRestoredIffNoArrays(e: Element, n: nat)
    requires Flat(e) && 8 * ClientBytes(e) < TWO_32 && n >= 1
    ensures forall i: nat :: i < |e.fields| ==>
      Off(PartsOf(e), i, true) == CoreOffset(e, i) && Off(PartsOf(e), i, false) == UnpaddedOffset(e, i)
    ensures GoodParts(PartsOf(e))
    ensures (forall s: PackedData.Data, u: PackedData.Data, d: PackedData.Data ::
               Buffers(PartsOf(e), n, s, u, d) ==> AllRestored(PartsOf(e), n, s, u, d))
            <==> forall i :: 0 <= i < |e.fields| ==> e.fields[i].count == 1
  {
    forall i: nat | i < |e.fields|
      ensures Off(PartsOf(e), i, true) == CoreOffset(e, i) && Off(PartsOf(e), i, false) == UnpaddedOffset(e, i)
    {
      FieldOffsets(e, i);
    }
    FlatIsGood(e);
    AllRestoredIffSingle(PartsOf(e), n);
    assert forall i :: 0 <= i < |e.fields| ==> PartsOf(e)[i].count == e.fields[i].count;
  }

  // ------------------------------------------------------------------ Whole allocations

  /** Cells are counted in 32 bits. */
  function NumItems(cells: nat): u32 {
    cells % TWO_32
  }

  /** getPackedSize, and the size of the buffer that packVec3Allocation makes: a product of 32 bits. */
  function PackedSize(e: Element, cells: nat): u32 {
    Times(NumItems(cells), BytesFor(UnpaddedSizeBits(e))) % TWO_32
  }

  lemma {:induction false} BaseIsTimes(inc: nat, n: nat)
    ensures Base(inc, n) == Times(n, inc)
  {
    if n > 0 {
      BaseIsTimes(inc, n - 1);
      assert n * inc == (n - 1) * inc + inc;
    }
  }

  /** Packing stays in its buffer exactly when all packed cells have fewer than 2^32 bytes. */
  lemma PackedFits(e: Element, cells: nat)
    requires Flat(e) && 8 * ClientBytes(e) < TWO_32
    ensures Base(Inc(PartsOf(e), false), NumItems(cells)) <= PackedSize(e, cells)
            <==> Times(NumItems(cells), BytesFor(UnpaddedSizeBits(e))) < TWO_32
  {
    CellSizes(e);
    BaseIsTimes(Inc(PartsOf(e), false), NumItems(cells));
    CutFits(Times(NumItems(cells), BytesFor(UnpaddedSizeBits(e))));
  }

  lemma CutFits(n: nat)
    ensures n <= n % TWO_32 <==> n < TWO_32
  {
  }

  /** Allocation::packVec3Allocation, up to the stream; d0 is what the new buffer holds at first. */
  method PackVec3Allocation(e: Element, cells: nat, src: array<byte>) returns (dst: array<byte>, ghost d0: seq<byte>)
    requires Flat(e) && GoodParts(PartsOf(e)) && 8 * ClientBytes(e) < TWO_32
    requires Times(NumItems(cells), BytesFor(UnpaddedSizeBits(e))) < TWO_32
    requires src.Length == Base(Inc(PartsOf(e), true), NumItems(cells))
    ensures fresh(dst) && dst.Length == PackedSize(e, cells) == |d0| == Base(Inc(PartsOf(e), false), NumItems(cells))
    ensures CellsCopied(PartsOf(e), NumItems(cells), false, src[..], d0, dst[..])
  {
    PackedFits(e, cells);
    CellSizes(e);
    BaseIsTimes(Inc(PartsOf(e), false), NumItems(cells));
    dst := new byte[PackedSize(e, cells)];
    d0 := dst[..];
    WritePackedData(PartsOf(e), NumItems(cells), dst, src, false);
  }

  /** Allocation::unpackVec3Allocation. */
  method UnpackVec3Allocation(e: Element, cells: nat, dst: array<byte>, src: array<byte>)
    requires Flat(e) && GoodParts(PartsOf(e)) && dst != src
    requires dst.Length == Base(Inc(PartsOf(e), true), NumItems(cells))
    requires src.Length == Base(Inc(PartsOf(e), false), NumItems(cells))
    modifies dst
    ensures CellsCopied(PartsOf(e), NumItems(cells), true, src[..], old(dst[..]), dst[..])
  {
    WritePackedData(PartsOf(e), NumItems(cells), dst, src, true);
  }

  /** An allocation without array fields is packed and unpacked into another one: everything but padding comes back. */
  method PackAndUnpack(e: Element, cells: nat, src: array<byte>, dst: array<byte>)
    requires Flat(e) && GoodParts(PartsOf(e)) && 8 * ClientBytes(e) < TWO_32 && dst != src
    requires Times(NumItems(cells), BytesFor(UnpaddedSizeBits(e))) < TWO_32
    requires src.Length == dst.Length == Base(Inc(PartsOf(e), true), NumItems(cells))
    requires forall i :: 0 <= i < |e.fields| ==> e.fields[i].count == 1
    modifies dst
    ensures forall i: nat :: i < NumItems(cells) ==> CellRestored(PartsOf(e), NumItems(cells), src[..], dst[..], i)
  {
    ghost var ps, n := PartsOf(e), NumItems(cells);
    ghost var d := dst[..];
    var packed, u := PackVec3Allocation(e, cells, src);
    UnpackVec3Allocation(e, cells, dst, packed);
    forall i: nat | i < n
      ensures CellRestored(ps, n, src[..], dst[..], i)
    {
      CopiedRestores(ps, n, src[..], u, packed[..], d, dst[..], i);
    }
  }

  /** A cell that is packed and unpacked comes back if no part is repeated. */
  lemma CopiedRestores(ps: seq<Part>, n: nat, s: PackedData.Data, u: PackedData.Data, u': PackedData.Data,
                       d: PackedData.Data, d': PackedData.Data, i: nat)
    requires GoodParts(ps) && i < n && Buffers(ps, n, s, u, d) && forall f :: 0 <= f < |ps| ==> ps[f].count == 1
    requires CellsCopied(ps, n, false, s, u, u') && CellsCopied(ps, n, true, u', d, d')
    ensures CellRestored(ps, n, s, d', i)
  {
    CellRoundTrip(ps, n, s, u, u', d, d', i);
    BaseGrows(Inc(ps, true), i, n);
    SingleRestores(ps, Cell(s, Inc(ps, true), i), Cell(u, Inc(ps, false), i), Cell(d, Inc(ps, true), i));
  }
}
