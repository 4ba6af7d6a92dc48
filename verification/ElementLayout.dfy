/**
 Element layout, as the core computes it in bits (rsElement.cpp, rsComponent.cpp) and as
 the C++ client does in bytes (cpp/Element.cpp).
 */
module ElementLayout {
  import opened Common
  import opened Elements
  import MipLevels

  // ---------------------------------------------------------------------- Leaves

  /** rsIsPow2 and rsHigherPow2. */
  function HigherPow2(v: nat): nat {
    if v == 0 || v == MipLevels.Pow2(MipLevels.HighBit(v)) then v
    else MipLevels.Pow2(MipLevels.HighBit(v) + 1)
  }

  /** mTypeBits after Component::set, for types that are not objects. */
  function TypeBits(dtype: nat): nat {
    match dtype
    case 1 => 16 case 2 => 32 case 3 => 64
    case 4 => 8 case 5 => 16 case 6 => 32 case 7 => 64
    case 8 => 8 case 9 => 16 case 10 => 32 case 11 => 64
    case 12 => 8
    case 16 => 16 * 32 case 17 => 9 * 32 case 18 => 4 * 32
    case _ => 0
  }

  predicate Packed16(dtype: nat) {
    dtype == TYPE_565 || dtype == TYPE_5551 || dtype == TYPE_4444
  }

  /** The bits of the channels of a packed type, as its name tells them. */
  function Channels(dtype: nat): seq<nat> {
    if dtype == TYPE_565 then [5, 6, 5]
    else if dtype == TYPE_5551 then [5, 5, 5, 1]
    else if dtype == TYPE_4444 then [4, 4, 4, 4]
    else []
  }

  function Sum(s: seq<nat>): nat {
    if s == [] then 0 else s[0] + Sum(s[1..])
  }

  /**
   Component::set gives a packed type one component for each channel, normalized, and their bits in
   all; any other component is as it is given.
   */
  lemma PackedIsItsChannels(c: Component)
    ensures if Packed16(c.dtype) then
              && Set(c).vector == |Channels(c.dtype)| && Set(c).normalized && Set(c).dtype == c.dtype
              && CoreLeafBits(Set(c)) == Sum(Channels(c.dtype)) == 16
            else Set(c) == c
  {
    if Packed16(c.dtype) {
      var s := Channels(c.dtype);
      assert Sum(s[1..]) == s[1] + Sum(s[2..]) && Sum(s[2..]) == s[2] + Sum(s[3..]) by {
        assert s[1..][1..] == s[2..] && s[2..][1..] == s[3..];
      }
      if |s| == 4 {
        assert Sum(s[3..]) == s[3] + Sum([]);
      }
    }
  }

  /** mBits after Component::set. */
  function CoreLeafBits(c: Component): nat {
    if c.dtype == TYPE_NONE then 0
    else if Packed16(c.dtype) then 16
    else TypeBits(c.dtype) * HigherPow2(c.vector)
  }

  /** GetSizeInBytesForType, for types that are not objects. */
  function ClientTypeBytes(dtype: nat): nat {
    match dtype
    case 0 => 0
    case 4 => 1 case 8 => 1 case 12 => 1
    case 1 => 2 case 5 => 2 case 9 => 2 case 13 => 2 case 14 => 2 case 15 => 2
    case 2 => 4 case 6 => 4 case 10 => 4
    case 3 => 8 case 7 => 8 case 11 => 8
    case 16 => 16 * 4 case 17 => 9 * 4 case 18 => 4 * 4
    case _ => 0
  }

  /** mSizeBytes of a client element without fields. */
  function ClientLeafBytes(c: Component): nat {
    if Packed16(c.dtype) then ClientTypeBytes(c.dtype)
    else if c.vector == 3 then ClientTypeBytes(c.dtype) * 4
    else ClientTypeBytes(c.dtype) * c.vector
  }

  /** Not an object, and a vector of at most four. */
  predicate PlainComponent(c: Component) {
    c.dtype <= 18 && c.vector <= 4
  }

  lemma HigherPow2Small(v: nat)
    requires v <= 4
    ensures HigherPow2(v) == if v == 3 then 4 else v
  {
    assert MipLevels.HighBit(1) == 0 && MipLevels.HighBit(2) == 1;
    assert MipLevels.HighBit(3) == 1 && MipLevels.HighBit(4) == 2;
  }

  lemma TypeBitsAgree(dtype: nat)
    requires dtype <= 18 && !Packed16(dtype)
    ensures TypeBits(dtype) == 8 * ClientTypeBytes(dtype)
  {
  }

  lemma LeavesAgree(c: Component)
    requires PlainComponent(c)
    ensures CoreLeafBits(c) == 8 * ClientLeafBytes(c) && ClientLeafBytes(c) <= 256
  {
    HigherPow2Small(c.vector);
    if !Packed16(c.dtype) {
      TypeBitsAgree(c.dtype);
    }
  }

  // ------------------------------------------------------------------- Structures

  predicate PlainTree(e: Element)
    decreases e
  {
    if e.fields == [] then PlainComponent(e.comp)
    else forall i :: 0 <= i < |e.fields| ==> PlainTree(e.fields[i].elem)
  }

  /** mSizeBytes of a client element. */
  function ClientBytes(e: Element): nat
    decreases e, |e.fields| + 1
  {
    if e.fields == [] then ClientLeafBytes(e.comp) else ClientPrefix(e, |e.fields|)
  }

  /** The bytes of the first i fields: the offset of field i. */
  function ClientPrefix(e: Element, i: nat): nat
    requires i <= |e.fields|
    decreases e, i
  {
    if i == 0 then 0 else ClientPrefix(e, i - 1) + Times(ClientBytes(e.fields[i - 1].elem), e.fields[i - 1].count)
  }

  /** getSizeBits: a sum of 64 bits over products of 32 bits. */
  function CoreSizeBits(e: Element): nat
    decreases e, |e.fields| + 1
  {
    if e.fields == [] then CoreLeafBits(e.comp) else CoreSizePrefix(e, |e.fields|)
  }

  function CoreSizePrefix(e: Element, i: nat): nat
    requires i <= |e.fields|
    decreases e, i
  {
    if i == 0 then 0
    else CoreSizePrefix(e, i - 1) + Times(CoreBits(e.fields[i - 1].elem), e.fields[i - 1].count) % TWO_32
  }

  /** mBits, which has 32 bits. */
  function CoreBits(e: Element): nat
    decreases e, |e.fields| + 1
  {
    if e.fields == [] then CoreLeafBits(e.comp) else CorePrefix(e, |e.fields|) % TWO_32
  }

  /** The running sum of compute, before field i. */
  function CorePrefix(e: Element, i: nat): nat
    requires i <= |e.fields|
    decreases e, i
  {
    if i == 0 then 0 else CorePrefix(e, i - 1) + Times(CoreSizeBits(e.fields[i - 1].elem), e.fields[i - 1].count)
  }

  /** The core's number is the client's cut somewhere to 32 bits: congruent modulo 2^32, and never above it. */
  ghost predicate Cut(core: nat, exact: nat) {
    core % TWO_32 == exact % TWO_32 && core <= exact
  }

  lemma CutTimes(core: nat, exact: nat, n: nat)
    requires Cut(core, exact)
    ensures Cut(Times(core, n), Times(exact, n))
  {
    var t := (exact - core) / TWO_32;
    assert exact == core + TWO_32 * t;
    assert exact * n == core * n + TWO_32 * (t * n);
    AddMultiple(core * n, t * n);
  }

  lemma CutAdd(a: nat, b: nat, c: nat, d: nat)
    requires Cut(a, b) && Cut(c, d)
    ensures Cut(a + c, b + d)
  {
  }

  lemma CutMod(a: nat, b: nat)
    requires Cut(a, b)
    ensures Cut(a % TWO_32, b)
  {
  }

  lemma ScaleProduct(a: nat, n: nat)
    ensures Times(8 * a, n) == 8 * Times(a, n)
  {
  }

  /** Both numbers that the core keeps of an element. */
  ghost predicate ElementCut(e: Element) {
    Cut(CoreBits(e), 8 * ClientBytes(e)) && Cut(CoreSizeBits(e), 8 * ClientBytes(e))
  }

  /** On every plain element tree, the core's sizes are the client's modulo 2^32, and never above them. */
  lemma {:induction false} SizesCongruent(e: Element)
    requires PlainTree(e)
    ensures ElementCut(e)
    decreases e, |e.fields| + 1
  {
    if e.fields == [] {
      LeavesAgree(e.comp);
    } else {
      PrefixesCongruent(e, |e.fields|);
      CutMod(CorePrefix(e, |e.fields|), 8 * ClientPrefix(e, |e.fields|));
    }
  }

  /** So are its running sums. */
  lemma {:induction false} PrefixesCongruent(e: Element, i: nat)
    requires PlainTree(e) && i <= |e.fields|
    ensures Cut(CorePrefix(e, i), 8 * ClientPrefix(e, i)) && Cut(CoreSizePrefix(e, i), 8 * ClientPrefix(e, i))
    decreases e, i
  {
    if i > 0 {
      PrefixesCongruent(e, i - 1);
      FieldCongruent(e, i - 1);
      CutAdd(CorePrefix(e, i - 1), 8 * ClientPrefix(e, i - 1),
             Times(CoreSizeBits(e.fields[i - 1].elem), e.fields[i - 1].count), FieldBits(e, i - 1));
      CutAdd(CoreSizePrefix(e, i - 1), 8 * ClientPrefix(e, i - 1),
             Times(CoreBits(e.fields[i - 1].elem), e.fields[i - 1].count) % TWO_32, FieldBits(e, i - 1));
    }
  }

  /** And what it adds for field i. */
  lemma {:induction false} FieldCongruent(e: Element, i: nat)
    requires PlainTree(e) && i < |e.fields|
    ensures Cut(Times(CoreSizeBits(e.fields[i].elem), e.fields[i].count), FieldBits(e, i))
    ensures Cut(Times(CoreBits(e.fields[i].elem), e.fields[i].count) % TWO_32, FieldBits(e, i))
    decreases e, 0
  {
    var f := e.fields[i];
    SizesCongruent(f.elem);
    ScaleProduct(ClientBytes(f.elem), f.count);
    CutTimes(CoreSizeBits(f.elem), 8 * ClientBytes(f.elem), f.count);
    CutTimes(CoreBits(f.elem), 8 * ClientBytes(f.elem), f.count);
    CutMod(Times(CoreBits(f.elem), f.count), FieldBits(e, i));
  }

  /** The bits of field i, with all its repetitions. */
  function FieldBits(e: Element, i: nat): nat
    requires i < |e.fields|
  {
    8 * Times(ClientBytes(e.fields[i].elem), e.fields[i].count)
  }

  /** Below 2^32 bits, the sizes agree. */
  lemma SizesAgree(e: Element)
    requires PlainTree(e) && 8 * ClientBytes(e) < TWO_32
    ensures CoreBits(e) == CoreSizeBits(e) == 8 * ClientBytes(e)
  {
    SizesCongruent(e);
    CutBelow(CoreBits(e), 8 * ClientBytes(e));
    CutBelow(CoreSizeBits(e), 8 * ClientBytes(e));
  }

  lemma CutBelow(a: nat, b: nat)
    requires Cut(a, b) && b < TWO_32
    ensures a == b
  {
  }

  /** getSizeBits of the first i fields loses something exactly when one of them has 2^32 bits or more. */
  lemma {:induction false} SizePrefixExact(e: Element, i: nat)
    requires PlainTree(e) && i <= |e.fields|
    ensures CoreSizePrefix(e, i) == 8 * ClientPrefix(e, i) <==> forall j :: 0 <= j < i ==> FieldBits(e, j) < TWO_32
    decreases i
  {
    if i > 0 {
      SizePrefixExact(e, i - 1);
      PrefixesCongruent(e, i - 1);
      FieldCongruent(e, i - 1);
      CutExact(Times(CoreBits(e.fields[i - 1].elem), e.fields[i - 1].count), FieldBits(e, i - 1));
    }
  }

  lemma CutExact(a: nat, b: nat)
    requires Cut(a % TWO_32, b)
    ensures a % TWO_32 == b <==> b < TWO_32
  {
  }

  /** The sizes of a structure agree exactly when each of its fields has fewer than 2^32 bits. */
  lemma SizesAgreeExactly(e: Element)
    requires PlainTree(e) && e.fields != []
    ensures CoreSizeBits(e) == 8 * ClientBytes(e) <==> forall i :: 0 <= i < |e.fields| ==> FieldBits(e, i) < TWO_32
  {
    SizePrefixExact(e, |e.fields|);
  }

  /** A structure of one array of 2^27 floats: the core sees no bits at all. */
  lemma SizesCanDiffer()
    ensures
      var leaf := Element(None, Component(2, KIND_USER, false, 1), []);
      var e := Element(None, DEFAULT, [Field([120], 0x800_0000, leaf)]);
      CoreSizeBits(e) == 0 && ClientBytes(e) == 0x2000_0000
  {
    var leaf := Element(None, Component(2, KIND_USER, false, 1), []);
    var e := Element(None, DEFAULT, [Field([120], 0x800_0000, leaf)]);
    HigherPow2Small(1);
    assert CoreBits(leaf) == 32 && ClientBytes(leaf) == 4;
    assert CoreSizePrefix(e, 1) == CoreSizePrefix(e, 0) + Times(32, 0x800_0000) % TWO_32;
    assert ClientPrefix(e, 1) == ClientPrefix(e, 0) + Times(4, 0x800_0000);
  }

  // ----------------------------------------------------------------------- Offsets

  /** fieldOffsetBytes: offsetBits has 32 bits. */
  function CoreOffset(e: Element, i: nat): nat
    requires i <= |e.fields|
  {
    CorePrefix(e, i) % TWO_32 / 8
  }

  /** mOffsetInBytes has 32 bits. */
  function ClientOffset(e: Element, i: nat): nat
    requires i <= |e.fields|
  {
    ClientPrefix(e, i) % TWO_32
  }

  /** The offsets of field i agree exactly when the client's is below 2^29. */
  lemma OffsetsAgree(e: Element, i: nat)
    requires PlainTree(e) && i < |e.fields|
    ensures CoreOffset(e, i) == ClientOffset(e, i) <==> ClientOffset(e, i) < 0x2000_0000
  {
    PrefixesCongruent(e, i);
    CutAgrees(ClientPrefix(e, i));
  }

  /** 2^27 floats and one more: the core has the last one at offset 0. */
  lemma OffsetsCanDiffer()
    ensures
      var leaf := Element(None, Component(2, KIND_USER, false, 1), []);
      var e := Element(None, DEFAULT, [Field([120], 0x800_0000, leaf), Field([121], 1, leaf)]);
      CoreOffset(e, 1) == 0 && ClientOffset(e, 1) == 0x2000_0000
  {
    var leaf := Element(None, Component(2, KIND_USER, false, 1), []);
    var e := Element(None, DEFAULT, [Field([120], 0x800_0000, leaf), Field([121], 1, leaf)]);
    HigherPow2Small(1);
    assert CoreSizeBits(leaf) == 32 && ClientBytes(leaf) == 4;
    assert CorePrefix(e, 1) == CorePrefix(e, 0) + Times(32, 0x800_0000);
    assert ClientPrefix(e, 1) == ClientPrefix(e, 0) + Times(4, 0x800_0000);
  }

  lemma CutAgrees(b: nat)
    ensures 8 * b % TWO_32 / 8 == b % TWO_32 <==> b % TWO_32 < 0x2000_0000
  {
    var q, r := b / 0x2000_0000, b % 0x2000_0000;
    assert 8 * b == TWO_32 * q + 8 * r;
    assert 8 * b % TWO_32 == 8 * r;
  }

  /** Below 2^32 bits, fields follow each other without gap or overlap, from 0 to the size, on both sides. */
  lemma FieldsTile(e: Element, i: nat)
    requires PlainTree(e) && 8 * ClientBytes(e) < TWO_32 && i < |e.fields|
    ensures CoreOffset(e, 0) == 0
    ensures CoreOffset(e, i) == ClientOffset(e, i) == ClientPrefix(e, i)
    ensures ClientPrefix(e, i + 1) == ClientPrefix(e, i) + Times(ClientBytes(e.fields[i].elem), e.fields[i].count)
    ensures ClientPrefix(e, i + 1) <= ClientPrefix(e, |e.fields|) == ClientBytes(e)
  {
    PrefixGrows(e, i + 1, |e.fields|);
    OffsetFits(e, i);
  }

  lemma OffsetFits(e: Element, i: nat)
    requires PlainTree(e) && 8 * ClientBytes(e) < TWO_32 && i < |e.fields|
    ensures CoreOffset(e, i) == ClientOffset(e, i) == ClientPrefix(e, i)
  {
    PrefixGrows(e, i, |e.fields|);
    OffsetsAgree(e, i);
  }

  lemma {:induction false} PrefixGrows(e: Element, i: nat, j: nat)
    requires i <= j <= |e.fields|
    ensures ClientPrefix(e, i) <= ClientPrefix(e, j)
    decreases j
  {
    if i < j {
      PrefixGrows(e, i, j - 1);
    }
  }

  // --------------------------------------------------------------- Visible fields

  /** Fields whose name starts with '#' are padding. */
  predicate Visible(f: Field) {
    f.name == [] || f.name[0] != 35
  }

  /** A field is hidden exactly if its name starts with '#'. */
  lemma HiddenIffHash(f: Field)
    ensures !Visible(f) <==> f.name != [] && f.name[0] == '#' as int
  {
  }

  /** The positions of the visible ones among the first n fields. */
  ghost function VisibleFields(e: Element, n: nat): (v: seq<nat>)
    requires n <= |e.fields|
    ensures forall j :: 0 <= j < |v| ==> v[j] < n
  {
    if n == 0 then []
    else VisibleFields(e, n - 1) + if Visible(e.fields[n - 1]) then [n - 1] else []
  }

  /** They are just the fields whose names do not start with '#', in order. */
  lemma {:induction false} VisibleFieldsExact(e: Element, n: nat)
    requires n <= |e.fields|
    ensures var v := VisibleFields(e, n);
      && (forall i: nat :: i in v <==> i < n && (e.fields[i].name == [] || e.fields[i].name[0] != '#' as int))
      && forall i, j :: 0 <= i < j < |v| ==> v[i] < v[j]
  {
    if n > 0 {
      VisibleFieldsExact(e, n - 1);
    }
  }

  /** mHal.state: the visible fields and their byte offsets. */
  datatype CoreState = CoreState(fields: seq<Field>, offsets: seq<nat>)

  /** The core lists the visible fields, with the offsets it gave them. */
  ghost predicate CoreLists(e: Element, n: nat, st: CoreState)
    requires n <= |e.fields|
  {
    var v := VisibleFields(e, n);
    && |st.fields| == |st.offsets| == |v|
    && forall j :: 0 <= j < |v| ==> st.fields[j] == e.fields[v[j]] && st.offsets[j] == CoreOffset(e, v[j])
  }

  /** Element::compute for a structure. */
  method CoreCompute(e: Element) returns (offsetBits: seq<nat>, bits: u32, st: CoreState)
    requires e.fields != []
    ensures |offsetBits| == |e.fields|
    ensures forall i :: 0 <= i < |e.fields| ==> offsetBits[i] / 8 == CoreOffset(e, i)
    ensures bits == CoreBits(e) && CoreLists(e, |e.fields|, st)
  {
    var sum: nat := 0;
    offsetBits, st := [], CoreState([], []);
    var ct := 0;
    while ct < |e.fields|
      invariant 0 <= ct <= |e.fields| && sum == CorePrefix(e, ct) && |offsetBits| == ct
      invariant forall i :: 0 <= i < ct ==> offsetBits[i] / 8 == CoreOffset(e, i)
      invariant CoreLists(e, ct, st)
    {
      var offset := sum % TWO_32;
      offsetBits := offsetBits + [offset];
      if Visible(e.fields[ct]) {
        st := CoreState(st.fields + [e.fields[ct]], st.offsets + [offset / 8]);
      }
      sum := sum + Times(CoreSizeBits(e.fields[ct].elem), e.fields[ct].count);
      ct := ct + 1;
    }
    bits := sum % TWO_32;
  }

  /** The constructor of a client structure, with updateVisibleSubElements. */
  method ClientCompute(e: Element) returns (offsets: seq<nat>, size: nat, visible: seq<nat>)
    requires e.fields != []
    ensures |offsets| == |e.fields| && forall i :: 0 <= i < |e.fields| ==> offsets[i] == ClientOffset(e, i)
    ensures size == ClientBytes(e) && visible == VisibleFields(e, |e.fields|)
  {
    offsets, size := [], 0;
    var ct := 0;
    while ct < |e.fields|
      invariant 0 <= ct <= |e.fields| && size == ClientPrefix(e, ct) && |offsets| == ct
      invariant forall i :: 0 <= i < ct ==> offsets[i] == ClientOffset(e, i)
    {
      offsets := offsets + [size % TWO_32];
      size := size + Times(ClientBytes(e.fields[ct].elem), e.fields[ct].count);
      ct := ct + 1;
    }
    visible := [];
    ct := 0;
    while ct < |e.fields|
      invariant 0 <= ct <= |e.fields| && visible == VisibleFields(e, ct)
    {
      if Visible(e.fields[ct]) {
        visible := visible + [ct];
      }
      ct := ct + 1;
    }
  }

  /** The j-th visible field is the same on both sides, at the same offset. */
  lemma VisibleAgree(e: Element, st: CoreState, visible: seq<nat>, j: nat)
    requires PlainTree(e) && 8 * ClientBytes(e) < TWO_32 && e.fields != []
    requires CoreLists(e, |e.fields|, st) && visible == VisibleFields(e, |e.fields|) && j < |visible|
    ensures |st.fields| == |visible| && visible[j] < |e.fields|
    ensures st.fields[j] == e.fields[visible[j]] && st.offsets[j] == ClientOffset(e, visible[j])
  {
    FieldsTile(e, visible[j]);
  }
}
