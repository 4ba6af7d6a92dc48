/**
 The A3D container (rsFileA3D.cpp) and the serial form of types (rsType.cpp): objects
 one after the other in a data part, and an index of them in a header.
 */
module A3DFile {
  import opened Common
  import opened Bytes
  import opened Streams
  import opened Elements
  import MipLevels

  const CLASS_TYPE: u32 := 2

  // ----------------------------------------------------------------------- Types

  /** A type; yuv is zero for types that are not YUV, and arrays holds the array extents. */
  datatype TypeObj = TypeObj(name: Option<Data>, elem: Element, dims: MipLevels.Dims, yuv: nat, arrays: seq<u32>)

  /** lodCount after Type::compute. */
  function Lods(t: TypeObj): (n: nat)
    ensures n >= 1
  {
    if !t.dims.mipmaps && t.yuv != 0 then 3 else MipLevels.LodCount(t.dims)
  }

  function TypeTail(t: TypeObj): seq<Token> {
    [U32(t.dims.x), U32(t.dims.y), U32(t.dims.z), U8(if Lods(t) != 0 then 1 else 0), U8(if t.dims.faces then 1 else 0)]
  }

  function TypeTokens(t: TypeObj): seq<Token> {
    [U32(CLASS_TYPE), Str(Chars(t.name))] + ElementTokens(t.elem) + TypeTail(t)
  }

  /** What comes back: the flag for mip levels is always written as 1, and the rest is not written at all. */
  function LoadedType(t: TypeObj): TypeObj {
    TypeObj(None, Loaded(t.elem), t.dims.(mipmaps := true), 0, [])
  }

  ghost predicate CreatedType(t: TypeObj) {
    NoNul(Chars(t.name)) && |Chars(t.name)| < TWO_32 && Created(t.elem)
  }

  function StripType(t: TypeObj): TypeObj {
    t.(name := None, elem := Strip(t.elem))
  }

  /**
   A type comes back unchanged, up to names, exactly when it has mip levels and plain leaves, and no
   YUV format or array.
   */
  lemma LoadedTypeIsSame(t: TypeObj)
    requires CreatedType(t)
    ensures LoadedType(t) == StripType(t) <==> t.dims.mipmaps && t.yuv == 0 && t.arrays == [] && PlainLeaves(t.elem)
  {
    LoadedIsSame(t.elem);
  }

  /** The extents and flags. */
  function ParseTail(d: Data, at: nat): Parsed<MipLevels.Dims> {
    match ReadU32(d, at) {
      case Got(x, p1) =>
        (match ReadU32(d, p1) {
          case Got(y, p2) =>
            (match ReadU32(d, p2) {
              case Got(z, p3) =>
                (match ReadU8(d, p3) {
                  case Got(m, p4) =>
                    (match ReadU8(d, p4) {
                      case Got(f, p5) => Got(MipLevels.Dims(x, y, z, m != 0, f != 0), p5)
                      case _ => Broken
                    })
                  case _ => Broken
                })
              case _ => Broken
            })
          case _ => Broken
        })
      case _ => Broken
    }
  }

  /** Type::createFromStream. */
  function ParseType(d: Data, at: nat): Parsed<TypeObj> {
    match ReadU32(d, at) {
      case Got(id, p1) =>
        if id != CLASS_TYPE then Null
        else (match ReadString(d, p1) {
          case Got(_, p2) =>
            (match ParseElement(d, p2) {
              case Got(e, p3) =>
                (match ParseTail(d, p3) {
                  case Got(dims, p4) => Got(TypeObj(None, e, dims, 0, []), p4)
                  case _ => Broken
                })
              case Null => Null
              case Broken => Broken
            })
          case _ => Broken
        })
      case _ => Broken
    }
  }

  lemma TailParsed(d: Data, at: nat, x: u32, y: u32, z: u32, m: byte, f: byte, end: nat)
    requires Holds(d, at, [U32(x), U32(y), U32(z), U8(m), U8(f)], end)
    ensures ParseTail(d, at) == Got(MipLevels.Dims(x, y, z, m != 0, f != 0), end)
  {
    assert [U32(x), U32(y), U32(z), U8(m), U8(f)] == [U32(x)] + ([U32(y)] + ([U32(z)] + ([U8(m)] + ([U8(f)] + []))));
    HoldsFirst(d, at, U32(x), [U32(y)] + ([U32(z)] + ([U8(m)] + ([U8(f)] + []))), end);
    var p1 := TokenEnd(at, U32(x));
    HoldsFirst(d, p1, U32(y), [U32(z)] + ([U8(m)] + ([U8(f)] + [])), end);
    var p2 := TokenEnd(p1, U32(y));
    HoldsFirst(d, p2, U32(z), [U8(m)] + ([U8(f)] + []), end);
    var p3 := TokenEnd(p2, U32(z));
    HoldsFirst(d, p3, U8(m), [U8(f)] + [], end);
    HoldsFirst(d, p3 + 1, U8(f), [], end);
    HoldsNone(d, p3 + 2, end);
    ReadsU32(d, at, x);
    ReadsU32(d, p1, y);
    ReadsU32(d, p2, z);
    ReadsU8(d, p3, m);
    ReadsU8(d, p3 + 1, f);
  }

  lemma TypeParsed(d: Data, at: nat, p1: nat, s: Data, p2: nat, e: Element, p3: nat, dims: MipLevels.Dims, p4: nat)
    requires ReadU32(d, at) == Got(CLASS_TYPE, p1) && ReadString(d, p1) == Got(s, p2)
    requires ParseElement(d, p2) == Got(e, p3) && ParseTail(d, p3) == Got(dims, p4)
    ensures ParseType(d, at) == Got(TypeObj(None, e, dims, 0, []), p4)
  {
  }

  lemma TypeRoundTrip(d: Data, at: nat, t: TypeObj, end: nat)
    requires CreatedType(t) && Holds(d, at, TypeTokens(t), end)
    ensures ParseType(d, at) == Got(LoadedType(t), end)
  {
    var id, name, ets, tail := U32(CLASS_TYPE), Str(Chars(t.name)), ElementTokens(t.elem), TypeTail(t);
    assert TypeTokens(t) == [id] + ([name] + (ets + tail));
    HoldsFirst(d, at, id, [name] + (ets + tail), end);
    var p1 := TokenEnd(at, id);
    HoldsFirst(d, p1, name, ets + tail, end);
    var p2 := TokenEnd(p1, name);
    var p3 := HoldsSplit(d, p2, ets, tail, end);
    ReadsU32(d, at, CLASS_TYPE);
    ReadsString(d, p1, Chars(t.name));
    ElementReads(d, p2, t.elem, p3);
    TailParsed(d, p3, t.dims.x, t.dims.y, t.dims.z, 1, if t.dims.faces then 1 else 0, end);
    TypeParsed(d, at, p1, Chars(t.name), p2, Loaded(t.elem), p3, t.dims.(mipmaps := true), end);
  }

  // --------------------------------------------------------------------- Objects

  datatype Obj = ElementObj(elem: Element) | TypeOf(type_: TypeObj)

  function NameOf(o: Obj): Data {
    Chars(if o.ElementObj? then o.elem.name else o.type_.name)
  }

  function ClassOf(o: Obj): u32 {
    if o.ElementObj? then CLASS_ELEMENT else CLASS_TYPE
  }

  function ObjTokens(o: Obj): seq<Token> {
    if o.ElementObj? then ElementTokens(o.elem) else TypeTokens(o.type_)
  }

  function LoadedObj(o: Obj): Obj {
    if o.ElementObj? then ElementObj(Loaded(o.elem)) else TypeOf(LoadedType(o.type_))
  }

  ghost predicate CreatedObj(o: Obj) {
    if o.ElementObj? then Created(o.elem) else CreatedType(o.type_)
  }

  /** The object and all its parts have been given names. */
  predicate ObjNamed(o: Obj) {
    if o.ElementObj? then AllNamed(o.elem) else o.type_.name.Some? && AllNamed(o.type_.elem)
  }

  ghost predicate ObjNamesFit(o: Obj, n: nat) {
    |NameOf(o)| <= n && NamesFit(if o.ElementObj? then o.elem else o.type_.elem, n)
  }

  /** What Type::serialize writes, or nothing if it comes to an object without a name. */
  ghost function SerializedType(t: TypeObj): Option<seq<Token>> {
    if t.name.None? then None
    else (match Serialized(t.elem)
      case Some(ts) => Some([U32(CLASS_TYPE), Str(t.name.value)] + ts + TypeTail(t))
      case None => None)
  }

  ghost function SerializedObj(o: Obj): Option<seq<Token>> {
    if o.ElementObj? then Serialized(o.elem) else SerializedType(o.type_)
  }

  /** An object can be written exactly when it and all its parts have names. */
  lemma ObjSerializesIffNamed(o: Obj)
    ensures SerializedObj(o) == if ObjNamed(o) then Some(ObjTokens(o)) else None
  {
    SerializesIffNamed(if o.ElementObj? then o.elem else o.type_.elem);
  }

  /** The switch of initializeFromEntry; other classes give no object. */
  function ParseObj(d: Data, at: nat, cls: u32): Parsed<Obj> {
    if cls == CLASS_ELEMENT then
      (match ParseElement(d, at) case Got(e, p) => Got(ElementObj(e), p) case Null => Null case Broken => Broken)
    else if cls == CLASS_TYPE then
      (match ParseType(d, at) case Got(t, p) => Got(TypeOf(t), p) case Null => Null case Broken => Broken)
    else Null
  }

  lemma ObjRoundTrip(d: Data, at: nat, o: Obj, end: nat)
    requires CreatedObj(o) && Holds(d, at, ObjTokens(o), end)
    ensures ParseObj(d, at, ClassOf(o)) == Got(LoadedObj(o), end)
  {
    match o
    case ElementObj(e) => ElementReads(d, at, e, end);
    case TypeOf(t) => TypeRoundTrip(d, at, t, end);
  }

  /** Type::serialize. */
  method SerializeType(t: TypeObj, stream: OStream)
    requires stream.Valid() && CreatedType(t) && t.name.Some? && AllNamed(t.elem)
    requires |t.name.value| <= stream.data.Length && NamesFit(t.elem, stream.data.Length)
    modifies stream, stream.data
    ensures stream.Valid() && Wrote(old(stream.Written()), stream.Written(), TypeTokens(t))
    ensures stream.data.Length >= old(stream.data.Length) && (stream.data == old(stream.data) || fresh(stream.data))
  {
    ghost var d, n := stream.Written(), stream.data.Length;
    stream.AddU32(CLASS_TYPE);
    ghost var d1 := stream.Written();
    ShortStringFits(stream.pos, stream.data.Length, |Chars(t.name)|);
    stream.AddString(t.name.value);
    ghost var d2 := stream.Written();
    NamesFitMore(t.elem, n, stream.data.Length);
    Serialize(t.elem, stream);
    ghost var d3 := stream.Written();
    SerializeTail(t, stream);
    ghost var id, name := [U32(CLASS_TYPE)], [Str(Chars(t.name))];
    WroteBoth(d, d1, d2, id, name);
    WroteBoth(d, d2, d3, id + name, ElementTokens(t.elem));
    WroteBoth(d, d3, stream.Written(), id + name + ElementTokens(t.elem), TypeTail(t));
    assert id + name == [U32(CLASS_TYPE), Str(Chars(t.name))];
  }

  method SerializeTail(t: TypeObj, stream: OStream)
    requires stream.Valid()
    modifies stream, stream.data
    ensures stream.Valid() && Wrote(old(stream.Written()), stream.Written(), TypeTail(t))
    ensures stream.data.Length >= old(stream.data.Length) && (stream.data == old(stream.data) || fresh(stream.data))
  {
    ghost var d := stream.Written();
    stream.AddU32(t.dims.x);
    ghost var d1 := stream.Written();
    stream.AddU32(t.dims.y);
    ghost var d2 := stream.Written();
    stream.AddU32(t.dims.z);
    ghost var d3 := stream.Written();
    stream.AddU8(if Lods(t) != 0 then 1 else 0);
    ghost var d4 := stream.Written();
    stream.AddU8(if t.dims.faces then 1 else 0);
    ghost var x, y, z, m := U32(t.dims.x), U32(t.dims.y), U32(t.dims.z), U8(if Lods(t) != 0 then 1 else 0);
    WroteBoth(d, d1, d2, [x], [y]);
    WroteBoth(d, d2, d3, [x] + [y], [z]);
    WroteBoth(d, d3, d4, [x] + [y] + [z], [m]);
    WroteBoth(d, d4, stream.Written(), [x] + [y] + [z] + [m], [U8(if t.dims.faces then 1 else 0)]);
    assert TypeTail(t) == [x] + [y] + [z] + [m] + [U8(if t.dims.faces then 1 else 0)];
  }

  method SerializeObj(o: Obj, stream: OStream)
    requires stream.Valid() && CreatedObj(o) && ObjNamed(o) && ObjNamesFit(o, stream.data.Length)
    modifies stream, stream.data
    ensures stream.Valid() && Wrote(old(stream.Written()), stream.Written(), ObjTokens(o))
    ensures stream.data.Length >= old(stream.data.Length) && (stream.data == old(stream.data) || fresh(stream.data))
  {
    match o
    case ElementObj(e) => Serialize(e, stream);
    case TypeOf(t) => SerializeType(t, stream);
  }

  // ------------------------------------------------------------------- The index

  datatype Entry = Entry(name: Data, cls: u32, offset: nat, length: nat)

  /** The entry tells where object o stands in d. */
  ghost predicate EntryOk(d: Data, o: Obj, x: Entry) {
    forall k :: KeyAt(x.offset, k) ==>
      && x.name == NameOf(o) && x.cls == ClassOf(o) && x.offset % 4 == 0 && x.offset + x.length <= |d|
      && CreatedObj(o) && Holds(d, x.offset, ObjTokens(o), x.offset + x.length)
  }

  /** Entry i ends before entry j starts. */
  ghost predicate Before(index: seq<Entry>, i: nat, j: nat)
    requires i < |index| && j < |index|
  {
    index[i].offset + index[i].length <= index[j].offset
  }

  /** The index describes the objects in the data, in order and without overlap. */
  ghost predicate Indexed(d: Data, objs: seq<Obj>, index: seq<Entry>) {
    && |index| == |objs|
    && forall k :: KeyAt(|index|, k) ==>
         && (forall i :: 0 <= i < |objs| ==> EntryOk(d, objs[i], index[i]))
         && (forall i :: 0 <= i < |index| ==> index[i].offset + index[i].length <= |d|)
         && (forall i: nat, j: nat :: i < j < |index| ==> Before(index, i, j))
  }

  lemma EntryStays(d: Data, d': Data, o: Obj, x: Entry)
    requires EntryOk(d, o, x) && d <= d'
    ensures EntryOk(d', o, x)
  {
    assert KeyAt(x.offset, 0);
    HoldsPrefix(d, d', x.offset, ObjTokens(o), x.offset + x.length);
  }

  /** Appending an object and aligning the stream extends the index. */
  lemma IndexedNext(d: Data, d1: Data, d2: Data, objs: seq<Obj>, index: seq<Entry>, o: Obj)
    requires Indexed(d, objs, index) && |d| % 4 == 0 && CreatedObj(o) && Wrote(d, d1, ObjTokens(o)) && d <= d1 <= d2
    ensures Indexed(d2, objs + [o], index + [Entry(NameOf(o), ClassOf(o), |d|, |d1| - |d|)])
  {
    assert KeyAt(|index|, 0);
    var x := Entry(NameOf(o), ClassOf(o), |d|, |d1| - |d|);
    WroteHolds(d, d1, ObjTokens(o));
    HoldsPrefix(d1, d2, |d|, ObjTokens(o), |d1|);
    assert EntryOk(d2, o, x);
    forall i | 0 <= i < |objs|
      ensures EntryOk(d2, objs[i], index[i])
    {
      EntryStays(d, d2, objs[i], index[i]);
    }
    EntriesApart(index, x);
  }

  lemma EntriesApart(index: seq<Entry>, x: Entry)
    requires forall i: nat, j: nat :: i < j < |index| ==> Before(index, i, j)
    requires forall i :: 0 <= i < |index| ==> index[i].offset + index[i].length <= x.offset
    ensures forall i: nat, j: nat :: i < j < |index + [x]| ==> Before(index + [x], i, j)
  {
    var index' := index + [x];
    forall i: nat, j: nat | i < j < |index'|
      ensures Before(index', i, j)
    {
      assert j < |index| ==> Before(index, i, j);
    }
  }

  // -------------------------------------------------------------------- The header

  function EntryTokens(x: Entry): seq<Token> {
    [Str(x.name), U32(x.cls), U32(x.offset % TWO_32), U32(x.length % TWO_32)]
  }

  function EntriesTokens(index: seq<Entry>): seq<Token> {
    if index == [] then [] else EntryTokens(index[0]) + EntriesTokens(index[1..])
  }

  function HeaderTokens(index: seq<Entry>): seq<Token> {
    [U32(0), U32(1), U32(0), U32(|index| % TWO_32)] + EntriesTokens(index)
  }

  /** One entry of the index, with 32-bit offsets. */
  function ParseEntry(d: Data, at: nat): Parsed<Entry> {
    match ReadString(d, at) {
      case Got(s, p1) =>
        (match ReadU32(d, p1) {
          case Got(c, p2) =>
            (match ReadU32(d, p2) {
              case Got(o, p3) =>
                (match ReadU32(d, p3) {
                  case Got(n, p4) => Got(Entry(CString(s), c, o, n), p4)
                  case _ => Broken
                })
              case _ => Broken
            })
          case _ => Broken
        })
      case _ => Broken
    }
  }

  function ParseEntries(d: Data, at: nat, n: nat): Parsed<seq<Entry>>
    decreases n
  {
    if n == 0 then Got([], at)
    else (match ParseEntry(d, at)
      case Got(x, p) =>
        (match ParseEntries(d, p, n - 1)
          case Got(xs, q) => Got([x] + xs, q)
          case _ => Broken)
      case _ => Broken)
  }

  ghost predicate GoodEntry(x: Entry) {
    NoNul(x.name) && |x.name| < TWO_32 && x.offset < TWO_32 && x.length < TWO_32
  }

  ghost predicate EntryParsesTo(d: Data, at: nat, x: Entry, end: nat) {
    forall k :: KeyAt(at, k) ==> ParseEntry(d, at) == Got(x, end)
  }

  lemma EntryParsed(d: Data, at: nat, s: Data, c: u32, o: u32, n: u32, rest: seq<Token>, end: nat) returns (p: nat)
    requires Holds(d, at, [Str(s), U32(c), U32(o), U32(n)] + rest, end) && NoNul(s) && |s| < TWO_32
    ensures EntryParsesTo(d, at, Entry(s, c, o, n), p) && Holds(d, p, rest, end)
  {
    assert [Str(s), U32(c), U32(o), U32(n)] + rest == [Str(s)] + ([U32(c)] + ([U32(o)] + ([U32(n)] + rest)));
    HoldsFirst(d, at, Str(s), [U32(c)] + ([U32(o)] + ([U32(n)] + rest)), end);
    var p1 := TokenEnd(at, Str(s));
    HoldsFirst(d, p1, U32(c), [U32(o)] + ([U32(n)] + rest), end);
    var p2 := TokenEnd(p1, U32(c));
    HoldsFirst(d, p2, U32(o), [U32(n)] + rest, end);
    var p3 := TokenEnd(p2, U32(o));
    HoldsFirst(d, p3, U32(n), rest, end);
    p := TokenEnd(p3, U32(n));
    ReadsString(d, at, s);
    ReadsU32(d, p1, c);
    ReadsU32(d, p2, o);
    ReadsU32(d, p3, n);
    CStringWhole(s);
  }

  ghost predicate EntriesParseTo(d: Data, at: nat, xs: seq<Entry>, end: nat) {
    forall k :: KeyAt(at, k) ==> ParseEntries(d, at, |xs|) == Got(xs, end)
  }

  ghost predicate HoldsIndex(d: Data, at: nat, index: seq<Entry>, end: nat) {
    forall k :: Key(k) ==> Holds(d, at, EntriesTokens(index), end)
  }

  lemma EntriesParsed(d: Data, at: nat, xs: seq<Entry>, p: nat, q: nat)
    requires xs != [] && EntryParsesTo(d, at, xs[0], p) && EntriesParseTo(d, p, xs[1..], q)
    ensures EntriesParseTo(d, at, xs, q)
  {
    assert KeyAt(at, 0) && KeyAt(p, 0);
    assert xs == [xs[0]] + xs[1..];
  }

  lemma IndexFirst(d: Data, at: nat, index: seq<Entry>, end: nat) returns (p: nat)
    requires index != [] && HoldsIndex(d, at, index, end) && GoodEntry(index[0])
    ensures EntryParsesTo(d, at, index[0], p) && HoldsIndex(d, p, index[1..], end)
  {
    assert Key(0);
    var x := index[0];
    assert EntryTokens(x) == [Str(x.name), U32(x.cls), U32(x.offset), U32(x.length)];
    p := EntryParsed(d, at, x.name, x.cls, x.offset, x.length, EntriesTokens(index[1..]), end);
  }

  lemma IndexEnd(d: Data, at: nat, end: nat)
    requires HoldsIndex(d, at, [], end)
    ensures EntriesParseTo(d, at, [], end)
  {
    assert Key(0);
    HoldsNone(d, at, end);
  }

  /** The whole index comes back. */
  lemma {:induction false} EntriesRoundTrip(d: Data, at: nat, index: seq<Entry>, end: nat)
    requires HoldsIndex(d, at, index, end) && forall i :: 0 <= i < |index| ==> GoodEntry(index[i])
    ensures EntriesParseTo(d, at, index, end)
    decreases |index|
  {
    if index == [] {
      IndexEnd(d, at, end);
    } else {
      var p := IndexFirst(d, at, index, end);
      EntriesRoundTrip(d, p, index[1..], end);
      EntriesParsed(d, at, index, p, end);
    }
  }

  // ---------------------------------------------------------------------- The file

  const MAGIC: Data := [65, 110, 100, 114, 111, 105, 100, 51, 68, 95, 102, 102]
  const HEADER_CAPACITY: nat := 5 * 1024
  const DATA_CAPACITY: nat := 256 * 1024

  /** Magic, header size, header, data size, data. */
  function FileBytes(header: Data, data: Data): Data {
    MAGIC + Le(|header|, 8) + header + Le(|data|, 8) + data
  }

  datatype Contents = Contents(major: u32, minor: u32, use64: bool, index: seq<Entry>, data: Data)

  /** parseHeader; the header stream itself never uses 64-bit offsets, whatever the flags say. */
  function ParseHeader(h: Data): Parsed<(u32, u32, bool, seq<Entry>)> {
    match ReadU32(h, 0) {
      case Got(major, p1) =>
        (match ReadU32(h, p1) {
          case Got(minor, p2) =>
            (match ReadU32(h, p2) {
              case Got(flags, p3) =>
                (match ReadU32(h, p3) {
                  case Got(n, p4) =>
                    (match ParseEntries(h, p4, n) {
                      case Got(xs, p5) => Got((major, minor, flags % 2 == 1, xs), p5)
                      case _ => Broken
                    })
                  case _ => Broken
                })
              case _ => Broken
            })
          case _ => Broken
        })
      case _ => Broken
    }
  }

  /** FileA3D::load from memory; None is a refused file, or one that the parser would read past its end. */
  function Load(f: Data): Option<Contents> {
    if |f| < 20 || f[..12] != MAGIC then None
    else
      var headerSize := FromLe(f[12..20]);
      if |f| - 20 < headerSize then None
      else (match ParseHeader(f[20..])
        case Got(h, _) =>
          (match SizedData(f[20 + headerSize..])
            case Some(data) => Some(Contents(h.0, h.1, h.2, h.3, data))
            case None => None)
        case _ => None)
  }

  /** The data part, which starts with its own size. */
  function SizedData(rest: Data): Option<Data> {
    if |rest| < 8 || |rest| - 8 < FromLe(rest[..8]) then None else Some(rest[8..8 + FromLe(rest[..8])])
  }

  lemma HeaderStarts(h: Data, n: u32, rest: seq<Token>, end: nat) returns (p1: nat, p2: nat, p3: nat, p4: nat)
    requires Holds(h, 0, [U32(0), U32(1), U32(0), U32(n)] + rest, end)
    ensures ReadU32(h, 0) == Got(0, p1) && ReadU32(h, p1) == Got(1, p2) && ReadU32(h, p2) == Got(0, p3)
    ensures ReadU32(h, p3) == Got(n, p4) && Holds(h, p4, rest, end)
  {
    assert [U32(0), U32(1), U32(0), U32(n)] + rest == [U32(0)] + ([U32(1)] + ([U32(0)] + ([U32(n)] + rest)));
    HoldsFirst(h, 0, U32(0), [U32(1)] + ([U32(0)] + ([U32(n)] + rest)), end);
    p1 := TokenEnd(0, U32(0));
    HoldsFirst(h, p1, U32(1), [U32(0)] + ([U32(n)] + rest), end);
    p2 := TokenEnd(p1, U32(1));
    HoldsFirst(h, p2, U32(0), [U32(n)] + rest, end);
    p3 := TokenEnd(p2, U32(0));
    HoldsFirst(h, p3, U32(n), rest, end);
    p4 := TokenEnd(p3, U32(n));
    ReadsU32(h, 0, 0);
    ReadsU32(h, p1, 1);
    ReadsU32(h, p2, 0);
    ReadsU32(h, p3, n);
  }

  lemma HeaderParsed(h: Data, p1: nat, p2: nat, p3: nat, p4: nat, index: seq<Entry>, end: nat)
    requires |index| < TWO_32
    requires ReadU32(h, 0) == Got(0, p1) && ReadU32(h, p1) == Got(1, p2) && ReadU32(h, p2) == Got(0, p3)
    requires ReadU32(h, p3) == Got(|index|, p4) && EntriesParseTo(h, p4, index, end)
    ensures ParseHeader(h) == Got((0, 1, false, index), end)
  {
    assert KeyAt(p4, 0);
  }

  lemma HeaderRoundTrip(h: Data, index: seq<Entry>, end: nat)
    requires Holds(h, 0, HeaderTokens(index), end) && |index| < TWO_32
    requires forall i :: 0 <= i < |index| ==> GoodEntry(index[i])
    ensures ParseHeader(h) == Got((0, 1, false, index), end)
  {
    var p1, p2, p3, p4 := HeaderStarts(h, |index|, EntriesTokens(index), end);
    EntriesRoundTrip(h, p4, index, end);
    HeaderParsed(h, p1, p2, p3, p4, index, end);
  }

  /** The parts of a file, by position. */
  lemma FileParts(header: Data, data: Data)
    requires |header| < Pow256(8) && |data| < Pow256(8)
    ensures var f := FileBytes(header, data); var rest := f[20 + |header|..];
      && |f| == 28 + |header| + |data| && f[..12] == MAGIC && FromLe(f[12..20]) == |header| && header <= f[20..]
      && FromLe(rest[..8]) == |data| && rest[8..8 + |data|] == data
  {
    LeRoundTrip(|header|, 8);
    LeRoundTrip(|data|, 8);
    FiveParts(MAGIC, Le(|header|, 8), header, Le(|data|, 8), data);
  }

  lemma Cut(x: Data, y: Data, f: Data)
    requires f == x + y
    ensures f[..|x|] == x && f[|x|..] == y
  {
  }

  lemma FiveParts(a: Data, b: Data, c: Data, d: Data, e: Data)
    requires |a| == 12 && |b| == 8 && |d| == 8
    ensures var f := a + b + c + d + e; var rest := f[20 + |c|..];
      && |f| == 28 + |c| + |e| && f[..12] == a && f[12..20] == b && f[20..] == c + (d + e)
      && rest[..8] == d && rest[8..8 + |e|] == e
  {
    var f := a + b + c + d + e;
    var tail := d + e;
    assert f == a + (b + (c + tail));
    Cut(a, b + (c + tail), f);
    Cut(b, c + tail, f[12..]);
    assert f[12..20] == f[12..][..8] && f[20..] == f[12..][8..];
    Cut(c, tail, f[20..]);
    assert f[20 + |c|..] == f[20..][|c|..];
    Cut(d, e, tail);
    assert tail[8..8 + |e|] == tail[8..];
  }

  lemma LoadParsed(f: Data, headerSize: nat, dataSize: nat, index: seq<Entry>, p: nat, data: Data)
    requires |f| >= 28 + headerSize + dataSize && f[..12] == MAGIC && FromLe(f[12..20]) == headerSize
    requires ParseHeader(f[20..]) == Got((0, 1, false, index), p)
    requires var rest := f[20 + headerSize..]; FromLe(rest[..8]) == dataSize && rest[8..8 + dataSize] == data
    ensures Load(f) == Some(Contents(0, 1, false, index, data))
  {
  }

  /** Loading a written file gives back the version, the index and the data. */
  lemma FileRoundTrip(header: Data, data: Data, index: seq<Entry>)
    requires |header| < Pow256(8) && |data| < Pow256(8) && |index| < TWO_32
    requires Wrote([], header, HeaderTokens(index)) && forall i :: 0 <= i < |index| ==> GoodEntry(index[i])
    ensures Load(FileBytes(header, data)) == Some(Contents(0, 1, false, index, data))
  {
    var f := FileBytes(header, data);
    FileParts(header, data);
    WroteHolds([], header, HeaderTokens(index));
    HoldsPrefix(header, f[20..], 0, HeaderTokens(index), |header|);
    HeaderRoundTrip(f[20..], index, |header|);
    LoadParsed(f, |header|, |data|, index, |header|, data);
  }

  /** Each entry decodes to its object, which ends where the entry says; entries are aligned and do not overlap. */
  lemma EntryDecodes(d: Data, objs: seq<Obj>, index: seq<Entry>, i: nat)
    requires Indexed(d, objs, index) && i < |objs|
    ensures index[i].name == NameOf(objs[i]) && index[i].cls == ClassOf(objs[i])
    ensures index[i].offset % 4 == 0 && index[i].offset + index[i].length <= |d|
    ensures ParseObj(d, index[i].offset, index[i].cls) == Got(LoadedObj(objs[i]), index[i].offset + index[i].length)
    ensures forall j: nat :: i < j < |index| ==> index[i].offset + index[i].length <= index[j].offset
  {
    assert KeyAt(|index|, 0);
    assert EntryOk(d, objs[i], index[i]);
    EntryIsObj(d, objs[i], index[i]);
    forall j: nat | i < j < |index|
      ensures index[i].offset + index[i].length <= index[j].offset
    {
      assert Before(index, i, j);
    }
  }

  lemma EntryIsObj(d: Data, o: Obj, x: Entry)
    requires EntryOk(d, o, x)
    ensures x.name == NameOf(o) && x.cls == ClassOf(o) && x.offset % 4 == 0 && x.offset + x.length <= |d|
    ensures ParseObj(d, x.offset, x.cls) == Got(LoadedObj(o), x.offset + x.length)
  {
    assert KeyAt(x.offset, 0);
    ObjRoundTrip(d, x.offset, o, x.offset + x.length);
  }

  // --------------------------------------------------------------- The operations

  /** One entry of the header; both branches write the same, as the header stream has 32-bit offsets. */
  method WriteEntry(x: Entry, use64: bool, stream: OStream)
    requires stream.Valid() && |x.name| <= stream.data.Length && |x.name| < TWO_32
    modifies stream, stream.data
    ensures stream.Valid() && Wrote(old(stream.Written()), stream.Written(), EntryTokens(x))
    ensures stream.data.Length >= old(stream.data.Length) && (stream.data == old(stream.data) || fresh(stream.data))
  {
    ghost var d := stream.Written();
    ShortStringFits(stream.pos, stream.data.Length, |x.name|);
    stream.AddString(x.name);
    ghost var d1 := stream.Written();
    stream.AddU32(x.cls);
    ghost var d2 := stream.Written();
    if use64 {
      stream.AddOffset(x.offset);
    } else {
      stream.AddU32(x.offset % TWO_32);
    }
    ghost var d3 := stream.Written();
    if use64 {
      stream.AddOffset(x.length);
    } else {
      stream.AddU32(x.length % TWO_32);
    }
    ghost var s, c, o, n := Str(x.name), U32(x.cls), U32(x.offset % TWO_32), U32(x.length % TWO_32);
    WroteBoth(d, d1, d2, [s], [c]);
    WroteBoth(d, d2, d3, [s] + [c], [o]);
    WroteBoth(d, d3, stream.Written(), [s] + [c] + [o], [n]);
    assert EntryTokens(x) == [s] + [c] + [o] + [n];
  }

  method WriteHead(n: u32, stream: OStream)
    requires stream.Valid()
    modifies stream, stream.data
    ensures stream.Valid() && Wrote(old(stream.Written()), stream.Written(), [U32(0), U32(1), U32(0), U32(n)])
    ensures stream.data.Length >= old(stream.data.Length) && (stream.data == old(stream.data) || fresh(stream.data))
  {
    ghost var d := stream.Written();
    stream.AddU32(0);
    ghost var d1 := stream.Written();
    stream.AddU32(1);
    ghost var d2 := stream.Written();
    stream.AddU32(0);
    ghost var d3 := stream.Written();
    stream.AddU32(n);
    WroteBoth(d, d1, d2, [U32(0)], [U32(1)]);
    WroteBoth(d, d2, d3, [U32(0)] + [U32(1)], [U32(0)]);
    WroteBoth(d, d3, stream.Written(), [U32(0)] + [U32(1)] + [U32(0)], [U32(n)]);
    assert [U32(0), U32(1), U32(0), U32(n)] == [U32(0)] + [U32(1)] + [U32(0)] + [U32(n)];
  }

  /** The header of a file with this index. */
  method WriteHeader(index: seq<Entry>, use64: bool) returns (header: Data)
    requires |index| < TWO_32 && forall i :: 0 <= i < |index| ==> |index[i].name| <= HEADER_CAPACITY
    ensures Wrote([], header, HeaderTokens(index))
  {
    var stream := new OStream(HEADER_CAPACITY);
    WriteHead(|index|, stream);
    ghost var ts := [U32(0), U32(1), U32(0), U32(|index|)];
    var ct := 0;
    while ct < |index|
      invariant 0 <= ct <= |index| && stream.Valid() && fresh(stream) && fresh(stream.data)
      invariant stream.data.Length >= HEADER_CAPACITY
      invariant HeaderTokens(index) == ts + EntriesTokens(index[ct..]) && Wrote([], stream.Written(), ts)
    {
      ghost var d := stream.Written();
      WriteEntry(index[ct], use64, stream);
      WroteBoth([], d, stream.Written(), ts, EntryTokens(index[ct]));
      HeaderNext(index, ct, ts);
      ts := ts + EntryTokens(index[ct]);
      ct := ct + 1;
    }
    assert ts == HeaderTokens(index);
    header := stream.data[..stream.pos];
  }

  lemma HeaderNext(index: seq<Entry>, ct: nat, ts: seq<Token>)
    requires ct < |index| && HeaderTokens(index) == ts + EntriesTokens(index[ct..])
    ensures HeaderTokens(index) == ts + EntryTokens(index[ct]) + EntriesTokens(index[ct + 1..])
  {
    assert index[ct..][1..] == index[ct + 1..];
    SplitTokens(ts, EntriesTokens(index[ct..]), EntryTokens(index[ct]), EntriesTokens(index[ct + 1..]));
  }

  /** The object and the alignment after it; d1 is the data between the two. */
  method WriteAligned(stream: OStream, o: Obj) returns (length: nat, ghost d1: Data)
    requires stream.Valid() && stream.data.Length >= DATA_CAPACITY
    requires CreatedObj(o) && ObjNamed(o) && ObjNamesFit(o, DATA_CAPACITY) && End(stream.pos, ObjTokens(o)) + 3 < TWO_32
    modifies stream, stream.data
    ensures stream.Valid() && stream.data.Length >= DATA_CAPACITY
    ensures stream.data == old(stream.data) || fresh(stream.data)
    ensures stream.pos % 4 == 0 && 0 < stream.pos < TWO_32
    ensures Wrote(old(stream.Written()), d1, ObjTokens(o)) && old(stream.Written()) <= d1 <= stream.Written()
    ensures length == |d1| - old(stream.pos) && stream.pos == Align4(End(old(stream.pos), ObjTokens(o)))
  {
    ghost var d := stream.Written();
    var offset := stream.pos;
    FitsMore(o, DATA_CAPACITY, stream.data.Length);
    SerializeObj(o, stream);
    d1 := stream.Written();
    WroteLength(d, d1, ObjTokens(o));
    length := stream.pos - offset;
    AlignedFits(stream.pos);
    ObjTokensLong(o, offset);
    stream.Align();
  }

  lemma WroteLength(d: Data, d1: Data, ts: seq<Token>)
    requires Wrote(d, d1, ts)
    ensures |d1| == End(|d|, ts) && d <= d1
  {
    assert Key(0);
  }

  /** FileA3D as a writer. The source leaves mUse64BitOffsets as it finds it; here it can be anything. */
  class FileA3D {
    const use64: bool
    var writeStream: OStream?
    var writeIndex: seq<Entry>
    ghost var objs: seq<Obj>

    /** What the write stream holds. */
    ghost function Written(): Data
      reads this, writeStream, if writeStream == null then {} else {writeStream.data}
      requires writeStream != null ==> writeStream.Valid()
    {
      if writeStream == null then [] else writeStream.Written()
    }

    ghost predicate Valid()
      reads this, writeStream, if writeStream == null then {} else {writeStream.data}
    {
      && (writeStream == null <==> objs == [])
      && (writeStream != null ==>
            && writeStream.Valid() && writeStream.data.Length >= DATA_CAPACITY
            && writeStream.pos % 4 == 0 && 0 < writeStream.pos < TWO_32)
      && Indexed(Written(), objs, writeIndex)
    }

    constructor (use64: bool)
      ensures Valid() && objs == [] && writeStream == null
    {
      this.use64 := use64;
      writeStream, writeIndex, objs := null, [], [];
    }

    /** FileA3D::appendToFile. */
    method AppendToFile(o: Obj)
      requires Valid() && CreatedObj(o) && ObjNamed(o) && ObjNamesFit(o, DATA_CAPACITY)
      requires End(|Written()|, ObjTokens(o)) + 3 < TWO_32
      modifies this, writeStream, if writeStream == null then {} else {writeStream.data}
      ensures Valid() && objs == old(objs) + [o] && writeStream != null
      ensures |Written()| == Align4(End(old(|Written()|), ObjTokens(o)))
      ensures if old(writeStream) == null then fresh(writeStream) && fresh(writeStream.data)
              else
                && writeStream == old(writeStream)
                && (writeStream.data == old(writeStream.data) || fresh(writeStream.data))
    {
      if writeStream == null {
        writeStream := new OStream(DATA_CAPACITY);
      }
      Put(writeStream, o);
    }

    method Put(stream: OStream, o: Obj)
      requires stream == writeStream && stream.Valid() && stream.data.Length >= DATA_CAPACITY && stream.pos % 4 == 0
      requires Indexed(stream.Written(), objs, writeIndex)
      requires CreatedObj(o) && ObjNamed(o) && ObjNamesFit(o, DATA_CAPACITY)
      requires End(stream.pos, ObjTokens(o)) + 3 < TWO_32
      modifies this`writeIndex, this`objs, stream, stream.data
      ensures Valid() && objs == old(objs) + [o] && stream.pos == Align4(End(old(stream.pos), ObjTokens(o)))
      ensures stream.data == old(stream.data) || fresh(stream.data)
    {
      ghost var d := stream.Written();
      var offset := stream.pos;
      var length, d1 := WriteAligned(stream, o);
      IndexedNext(d, d1, stream.Written(), objs, writeIndex, o);
      writeIndex := writeIndex + [Entry(NameOf(o), ClassOf(o), offset, length)];
      objs := objs + [o];
    }

    /** FileA3D::writeFile, up to the file system: the bytes of the file, or none if there is no object. */
    method WriteFile() returns (r: Option<Data>)
      requires Valid() && |objs| < TWO_32
      requires forall i :: 0 <= i < |writeIndex| ==> |writeIndex[i].name| <= HEADER_CAPACITY
      ensures objs == [] ==> r == None
      ensures objs != [] ==> r.Some? && Load(r.value) == Some(Contents(0, 1, false, writeIndex, Written()))
    {
      if writeStream == null {
        return None;
      }
      if writeStream.pos == 0 {
        return None;
      }
      var header := WriteHeader(writeIndex, use64);
      var data := writeStream.data[..writeStream.pos];
      HeaderShort(header, writeIndex);
      EntriesGood(data, objs, writeIndex);
      FileRoundTrip(header, data, writeIndex);
      r := Some(FileBytes(header, data));
    }
  }

  lemma ObjTokensLong(o: Obj, at: nat)
    ensures End(at, ObjTokens(o)) > at
  {
    assert ObjTokens(o)[0].U32?;
  }

  lemma EntriesGood(d: Data, objs: seq<Obj>, index: seq<Entry>)
    requires Indexed(d, objs, index) && |d| < TWO_32
    ensures forall i :: 0 <= i < |index| ==> GoodEntry(index[i])
  {
    assert KeyAt(|index|, 0);
    forall i | 0 <= i < |index|
      ensures GoodEntry(index[i])
    {
      assert EntryOk(d, objs[i], index[i]);
      EntryGood(d, objs[i], index[i]);
    }
  }

  lemma EntryGood(d: Data, o: Obj, x: Entry)
    requires EntryOk(d, o, x) && |d| < TWO_32
    ensures GoodEntry(x)
  {
    assert KeyAt(x.offset, 0);
  }

  lemma EntryShort(at: nat, x: Entry)
    requires |x.name| <= HEADER_CAPACITY
    ensures End(at, EntryTokens(x)) <= at + 6000
  {
    var s, c, o, n := Str(x.name), U32(x.cls), U32(x.offset % TWO_32), U32(x.length % TWO_32);
    assert EntryTokens(x) == [s] + ([c] + ([o] + ([n] + [])));
    FirstToken([], at, s, [c] + ([o] + ([n] + [])));
    var p1 := TokenEnd(at, s);
    FirstToken([], p1, c, [o] + ([n] + []));
    var p2 := TokenEnd(p1, c);
    FirstToken([], p2, o, [n] + []);
    FirstToken([], TokenEnd(p2, o), n, []);
  }

  lemma {:induction false} EntriesShort(at: nat, index: seq<Entry>)
    requires forall i :: 0 <= i < |index| ==> |index[i].name| <= HEADER_CAPACITY
    ensures End(at, EntriesTokens(index)) <= at + 6000 * |index|
    decreases |index|
  {
    if index != [] {
      EntryShort(at, index[0]);
      AllAtConcat([], at, EntryTokens(index[0]), EntriesTokens(index[1..]));
      EntriesShort(End(at, EntryTokens(index[0])), index[1..]);
    }
  }

  lemma HeaderShort(header: Data, index: seq<Entry>)
    requires Wrote([], header, HeaderTokens(index)) && |index| < TWO_32
    requires forall i :: 0 <= i < |index| ==> |index[i].name| <= HEADER_CAPACITY
    ensures |header| < Pow256(8)
  {
    WroteHolds([], header, HeaderTokens(index));
    var p1, p2, p3, p4 := HeaderStarts(header, |index|, EntriesTokens(index), |header|);
    EntriesShort(p4, index);
    assert End(p4, EntriesTokens(index)) == |header| by { assert Key(0); }
  }

  lemma AlignedFits(pos: nat)
    requires pos + 3 < TWO_32
    ensures Align4(pos) < TWO_32 && Align4(pos) % 4 == 0
  {
    Align4IsRoundUp(pos);
  }

  lemma FitsMore(o: Obj, m: nat, n: nat)
    requires ObjNamesFit(o, m) && m <= n
    ensures ObjNamesFit(o, n)
  {
    NamesFitMore(if o.ElementObj? then o.elem else o.type_.elem, m, n);
  }

  // ----------------------------------------------------------------------- Reading

  /** The entries read so far, and those still to read, which start at `at`. */
  ghost predicate EntriesLeft(d: Data, at: nat, n: nat, entries: seq<Entry>, all: seq<Entry>, end: nat) {
    forall k :: KeyAt(at, k) ==>
      && ParseEntries(d, at, n).Got? && ParseEntries(d, at, n).next == end
      && all == entries + ParseEntries(d, at, n).value
  }

  lemma EntriesNext(d: Data, at: nat, n: nat, entries: seq<Entry>, all: seq<Entry>, end: nat) returns (x: Entry, p: nat)
    requires EntriesLeft(d, at, n, entries, all, end) && n > 0
    ensures EntryParsesTo(d, at, x, p) && EntriesLeft(d, p, n - 1, entries + [x], all, end)
  {
    assert KeyAt(at, 0);
    var r := ParseEntry(d, at);
    x, p := r.value, r.next;
    assert ParseEntries(d, at, n).value == [x] + ParseEntries(d, p, n - 1).value;
  }

  lemma EntriesDone(d: Data, at: nat, entries: seq<Entry>, all: seq<Entry>, end: nat)
    requires EntriesLeft(d, at, 0, entries, all, end)
    ensures entries == all && at == end
  {
    assert KeyAt(at, 0);
  }

  method LoadEntry(stream: IStream, ghost x: Entry, ghost p: nat) returns (y: Entry)
    requires EntryParsesTo(stream.data, stream.pos, x, p)
    modifies stream
    ensures y == x && stream.pos == p
  {
    assert KeyAt(stream.pos, 0);
    var s := stream.LoadString();
    var c := stream.LoadU32();
    var offset := stream.LoadU32();
    var length := stream.LoadU32();
    y := Entry(CString(s), c, offset, length);
  }

  /** The loop of FileA3D::parseHeader. */
  method LoadEntries(stream: IStream, n: nat, ghost all: seq<Entry>, ghost end: nat) returns (entries: seq<Entry>)
    requires EntriesLeft(stream.data, stream.pos, n, [], all, end)
    modifies stream
    ensures entries == all && stream.pos == end
  {
    entries := [];
    ghost var left, at := n, stream.pos;
    var i := 0;
    while i < n
      invariant 0 <= i <= n && left == n - i && stream.pos == at
      invariant EntriesLeft(stream.data, at, left, entries, all, end)
    {
      ghost var x, p := EntriesNext(stream.data, at, left, entries, all, end);
      var y := LoadEntry(stream, x, p);
      entries := entries + [y];
      i, left, at := i + 1, left - 1, p;
    }
    EntriesDone(stream.data, at, entries, all, end);
  }

  /** FileA3D::parseHeader. */
  method LoadHeader(stream: IStream) returns (major: u32, minor: u32, use64: bool, index: seq<Entry>)
    requires stream.pos == 0 && ParseHeader(stream.data).Got?
    modifies stream
    ensures ParseHeader(stream.data).value == (major, minor, use64, index)
  {
    major := stream.LoadU32();
    minor := stream.LoadU32();
    var flags := stream.LoadU32();
    use64 := flags % 2 == 1;
    var n := stream.LoadU32();
    ghost var all := ParseEntries(stream.data, stream.pos, n);
    assert all.value == [] + all.value;
    index := LoadEntries(stream, n, all.value, all.next);
  }

  /** FileA3D::load from memory. */
  method LoadFile(f: Data) returns (r: Option<Contents>)
    requires |f| >= 20 && f[..12] == MAGIC && |f| - 20 >= FromLe(f[12..20]) ==> ParseHeader(f[20..]).Got?
    ensures r == Load(f)
  {
    if |f| < 12 || f[..12] != MAGIC {
      return None;
    }
    if |f| - 12 < 8 {
      return None;
    }
    var headerSize := FromLe(f[12..20]);
    if |f| - 20 < headerSize {
      return None;
    }
    var stream := new IStream(f[20..]);
    var major, minor, use64, index := LoadHeader(stream);
    var data := SizedData(f[20 + headerSize..]);
    if data.None? {
      return None;
    }
    r := Some(Contents(major, minor, use64, index, data.value));
  }
}
