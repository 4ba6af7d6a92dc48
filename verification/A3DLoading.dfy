/**
 Reading types and A3D files (rsType.cpp, rsFileA3D.cpp): objects are made through the caches
 of a context, and a file gives back what was appended to it.
 */
module A3DLoading {
  import opened Common
  import opened Streams
  import opened Elements
  import opened Interning
  import opened ElementLoading
  import opened A3DFile
  import MipLevels

  // -------------------------------------------------------------------------- Types

  /** The type at p, without names. */
  ghost function DeepType(mem: Memory, next: Ptr, p: Ptr): TypeObj
    requires HeapOk(mem, next) && p in mem && mem[p].TypeRec?
  {
    var r := mem[p];
    assert RecOk(mem, p, r);
    TypeObj(None, Deep(mem, next, r.elem), r.params.dims, r.params.yuv, [])
  }

  /** The object at p, without names. */
  ghost function DeepObj(mem: Memory, next: Ptr, p: Ptr): Obj
    requires HeapOk(mem, next) && p in mem
  {
    if mem[p].ElemRec? then ElementObj(Deep(mem, next, p)) else TypeOf(DeepType(mem, next, p))
  }

  /** The object at p is o. */
  ghost predicate StandsFor(mem: Memory, next: Ptr, p: Ptr, o: Obj) {
    p in mem && forall k :: KeyAt(p, k) ==> HeapOk(mem, next) && DeepObj(mem, next, p) == o
  }

  lemma StandsForGrows(mem: Memory, next: Ptr, mem': Memory, next': Ptr, p: Ptr, o: Obj)
    requires StandsFor(mem, next, p, o) && HeapOk(mem', next') && Extends(mem, mem')
    ensures StandsFor(mem', next', p, o)
  {
    assert KeyAt(p, 0);
    assert RecOk(mem, p, mem[p]);
    ExtendsMeans(mem, mem');
    DeepGrows(mem, next, mem', next', if mem[p].ElemRec? then p else mem[p].elem);
  }

  lemma TypeStands(mem: Memory, next: Ptr, p: Ptr, q: Ptr, e: Element, dims: MipLevels.Dims)
    requires HeapOk(mem, next) && p in mem && mem[p] == TypeRec(q, TypeParams(dims, 0)) && Stands(mem, next, q, e)
    ensures StandsFor(mem, next, p, TypeOf(TypeObj(None, e, dims, 0, [])))
  {
    assert KeyAt(q, 0);
  }

  lemma ElementStands(mem: Memory, next: Ptr, p: Ptr, e: Element)
    requires Stands(mem, next, p, e)
    ensures StandsFor(mem, next, p, ElementObj(e))
  {
    assert KeyAt(p, 0);
  }

  method LoadTail(stream: IStream) returns (dims: MipLevels.Dims)
    requires ParseTail(stream.data, stream.pos) != Broken
    modifies stream
    ensures ParseTail(stream.data, old(stream.pos)) == Got(dims, stream.pos)
  {
    var x := stream.LoadU32();
    var y := stream.LoadU32();
    var z := stream.LoadU32();
    var m := stream.LoadU8();
    var f := stream.LoadU8();
    dims := MipLevels.Dims(x, y, z, m != 0, f != 0);
  }

  /** Type::createFromStream. */
  method CreateTypeFromStream(caches: Caches, stream: IStream) returns (r: Option<Ptr>)
    requires caches.Valid() && ParseType(stream.data, stream.pos) != Broken
    modifies caches, stream
    ensures caches.Valid() && Extends(old(caches.mem), caches.mem) && caches.names == old(caches.names)
    ensures match ParseType(stream.data, old(stream.pos))
      case Got(t, end) => r.Some? && StandsFor(caches.mem, caches.next, r.value, TypeOf(t)) && stream.pos == end
      case _ => r == None
  {
    var id := stream.LoadU32();
    if id != CLASS_TYPE {
      return None;
    }
    var name := stream.LoadString();
    ghost var parsed := ParseElement(stream.data, stream.pos);
    var e := CreateFromStream(caches, stream);
    if e.None? {
      return None;
    }
    var dims := LoadTail(stream);
    ghost var mem := caches.mem;
    var p := GetLoaded(caches, e.value, dims, parsed.value);
    ExtendsTwice(old(caches.mem), mem, caches.mem);
    r := Some(p);
  }

  /** The request for a type over an element that is made. */
  method GetLoaded(caches: Caches, q: Ptr, dims: MipLevels.Dims, ghost e: Element) returns (p: Ptr)
    requires caches.Valid() && Stands(caches.mem, caches.next, q, e)
    modifies caches
    ensures caches.Valid() && Extends(old(caches.mem), caches.mem) && caches.names == old(caches.names)
    ensures StandsFor(caches.mem, caches.next, p, TypeOf(TypeObj(None, e, dims, 0, [])))
  {
    ghost var mem, next := caches.mem, caches.next;
    p := caches.GetType(q, TypeParams(dims, 0));
    StandsGrows(mem, next, caches.mem, caches.next, q, e);
    TypeStands(caches.mem, caches.next, p, q, e, dims);
  }

  // --------------------------------------------------------------------------- Names

  /** The object at p with the names that it and its parts have. */
  ghost function NamedObj(mem: Memory, names: Names, next: Ptr, p: Ptr): Obj
    requires HeapOk(mem, next) && p in mem
  {
    var r := mem[p];
    assert RecOk(mem, p, r);
    if r.ElemRec? then ElementObj(Tree(mem, names, next, p))
    else TypeOf(TypeObj(if p in names then Some(names[p]) else None, Tree(mem, names, next, r.elem),
                        r.params.dims, r.params.yuv, []))
  }

  ghost predicate ObjWritable(mem: Memory, names: Names, next: Ptr, p: Ptr)
    requires HeapOk(mem, next) && p in mem
  {
    SerializedObj(NamedObj(mem, names, next, p)).Some?
  }

  /** Object o, with names for itself and all its parts, is at q. */
  ghost predicate ObjNamedAt(mem: Memory, names: Names, next: Ptr, q: Ptr, o: Obj)
    requires HeapOk(mem, next)
  {
    q in mem && DeepObj(mem, next, q) == o && ObjNamed(NamedObj(mem, names, next, q))
  }

  lemma ObjGrows(mem: Memory, next: Ptr, mem': Memory, next': Ptr, names: Names, p: Ptr)
    requires HeapOk(mem, next) && HeapOk(mem', next') && Grows(mem, mem') && p in mem
    ensures DeepObj(mem', next', p) == DeepObj(mem, next, p)
    ensures NamedObj(mem', names, next', p) == NamedObj(mem, names, next, p)
  {
    assert RecOk(mem, p, mem[p]);
    var e := if mem[p].ElemRec? then p else mem[p].elem;
    DeepGrows(mem, next, mem', next', e);
    TreeGrows(mem, next, mem', next', names, e);
  }

  /** Pointer equality is equality of objects up to names. */
  lemma ObjPointers(mem: Memory, next: Ptr, p: Ptr, q: Ptr)
    requires HeapOk(mem, next) && Unique(mem) && p in mem && q in mem
    ensures DeepObj(mem, next, p) == DeepObj(mem, next, q) <==> p == q
  {
    if mem[p].ElemRec? && mem[q].ElemRec? {
      PointersAreStructure(mem, next, p, q);
    } else if mem[p].TypeRec? && mem[q].TypeRec? {
      TypePointersAreStructure(mem, next, p, q);
    }
  }

  /** What was loaded can be written exactly when it was there before, and had a name as all its parts had. */
  lemma LoadedObjWritableIff(mem: Memory, names: Names, next: Ptr, mem': Memory, next': Ptr, p: Ptr, o: Obj)
    requires HeapOk(mem, next) && HeapOk(mem', next') && Grows(mem, mem') && forall q :: q in names ==> q in mem
    requires Unique(mem') && p in mem' && DeepObj(mem', next', p) == o
    ensures ObjWritable(mem', names, next', p) <==> exists q :: ObjNamedAt(mem, names, next, q, o)
  {
    ObjSerializesIffNamed(NamedObj(mem', names, next', p));
    if ObjNamed(NamedObj(mem', names, next', p)) {
      assert p in names;
      ObjGrows(mem, next, mem', next', names, p);
      assert ObjNamedAt(mem, names, next, p, o);
    }
    if q :| ObjNamedAt(mem, names, next, q, o) {
      ObjGrows(mem, next, mem', next', names, q);
      ObjPointers(mem', next', p, q);
    }
  }

  // ------------------------------------------------------------------------ The reader

  /** The switch of initializeFromEntry. */
  method LoadObj(caches: Caches, stream: IStream, cls: u32) returns (r: Option<Ptr>)
    requires caches.Valid() && ParseObj(stream.data, stream.pos, cls) != Broken
    modifies caches, stream
    ensures caches.Valid() && Extends(old(caches.mem), caches.mem) && caches.names == old(caches.names)
    ensures match ParseObj(stream.data, old(stream.pos), cls)
      case Got(o, end) => r.Some? && StandsFor(caches.mem, caches.next, r.value, o)
      case _ => r == None
  {
    r := None;
    ghost var parsed := ParseElement(stream.data, stream.pos);
    if cls == CLASS_TYPE {
      r := CreateTypeFromStream(caches, stream);
    } else if cls == CLASS_ELEMENT {
      r := CreateFromStream(caches, stream);
      if r.Some? {
        ElementStands(caches.mem, caches.next, r.value, parsed.value);
      }
    }
  }

  /** What entry i decodes to. */
  ghost function Decoded(c: Contents, i: nat): Parsed<Obj>
    requires i < |c.index|
  {
    ParseObj(c.data, c.index[i].offset, c.index[i].cls)
  }

  /** The object made from entry i, if any, is what the entry decodes to. */
  ghost predicate MadeOk(c: Contents, made: seq<Option<Ptr>>, mem: Memory, next: Ptr, i: nat)
    requires i < |c.index| == |made|
  {
    made[i].Some? ==> Decoded(c, i).Got? && StandsFor(mem, next, made[i].value, Decoded(c, i).value)
  }

  ghost predicate AllMadeOk(c: Contents, made: seq<Option<Ptr>>, mem: Memory, next: Ptr) {
    |made| == |c.index| && forall i: nat :: i < |made| ==> MadeOk(c, made, mem, next, i)
  }

  lemma MadeGrows(c: Contents, made: seq<Option<Ptr>>, mem: Memory, next: Ptr, mem': Memory, next': Ptr)
    requires AllMadeOk(c, made, mem, next) && HeapOk(mem', next') && Extends(mem, mem')
    ensures AllMadeOk(c, made, mem', next')
  {
    forall i: nat | i < |made|
      ensures MadeOk(c, made, mem', next', i)
    {
      assert MadeOk(c, made, mem, next, i);
      if made[i].Some? {
        StandsForGrows(mem, next, mem', next', made[i].value, Decoded(c, i).value);
      }
    }
  }

  lemma MadeOne(c: Contents, made: seq<Option<Ptr>>, mem: Memory, next: Ptr, i: nat, r: Option<Ptr>)
    requires AllMadeOk(c, made, mem, next) && i < |made|
    requires r.Some? ==> Decoded(c, i).Got? && StandsFor(mem, next, r.value, Decoded(c, i).value)
    ensures AllMadeOk(c, made[i := r], mem, next)
  {
    var made' := made[i := r];
    forall j: nat | j < |made'|
      ensures MadeOk(c, made', mem, next, j)
    {
      assert MadeOk(c, made, mem, next, j);
    }
  }

  /** A loaded file, and the objects that have been made from its entries. */
  class Reader {
    const contents: Contents
    const stream: IStream
    const caches: Caches
    var made: seq<Option<Ptr>>

    ghost predicate Valid()
      reads this, caches
    {
      stream.data == contents.data && caches.Valid() && AllMadeOk(contents, made, caches.mem, caches.next)
    }

    constructor (contents: Contents, caches: Caches)
      requires caches.Valid()
      ensures Valid() && this.contents == contents && this.caches == caches && fresh(stream)
    {
      this.contents, this.caches := contents, caches;
      stream := new IStream(contents.data);
      made := seq(|contents.index|, i => None);
    }

    /** FileA3D::initializeFromEntry: an object is decoded once, and later calls give the same one. */
    method InitializeFromEntry(i: nat) returns (r: Option<Ptr>)
      requires Valid() && (i < |contents.index| ==> Decoded(contents, i) != Broken)
      modifies this, stream, caches
      ensures Valid() && Extends(old(caches.mem), caches.mem) && caches.names == old(caches.names)
      ensures if i < |contents.index| then made == old(made)[i := r] else r == None && made == old(made)
      ensures i < |contents.index| ==> (r.Some? <==> Decoded(contents, i).Got?)
      ensures r.Some? ==> StandsFor(caches.mem, caches.next, r.value, Decoded(contents, i).value)
      ensures i < |contents.index| && old(made[i]).Some? ==> r == old(made[i])
    {
      if i >= |contents.index| {
        return None;
      }
      assert MadeOk(contents, made, caches.mem, caches.next, i);
      if made[i].Some? {
        return made[i];
      }
      ghost var mem, next := caches.mem, caches.next;
      stream.Reset(contents.index[i].offset);
      r := LoadObj(caches, stream, contents.index[i].cls);
      MadeGrows(contents, made, mem, next, caches.mem, caches.next);
      MadeOne(contents, made, caches.mem, caches.next, i, r);
      made := made[i := r];
    }
  }

  // ---------------------------------------------------------------------- All together

  /** Where the data part ends after the first n objects. */
  ghost function DataEnd(objs: seq<Obj>, n: nat): nat
    requires n <= |objs|
  {
    if n == 0 then 0 else Align4(End(DataEnd(objs, n - 1), ObjTokens(objs[n - 1])))
  }

  /** Object n is named and fits behind those before it. */
  ghost predicate StorableAt(objs: seq<Obj>, n: nat)
    requires n < |objs|
  {
    && CreatedObj(objs[n]) && ObjNamed(objs[n]) && ObjNamesFit(objs[n], DATA_CAPACITY)
    && |NameOf(objs[n])| <= HEADER_CAPACITY && End(DataEnd(objs, n), ObjTokens(objs[n])) + 3 < TWO_32
  }

  /** Named objects that fit in a file. */
  ghost predicate Storable(objs: seq<Obj>) {
    objs != [] && |objs| < TWO_32 && forall k :: Key(k) ==> forall n: nat :: n < |objs| ==> StorableAt(objs, n)
  }

  /** The file loads, and its entries decode to the objects, as loaded, one by one. */
  ghost predicate Stores(f: Data, objs: seq<Obj>) {
    && Load(f).Some? && |Load(f).value.index| == |objs|
    && forall i :: 0 <= i < |objs| ==> EntryIs(Load(f).value, i, objs[i])
  }

  ghost predicate EntryIs(c: Contents, i: nat, o: Obj)
    requires i < |c.index|
  {
    && c.index[i].name == NameOf(o) && c.index[i].cls == ClassOf(o)
    && ParseObj(c.data, c.index[i].offset, c.index[i].cls) == Got(LoadedObj(o), c.index[i].offset + c.index[i].length)
  }

  /** The first n objects have been appended. */
  ghost predicate Appended(objs: seq<Obj>, n: nat, done: seq<Obj>, end: nat) {
    forall k :: KeyAt(n, k) ==> n <= |objs| && done == objs[..n] && end == DataEnd(objs, n)
  }

  lemma AppendedNext(objs: seq<Obj>, n: nat, done: seq<Obj>, end: nat)
    requires n < |objs| && Storable(objs) && Appended(objs, n, done, end)
    ensures CreatedObj(objs[n]) && ObjNamed(objs[n]) && ObjNamesFit(objs[n], DATA_CAPACITY)
    ensures End(end, ObjTokens(objs[n])) + 3 < TWO_32
    ensures Appended(objs, n + 1, done + [objs[n]], Align4(End(end, ObjTokens(objs[n]))))
  {
    AppendedStep(objs, n, done, end);
    StorableMeans(objs, n);
  }

  lemma AppendedStep(objs: seq<Obj>, n: nat, done: seq<Obj>, end: nat)
    requires n < |objs| && Appended(objs, n, done, end)
    ensures end == DataEnd(objs, n)
    ensures Appended(objs, n + 1, done + [objs[n]], Align4(End(end, ObjTokens(objs[n]))))
  {
    assert KeyAt(n, 0);
    assert objs[..n + 1] == objs[..n] + [objs[n]];
  }

  lemma StorableMeans(objs: seq<Obj>, n: nat)
    requires n < |objs| && Storable(objs)
    ensures StorableAt(objs, n)
  {
    assert Key(0);
  }

  lemma AppendedAll(objs: seq<Obj>, done: seq<Obj>, end: nat)
    requires Appended(objs, |objs|, done, end)
    ensures done == objs
  {
    assert KeyAt(|objs|, 0);
  }

  method AppendAll(objs: seq<Obj>, use64: bool) returns (file: FileA3D)
    requires Storable(objs)
    ensures fresh(file) && file.Valid() && file.objs == objs
  {
    file := new FileA3D(use64);
    var n := 0;
    while n < |objs|
      invariant 0 <= n <= |objs| && fresh(file) && file.Valid() && Appended(objs, n, file.objs, |file.Written()|)
      invariant file.writeStream != null ==> fresh(file.writeStream) && fresh(file.writeStream.data)
    {
      AppendedNext(objs, n, file.objs, |file.Written()|);
      file.AppendToFile(objs[n]);
      n := n + 1;
    }
    AppendedAll(objs, file.objs, |file.Written()|);
  }

  lemma EntriesAre(d: Data, objs: seq<Obj>, index: seq<Entry>)
    requires Indexed(d, objs, index) && Storable(objs)
    ensures forall i :: 0 <= i < |objs| ==> EntryIs(Contents(0, 1, false, index, d), i, objs[i])
    ensures forall i :: 0 <= i < |index| ==> |index[i].name| <= HEADER_CAPACITY
  {
    forall i: nat | i < |objs|
      ensures EntryIs(Contents(0, 1, false, index, d), i, objs[i]) && |index[i].name| <= HEADER_CAPACITY
    {
      StorableMeans(objs, i);
      EntryDecodes(d, objs, index, i);
    }
  }

  /** appendToFile for each object, and writeFile. */
  method StoreAll(objs: seq<Obj>, use64: bool) returns (f: Data)
    requires Storable(objs)
    ensures Stores(f, objs)
  {
    var file := AppendAll(objs, use64);
    EntriesAre(file.Written(), objs, file.writeIndex);
    var r := file.WriteFile();
    f := r.value;
  }

  /** The pointers are to the first objects, as loaded. */
  ghost predicate AreLoaded(mem: Memory, next: Ptr, ps: seq<Ptr>, objs: seq<Obj>) {
    |ps| <= |objs| && forall i :: 0 <= i < |ps| ==> StandsFor(mem, next, ps[i], LoadedObj(objs[i]))
  }

  lemma LoadedGrow(mem: Memory, next: Ptr, mem': Memory, next': Ptr, ps: seq<Ptr>, objs: seq<Obj>)
    requires AreLoaded(mem, next, ps, objs) && HeapOk(mem', next') && Extends(mem, mem')
    ensures AreLoaded(mem', next', ps, objs)
  {
    forall i | 0 <= i < |ps|
      ensures StandsFor(mem', next', ps[i], LoadedObj(objs[i]))
    {
      StandsForGrows(mem, next, mem', next', ps[i], LoadedObj(objs[i]));
    }
  }

  /** The next entry is initialised. */
  method InitializeNext(reader: Reader, ps: seq<Ptr>, ghost objs: seq<Obj>) returns (p: Ptr)
    requires reader.Valid() && |ps| < |objs| && AreLoaded(reader.caches.mem, reader.caches.next, ps, objs)
    requires |ps| < |reader.contents.index| && EntryIs(reader.contents, |ps|, objs[|ps|])
    modifies reader, reader.stream, reader.caches
    ensures reader.Valid() && reader.caches.names == old(reader.caches.names)
    ensures Extends(old(reader.caches.mem), reader.caches.mem)
    ensures AreLoaded(reader.caches.mem, reader.caches.next, ps + [p], objs)
  {
    ghost var mem, next := reader.caches.mem, reader.caches.next;
    var r := reader.InitializeFromEntry(|ps|);
    LoadedGrow(mem, next, reader.caches.mem, reader.caches.next, ps, objs);
    p := r.value;
  }

  /** A stored file is loaded, and all its entries are initialised. */
  method LoadAll(f: Data, ghost objs: seq<Obj>, caches: Caches) returns (ps: seq<Ptr>)
    requires Stores(f, objs) && caches.Valid()
    modifies caches
    ensures caches.Valid() && Extends(old(caches.mem), caches.mem) && caches.names == old(caches.names)
    ensures |ps| == |objs| && AreLoaded(caches.mem, caches.next, ps, objs)
  {
    var r := LoadFile(f);
    var c := r.value;
    var reader := new Reader(c, caches);
    ps := [];
    while |ps| < |c.index|
      invariant fresh(reader) && fresh(reader.stream) && reader.Valid()
      invariant reader.caches == caches && reader.contents == c
      invariant Extends(old(caches.mem), caches.mem) && caches.names == old(caches.names)
      invariant AreLoaded(caches.mem, caches.next, ps, objs)
      decreases |c.index| - |ps|
    {
      ghost var mem := caches.mem;
      var p := InitializeNext(reader, ps, objs);
      ExtendsTwice(old(caches.mem), mem, caches.mem);
      ps := ps + [p];
    }
  }

  /** Objects are stored in a file and loaded into some context: entry i gives object i, as loaded. */
  method StoreAndLoad(objs: seq<Obj>, use64: bool, caches: Caches) returns (ps: seq<Ptr>)
    requires Storable(objs) && caches.Valid()
    modifies caches
    ensures caches.Valid() && Extends(old(caches.mem), caches.mem) && caches.names == old(caches.names)
    ensures |ps| == |objs| && AreLoaded(caches.mem, caches.next, ps, objs)
  {
    var f := StoreAll(objs, use64);
    ps := LoadAll(f, objs, caches);
  }
}
