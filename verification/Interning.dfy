/**
 The element and type caches (rsElement.cpp, rsType.cpp): creation looks for an equal
 object first, so that equal structure means the same object.
 */
module Interning {
  import opened Common
  import opened Streams
  import opened Elements
  import MipLevels

  type Ptr = nat

  datatype FieldRec = FieldRec(elem: Ptr, name: Data, count: u32)

  /** The parameters of a type, without array extents. */
  datatype TypeParams = TypeParams(dims: MipLevels.Dims, yuv: nat)

  datatype Rec = ElemRec(comp: Component, fields: seq<FieldRec>) | TypeRec(elem: Ptr, params: TypeParams)

  type Memory = map<Ptr, Rec>

  /** The objects that have been given a name. */
  type Names = map<Ptr, Data>

  /** A field of a request: a C string and the length that goes with it. */
  datatype FieldReq = FieldReq(elem: Ptr, name: Data, len: nat, count: u32)

  // -------------------------------------------------------------------- Requests

  /** What strlen makes of the copy of a name. */
  function Stored(name: Data, len: nat): Data {
    if len <= |name| then name[..len] else name
  }

  function RecOfField(f: FieldReq): FieldRec {
    FieldRec(f.elem, Stored(f.name, f.len), f.count)
  }

  function RecOfStruct(req: seq<FieldReq>): Rec {
    ElemRec(DEFAULT, seq(|req|, i requires 0 <= i < |req| => RecOfField(req[i])))
  }

  /** The field is the requested one, as createRef compares them. */
  predicate FieldMatches(r: FieldRec, f: FieldReq) {
    r.elem == f.elem && |r.name| == f.len && r.name == f.name && r.count == f.count
  }

  predicate LeafMatches(r: Rec, c: Component) {
    r.ElemRec? && r.fields == [] && r.comp == c
  }

  ghost predicate StructMatches(r: Rec, req: seq<FieldReq>) {
    r.ElemRec? && |r.fields| == |req| && forall i :: 0 <= i < |req| ==> FieldMatches(r.fields[i], req[i])
  }

  /** Requests that are what they will be stored as. */
  predicate GoodLeaf(c: Component) {
    Set(c) == c
  }

  predicate GoodStruct(req: seq<FieldReq>) {
    forall i :: 0 <= i < |req| ==> req[i].len == |req[i].name|
  }

  /** A structure request finds what an earlier one has made exactly when its lengths are those of its names. */
  lemma StructFindsItself(req: seq<FieldReq>)
    requires req != []
    ensures StructMatches(RecOfStruct(req), req) <==> GoodStruct(req)
  {
    forall i | 0 <= i < |req|
      ensures FieldMatches(RecOfField(req[i]), req[i]) <==> req[i].len == |req[i].name|
    {
      assert req[i].len == |req[i].name| ==> req[i].name[..req[i].len] == req[i].name;
    }
    assert forall i :: 0 <= i < |req| ==> RecOfStruct(req).fields[i] == RecOfField(req[i]);
  }

  /** Of a good request, the matching record is the one it would be stored as. */
  lemma StructMatchIsStored(r: Rec, req: seq<FieldReq>)
    requires GoodStruct(req) && req != [] && r.ElemRec? && (r.fields != [] ==> r.comp == DEFAULT)
    ensures StructMatches(r, req) <==> r == RecOfStruct(req)
  {
    StructFindsItself(req);
    if StructMatches(r, req) {
      forall i | 0 <= i < |req|
        ensures r.fields[i] == RecOfStruct(req).fields[i]
      {
        assert FieldMatches(r.fields[i], req[i]) && FieldMatches(RecOfStruct(req).fields[i], req[i]);
      }
    }
  }

  // ------------------------------------------------------------------- Invariants

  /** An object refers only to live elements that are older. */
  ghost predicate RecOk(mem: Memory, p: Ptr, r: Rec) {
    match r
    case ElemRec(comp, fields) =>
      && (if fields == [] then Set(comp) == comp else comp == DEFAULT)
      && forall i :: 0 <= i < |fields| ==> fields[i].elem < p && fields[i].elem in mem && mem[fields[i].elem].ElemRec?
    case TypeRec(elem, _) => elem < p && elem in mem && mem[elem].ElemRec?
  }

  ghost predicate HeapOk(mem: Memory, next: Ptr) {
    forall p :: p in mem ==> p < next && RecOk(mem, p, mem[p])
  }

  /** The cache lists the live objects of one kind, each once. */
  ghost predicate Lists(cache: seq<Ptr>, mem: Memory, elements: bool) {
    NoRepeats(cache) && forall p :: p in cache <==> p in mem && mem[p].ElemRec? == elements
  }

  /** No two live objects have the same record. */
  ghost predicate Unique(mem: Memory) {
    forall p, q :: p in mem && q in mem && mem[p] == mem[q] ==> p == q
  }

  // ----------------------------------------------------------- Structural equality

  /** The element that p stands for, with all its parts. */
  ghost function Deep(mem: Memory, next: Ptr, p: Ptr): Element
    requires HeapOk(mem, next) && p in mem && mem[p].ElemRec?
    decreases p
  {
    var r := mem[p];
    assert RecOk(mem, p, r);
    Element(None, r.comp, seq(|r.fields|, i requires 0 <= i < |r.fields| =>
      Field(r.fields[i].name, r.fields[i].count, Deep(mem, next, r.fields[i].elem))))
  }

  /** Pointer equality is structural equality. */
  lemma {:induction false} PointersAreStructure(mem: Memory, next: Ptr, p: Ptr, q: Ptr)
    requires HeapOk(mem, next) && Unique(mem) && p in mem && q in mem && mem[p].ElemRec? && mem[q].ElemRec?
    ensures Deep(mem, next, p) == Deep(mem, next, q) <==> p == q
    decreases p
  {
    var r, s := mem[p], mem[q];
    assert RecOk(mem, p, r) && RecOk(mem, q, s);
    if Deep(mem, next, p) == Deep(mem, next, q) {
      assert |r.fields| == |s.fields| && r.comp == s.comp;
      forall i | 0 <= i < |r.fields|
        ensures r.fields[i] == s.fields[i]
      {
        assert Deep(mem, next, p).fields[i] == Deep(mem, next, q).fields[i];
        PointersAreStructure(mem, next, r.fields[i].elem, s.fields[i].elem);
      }
      assert r.fields == s.fields;
    }
  }

  /** The same for types: equal parameters over structurally equal elements mean the same type. */
  lemma TypePointersAreStructure(mem: Memory, next: Ptr, p: Ptr, q: Ptr)
    requires HeapOk(mem, next) && Unique(mem) && p in mem && q in mem && mem[p].TypeRec? && mem[q].TypeRec?
    ensures RecOk(mem, p, mem[p]) && RecOk(mem, q, mem[q])
    ensures (mem[p].params == mem[q].params && Deep(mem, next, mem[p].elem) == Deep(mem, next, mem[q].elem)) <==> p == q
  {
    assert RecOk(mem, p, mem[p]) && RecOk(mem, q, mem[q]);
    PointersAreStructure(mem, next, mem[p].elem, mem[q].elem);
  }

  // -------------------------------------------------------------- Adding and removing

  lemma InsertOk(mem: Memory, next: Ptr, r: Rec)
    requires HeapOk(mem, next) && RecOk(mem, next, r)
    ensures HeapOk(mem[next := r], next + 1) && next !in mem
  {
    var mem' := mem[next := r];
    forall p | p in mem'
      ensures p < next + 1 && RecOk(mem', p, mem'[p])
    {
      assert p in mem ==> RecOk(mem, p, mem[p]);
    }
  }

  lemma InsertLists(cache: seq<Ptr>, mem: Memory, next: Ptr, r: Rec, elements: bool)
    requires Lists(cache, mem, elements) && next !in mem
    ensures Lists(if r.ElemRec? == elements then cache + [next] else cache, mem[next := r], elements)
  {
    assert forall i :: 0 <= i < |cache| ==> cache[i] in cache;
  }

  lemma InsertUnique(mem: Memory, next: Ptr, r: Rec)
    requires Unique(mem) && next !in mem
    ensures Unique(mem[next := r]) <==> forall p :: p in mem ==> mem[p] != r
  {
    var mem' := mem[next := r];
    if p :| p in mem && mem[p] == r {
      assert mem'[p] == mem'[next];
    }
  }

  /** A request with a wrong length matches nothing. */
  lemma BadStructMatchesNothing(r: Rec, req: seq<FieldReq>)
    requires !GoodStruct(req)
    ensures !StructMatches(r, req)
  {
    var i :| 0 <= i < |req| && req[i].len != |req[i].name|;
  }

  /** No live object refers to p. */
  ghost predicate Unreferenced(mem: Memory, p: Ptr) {
    forall q :: q in mem ==> !RefersTo(mem[q], p)
  }

  ghost predicate RefersTo(r: Rec, p: Ptr) {
    match r
    case ElemRec(_, fields) => exists i :: 0 <= i < |fields| && fields[i].elem == p
    case TypeRec(elem, _) => elem == p
  }

  lemma RemoveOk(mem: Memory, next: Ptr, p: Ptr)
    requires HeapOk(mem, next) && Unreferenced(mem, p)
    ensures HeapOk(mem - {p}, next)
  {
    forall q | q in mem - {p}
      ensures q < next && RecOk(mem - {p}, q, mem[q])
    {
      assert RecOk(mem, q, mem[q]) && !RefersTo(mem[q], p);
    }
  }

  // ----------------------------------------------------------------- The operations

  /** The caches of a context, in a run of one thread. */
  class Caches {
    var mem: Memory
    var names: Names
    var next: Ptr
    var elements: seq<Ptr>
    var types: seq<Ptr>

    ghost predicate Valid()
      reads this
    {
      HeapOk(mem, next) && Lists(elements, mem, true) && Lists(types, mem, false) && forall p :: p in names ==> p in mem
    }

    constructor ()
      ensures Valid() && mem == map[] && names == map[] && Unique(mem)
    {
      mem, names, next, elements, types := map[], map[], 0, [], [];
    }

    /** Context::assignName. */
    method AssignName(p: Ptr, name: Data)
      requires Valid() && p in mem && p !in names
      modifies this`names
      ensures Valid() && names == old(names)[p := name]
    {
      names := names[p := name];
    }

    /** The search loop of createRef for a component. */
    method FindLeaf(c: Component) returns (r: Option<Ptr>)
      requires Valid()
      ensures match r
        case Some(p) => p in mem && LeafMatches(mem[p], c)
        case None => forall p :: p in mem ==> !LeafMatches(mem[p], c)
    {
      var ct := 0;
      while ct < |elements|
        invariant 0 <= ct <= |elements|
        invariant forall i :: 0 <= i < ct ==> elements[i] in mem && !LeafMatches(mem[elements[i]], c)
      {
        assert elements[ct] in elements;
        if LeafMatches(mem[elements[ct]], c) {
          return Some(elements[ct]);
        }
        ct := ct + 1;
      }
      forall p | p in mem
        ensures !LeafMatches(mem[p], c)
      {
        assert mem[p].ElemRec? ==> p in elements;
      }
      return None;
    }

    /** The comparison loop of createRef for fields. */
    static method FieldsMatch(fields: seq<FieldRec>, req: seq<FieldReq>) returns (match_: bool)
      requires |fields| == |req|
      ensures match_ <==> forall i :: 0 <= i < |req| ==> FieldMatches(fields[i], req[i])
    {
      match_ := true;
      var i := 0;
      while i < |req|
        invariant 0 <= i <= |req| && forall j :: 0 <= j < i ==> FieldMatches(fields[j], req[j])
      {
        if !FieldMatches(fields[i], req[i]) {
          return false;
        }
        i := i + 1;
      }
    }

    /** The search loop of createRef for fields. */
    method FindStruct(req: seq<FieldReq>) returns (r: Option<Ptr>)
      requires Valid()
      ensures match r
        case Some(p) => p in mem && StructMatches(mem[p], req)
        case None => forall p :: p in mem ==> !StructMatches(mem[p], req)
    {
      var ct := 0;
      while ct < |elements|
        invariant 0 <= ct <= |elements|
        invariant forall i :: 0 <= i < ct ==> elements[i] in mem && !StructMatches(mem[elements[i]], req)
      {
        assert elements[ct] in elements;
        var ee := mem[elements[ct]];
        if |ee.fields| == |req| {
          var m := FieldsMatch(ee.fields, req);
          if m {
            return Some(elements[ct]);
          }
        }
        ct := ct + 1;
      }
      forall p | p in mem
        ensures !StructMatches(mem[p], req)
      {
        assert mem[p].ElemRec? ==> p in elements;
      }
      return None;
    }

    /** The search loop of getTypeRef. */
    method FindType(e: Ptr, params: TypeParams) returns (r: Option<Ptr>)
      requires Valid()
      ensures match r
        case Some(p) => p in mem && mem[p] == TypeRec(e, params)
        case None => forall p :: p in mem ==> mem[p] != TypeRec(e, params)
    {
      var ct := 0;
      while ct < |types|
        invariant 0 <= ct <= |types|
        invariant forall i :: 0 <= i < ct ==> types[i] in mem && mem[types[i]] != TypeRec(e, params)
      {
        assert types[ct] in types;
        var t := mem[types[ct]];
        if t.elem == e && t.params == params {
          return Some(types[ct]);
        }
        ct := ct + 1;
      }
      forall p | p in mem
        ensures mem[p] != TypeRec(e, params)
      {
        assert mem[p].TypeRec? ==> p in types;
      }
      return None;
    }

    /** A new object joins its cache. */
    method Insert(r: Rec) returns (p: Ptr)
      requires Valid() && RecOk(mem, next, r)
      modifies this
      ensures Valid() && p !in old(mem) && mem == old(mem)[p := r] && names == old(names)
      ensures old(Unique(mem)) ==> (Unique(mem) <==> forall q :: q in old(mem) ==> old(mem)[q] != r)
    {
      InsertOk(mem, next, r);
      if Unique(mem) {
        InsertUnique(mem, next, r);
      }
      InsertLists(elements, mem, next, r, true);
      InsertLists(types, mem, next, r, false);
      p := next;
      mem := mem[next := r];
      next := next + 1;
      if r.ElemRec? {
        elements := elements + [p];
      } else {
        types := types + [p];
      }
    }

    /** Element::createRef for a component. */
    method CreateLeaf(c: Component) returns (p: Ptr)
      requires Valid()
      modifies this
      ensures Valid() && p in mem && mem[p] == ElemRec(Set(c), []) && names == old(names)
      ensures if exists q :: q in old(mem) && LeafMatches(old(mem)[q], c) then mem == old(mem)
              else p !in old(mem) && mem == old(mem)[p := ElemRec(Set(c), [])]
      ensures old(Unique(mem)) ==>
        (Unique(mem) <==> GoodLeaf(c) || forall q :: q in old(mem) ==> old(mem)[q] != ElemRec(Set(c), []))
    {
      var r := FindLeaf(c);
      if r.Some? {
        assert RecOk(mem, r.value, mem[r.value]);
        return r.value;
      }
      assert GoodLeaf(c) ==> forall q :: q in mem ==> mem[q] != ElemRec(c, []) by {
        assert forall q :: q in mem && mem[q] == ElemRec(c, []) ==> LeafMatches(mem[q], c);
      }
      p := Insert(ElemRec(Set(c), []));
    }

    /** Element::createRef for fields. */
    method CreateStruct(req: seq<FieldReq>) returns (p: Ptr)
      requires Valid() && forall i :: 0 <= i < |req| ==> req[i].elem in mem && mem[req[i].elem].ElemRec?
      modifies this
      ensures Valid() && p in mem && names == old(names)
      ensures if exists q :: q in old(mem) && StructMatches(old(mem)[q], req)
              then mem == old(mem) && StructMatches(mem[p], req)
              else p !in old(mem) && mem == old(mem)[p := RecOfStruct(req)]
      ensures GoodStruct(req) && req != [] ==> mem[p] == RecOfStruct(req)
      ensures old(Unique(mem)) ==>
        (Unique(mem) <==> GoodStruct(req) || forall q :: q in old(mem) ==> old(mem)[q] != RecOfStruct(req))
    {
      var r := FindStruct(req);
      if r.Some? {
        assert RecOk(mem, r.value, mem[r.value]);
        if !GoodStruct(req) {
          BadStructMatchesNothing(mem[r.value], req);
        } else if req != [] {
          StructMatchIsStored(mem[r.value], req);
        }
        return r.value;
      }
      StructOk(mem, next, req);
      if GoodStruct(req) {
        NotStored(mem, req);
      }
      p := Insert(RecOfStruct(req));
    }

    /**
     The same component is requested twice: the second request finds the first one's element exactly
     if Set leaves it alone.
     */
    method CreateLeafTwice(c: Component) returns (p: Ptr, q: Ptr)
      requires Valid() && Unique(mem)
      modifies this
      ensures Valid() && p in mem && q in mem && mem[p] == mem[q] == ElemRec(Set(c), [])
      ensures p == q <==> GoodLeaf(c)
      ensures Unique(mem) <==> GoodLeaf(c)
    {
      p := CreateLeaf(c);
      q := CreateLeaf(c);
    }

    /**
     The same structure is requested twice: the second request finds the first one's element exactly
     if its lengths are right.
     */
    method CreateStructTwice(req: seq<FieldReq>) returns (p: Ptr, q: Ptr)
      requires Valid() && Unique(mem) && req != []
      requires forall i :: 0 <= i < |req| ==> req[i].elem in mem && mem[req[i].elem].ElemRec?
      modifies this
      ensures Valid() && p in mem && q in mem && mem[p] == mem[q] == RecOfStruct(req)
      ensures p == q <==> GoodStruct(req)
      ensures Unique(mem) <==> GoodStruct(req)
    {
      p := CreateStruct(req);
      q := CreateStruct(req);
    }

    /** Type::getTypeRef. */
    method GetType(e: Ptr, params: TypeParams) returns (p: Ptr)
      requires Valid() && e in mem && mem[e].ElemRec?
      modifies this
      ensures Valid() && p in mem && mem[p] == TypeRec(e, params) && names == old(names)
      ensures if exists q :: q in old(mem) && old(mem)[q] == TypeRec(e, params) then mem == old(mem)
              else p !in old(mem) && mem == old(mem)[p := TypeRec(e, params)]
      ensures old(Unique(mem)) ==> Unique(mem)
    {
      var r := FindType(e, params);
      if r.Some? {
        return r.value;
      }
      p := Insert(TypeRec(e, params));
    }

    /** The search loop of preDestroy. */
    static method Erase(cache: seq<Ptr>, p: Ptr) returns (cache': seq<Ptr>)
      requires NoRepeats(cache)
      ensures NoRepeats(cache') && forall q :: q in cache' <==> q in cache && q != p
    {
      var ct := 0;
      while ct < |cache|
        invariant 0 <= ct <= |cache| && forall i :: 0 <= i < ct ==> cache[i] != p
      {
        if cache[ct] == p {
          WithoutMembers(cache, ct);
          return Without(cache, ct);
        }
        ct := ct + 1;
      }
      return cache;
    }

    /** preDestroy and deletion of an object that nothing refers to. */
    method Destroy(p: Ptr)
      requires Valid() && p in mem && Unreferenced(mem, p)
      modifies this
      ensures Valid() && mem == old(mem) - {p} && names == old(names) - {p}
      ensures old(Unique(mem)) ==> Unique(mem)
    {
      RemoveOk(mem, next, p);
      if mem[p].ElemRec? {
        elements := Erase(elements, p);
      } else {
        types := Erase(types, p);
      }
      mem, names := mem - {p}, names - {p};
    }
  }

  lemma StructOk(mem: Memory, next: Ptr, req: seq<FieldReq>)
    requires HeapOk(mem, next) && forall i :: 0 <= i < |req| ==> req[i].elem in mem && mem[req[i].elem].ElemRec?
    ensures RecOk(mem, next, RecOfStruct(req))
  {
    assert forall i :: 0 <= i < |req| ==> RecOfStruct(req).fields[i] == RecOfField(req[i]);
  }

  /** A miss of a good request means that its record is new. */
  lemma NotStored(mem: Memory, req: seq<FieldReq>)
    requires GoodStruct(req) && forall p :: p in mem ==> !StructMatches(mem[p], req)
    ensures forall p :: p in mem ==> mem[p] != RecOfStruct(req)
  {
    if req != [] {
      StructFindsItself(req);
    }
  }

  /**
   Two requests for the packed type 565 with vector size 1, in an empty context, give two elements
   with one record.
   */
  method Packed565Twice() returns (caches: Caches, p: Ptr, q: Ptr)
    ensures caches.Valid() && p in caches.mem && q in caches.mem
    ensures p != q && caches.mem[p] == caches.mem[q] && !Unique(caches.mem)
  {
    caches := new Caches();
    p, q := caches.CreateLeafTwice(Component(TYPE_565, 10, true, 1));
  }
}
