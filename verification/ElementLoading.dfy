/**
 Elements read from a stream (rsElement.cpp): createFromStream asks the caches for what it
 reads, and so may give an element that was there before, with the name it has.
 */
module ElementLoading {
  import opened Common
  import opened Streams
  import opened Elements
  import opened Interning

  // --------------------------------------------------------------- Growing memories

  /** Everything is still there, and as it was. */
  ghost predicate Grows(mem: Memory, mem': Memory) {
    forall p :: p in mem ==> p in mem' && mem'[p] == mem[p]
  }

  /** A key for facts about two memories. */
  predicate Between(mem: Memory, mem': Memory, k: int) {
    true
  }

  /** The memory has grown, and kept records unique if they were. */
  ghost predicate Extends(mem: Memory, mem': Memory) {
    forall k :: Between(mem, mem', k) ==> Grows(mem, mem') && (Unique(mem) ==> Unique(mem'))
  }

  lemma ExtendsMeans(mem: Memory, mem': Memory)
    requires Extends(mem, mem')
    ensures Grows(mem, mem') && (Unique(mem) ==> Unique(mem'))
  {
    assert Between(mem, mem', 0);
  }

  lemma ExtendsTwice(mem: Memory, mem': Memory, mem'': Memory)
    requires Extends(mem, mem') && Extends(mem', mem'')
    ensures Extends(mem, mem'')
  {
    ExtendsMeans(mem, mem');
    ExtendsMeans(mem', mem'');
  }

  lemma {:induction false} DeepGrows(mem: Memory, next: Ptr, mem': Memory, next': Ptr, p: Ptr)
    requires HeapOk(mem, next) && HeapOk(mem', next') && Grows(mem, mem') && p in mem && mem[p].ElemRec?
    ensures Deep(mem', next', p) == Deep(mem, next, p)
    decreases p
  {
    var r := mem[p];
    assert RecOk(mem, p, r);
    forall i | 0 <= i < |r.fields|
      ensures Deep(mem', next', p).fields[i] == Deep(mem, next, p).fields[i]
    {
      DeepGrows(mem, next, mem', next', r.fields[i].elem);
    }
  }

  /** The object at p is element e. */
  ghost predicate Stands(mem: Memory, next: Ptr, p: Ptr, e: Element) {
    p in mem && mem[p].ElemRec? && forall k :: KeyAt(p, k) ==> HeapOk(mem, next) && Deep(mem, next, p) == e
  }

  lemma StandsGrows(mem: Memory, next: Ptr, mem': Memory, next': Ptr, p: Ptr, e: Element)
    requires Stands(mem, next, p, e) && HeapOk(mem', next') && Extends(mem, mem')
    ensures Stands(mem', next', p, e)
  {
    assert KeyAt(p, 0);
    ExtendsMeans(mem, mem');
    DeepGrows(mem, next, mem', next', p);
  }

  lemma LeafStands(mem: Memory, next: Ptr, p: Ptr, c: Component)
    requires HeapOk(mem, next) && p in mem && mem[p] == ElemRec(c, [])
    ensures Stands(mem, next, p, Element(None, c, []))
  {
    assert Deep(mem, next, p).fields == [];
  }

  /** The request is for field f, whose element is made. */
  ghost predicate IsRequest(mem: Memory, next: Ptr, req: FieldReq, f: Field) {
    Stands(mem, next, req.elem, f.elem) && req.name == f.name && req.len == |f.name| && req.count == f.count
  }

  ghost predicate AreRequests(mem: Memory, next: Ptr, reqs: seq<FieldReq>, fields: seq<Field>) {
    |reqs| == |fields| && forall i :: 0 <= i < |reqs| ==> IsRequest(mem, next, reqs[i], fields[i])
  }

  lemma RequestsGrow(mem: Memory, next: Ptr, mem': Memory, next': Ptr, reqs: seq<FieldReq>, fields: seq<Field>)
    requires AreRequests(mem, next, reqs, fields) && HeapOk(mem', next') && Extends(mem, mem')
    ensures AreRequests(mem', next', reqs, fields)
  {
    forall i | 0 <= i < |reqs|
      ensures IsRequest(mem', next', reqs[i], fields[i])
    {
      StandsGrows(mem, next, mem', next', reqs[i].elem, fields[i].elem);
    }
  }

  lemma StructStands(mem: Memory, next: Ptr, p: Ptr, reqs: seq<FieldReq>, fields: seq<Field>)
    requires HeapOk(mem, next) && p in mem && mem[p] == RecOfStruct(reqs) && AreRequests(mem, next, reqs, fields)
    ensures Stands(mem, next, p, Element(None, DEFAULT, fields))
  {
    forall i | 0 <= i < |reqs|
      ensures Deep(mem, next, p).fields[i] == fields[i]
    {
      assert IsRequest(mem, next, reqs[i], fields[i]);
      assert KeyAt(reqs[i].elem, 0);
      assert mem[p].fields[i] == RecOfField(reqs[i]) && reqs[i].name[..reqs[i].len] == reqs[i].name;
    }
    assert Deep(mem, next, p).fields == fields;
  }

  // -------------------------------------------------------------------- The operations

  /** Element::createFromStream. */
  method CreateFromStream(caches: Caches, stream: IStream) returns (r: Option<Ptr>)
    requires caches.Valid() && ParseElement(stream.data, stream.pos) != Broken
    modifies caches, stream
    ensures caches.Valid() && Extends(old(caches.mem), caches.mem) && caches.names == old(caches.names)
    ensures match ParseElement(stream.data, old(stream.pos))
      case Got(e, end) => r.Some? && Stands(caches.mem, caches.next, r.value, e) && stream.pos == end
      case _ => r == None && caches.mem == old(caches.mem)
    decreases if stream.pos <= |stream.data| then |stream.data| + 1 - stream.pos else 0, 3
  {
    var h := LoadHead(stream);
    if h.None? {
      return None;
    }
    var c, n := h.value.0, h.value.1;
    if n == 0 {
      var p := CreateLoadedLeaf(caches, c);
      return Some(p);
    }
    ghost var all := ParseFields(stream.data, stream.pos, n);
    assert all.value == [] + all.value;
    var reqs := LoadFields(caches, stream, n, all.value, all.next);
    ghost var mem := caches.mem;
    var p := CreateLoaded(caches, reqs, all.value);
    ExtendsTwice(old(caches.mem), mem, caches.mem);
    return Some(p);
  }

  /** The request for a component that has been set. */
  method CreateLoadedLeaf(caches: Caches, c: Component) returns (p: Ptr)
    requires caches.Valid() && GoodLeaf(c)
    modifies caches
    ensures caches.Valid() && Extends(old(caches.mem), caches.mem) && caches.names == old(caches.names)
    ensures Stands(caches.mem, caches.next, p, Element(None, c, []))
  {
    p := caches.CreateLeaf(c);
    LeafStands(caches.mem, caches.next, p, c);
  }

  /** The request for a structure whose parts are made. */
  method CreateLoaded(caches: Caches, reqs: seq<FieldReq>, ghost fields: seq<Field>) returns (p: Ptr)
    requires caches.Valid() && reqs != [] && AreRequests(caches.mem, caches.next, reqs, fields)
    modifies caches
    ensures caches.Valid() && Extends(old(caches.mem), caches.mem) && caches.names == old(caches.names)
    ensures Stands(caches.mem, caches.next, p, Element(None, DEFAULT, fields))
  {
    ghost var mem, next := caches.mem, caches.next;
    assert forall i :: 0 <= i < |reqs| ==> IsRequest(mem, next, reqs[i], fields[i]);
    p := caches.CreateStruct(reqs);
    RequestsGrow(mem, next, caches.mem, caches.next, reqs, fields);
    StructStands(caches.mem, caches.next, p, reqs, fields);
  }

  /** A field: its name, its count and its element. */
  method LoadNamed(caches: Caches, stream: IStream, ghost f: Field, ghost p: nat, ghost q: nat) returns (req: FieldReq)
    requires caches.Valid() && FieldAt(stream.data, stream.pos, f, p, q) && stream.pos <= |stream.data|
    modifies caches, stream
    ensures caches.Valid() && Extends(old(caches.mem), caches.mem) && caches.names == old(caches.names)
    ensures IsRequest(caches.mem, caches.next, req, f) && stream.pos == q
    decreases |stream.data| + 1 - stream.pos, 0
  {
    assert KeyAt(stream.pos, 0);
    var name, count := LoadField(stream);
    var e := CreateFromStream(caches, stream);
    req := FieldReq(e.value, name, |name|, count);
  }

  /** One round of the loop over fields, of which `left` are left. */
  method LoadNext(caches: Caches, stream: IStream, ghost left: nat, reqs: seq<FieldReq>, ghost fields: seq<Field>,
                  ghost fs: seq<Field>, ghost end: nat)
    returns (reqs': seq<FieldReq>, ghost fields': seq<Field>)
    requires caches.Valid() && AreRequests(caches.mem, caches.next, reqs, fields)
    requires stream.pos <= |stream.data| && left > 0 && Rest(stream.data, stream.pos, left, fields, fs, end)
    modifies caches, stream
    ensures caches.Valid() && Extends(old(caches.mem), caches.mem) && caches.names == old(caches.names)
    ensures old(stream.pos) < stream.pos <= |stream.data| && AreRequests(caches.mem, caches.next, reqs', fields')
    ensures Rest(stream.data, stream.pos, left - 1, fields', fs, end) && |reqs'| == |reqs| + 1
    decreases |stream.data| + 1 - stream.pos, 1
  {
    ghost var mem, next := caches.mem, caches.next;
    ghost var f, p, q := RestNext(stream.data, stream.pos, left, fields, fs, end);
    var req := LoadNamed(caches, stream, f, p, q);
    RequestsGrow(mem, next, caches.mem, caches.next, reqs, fields);
    reqs', fields' := reqs + [req], fields + [f];
  }

  /** The loop over fields. */
  method LoadFields(caches: Caches, stream: IStream, n: nat, ghost fs: seq<Field>, ghost end: nat)
    returns (reqs: seq<FieldReq>)
    requires caches.Valid() && stream.pos <= |stream.data| && Rest(stream.data, stream.pos, n, [], fs, end)
    modifies caches, stream
    ensures caches.Valid() && Extends(old(caches.mem), caches.mem) && caches.names == old(caches.names)
    ensures AreRequests(caches.mem, caches.next, reqs, fs) && |reqs| == n && stream.pos == end
    decreases |stream.data| + 1 - stream.pos, 2
  {
    reqs := [];
    ghost var left, at, fields := n, stream.pos, [];
    var ct := 0;
    while ct < n
      invariant 0 <= ct <= n && left == n - ct && old(stream.pos) <= stream.pos == at <= |stream.data|
      invariant caches.Valid() && Extends(old(caches.mem), caches.mem) && caches.names == old(caches.names)
      invariant AreRequests(caches.mem, caches.next, reqs, fields) && |reqs| == ct
      invariant Rest(stream.data, at, left, fields, fs, end)
    {
      ghost var mem := caches.mem;
      reqs, fields := LoadNext(caches, stream, left, reqs, fields, fs, end);
      ExtendsTwice(old(caches.mem), mem, caches.mem);
      ct, left, at := ct + 1, left - 1, stream.pos;
    }
    RestDone(stream.data, at, fields, fs, end);
  }

  // --------------------------------------------------------------------------- Names

  /** The element at p with the names that it and its parts have. */
  ghost function Tree(mem: Memory, names: Names, next: Ptr, p: Ptr): Element
    requires HeapOk(mem, next) && p in mem && mem[p].ElemRec?
    decreases p
  {
    var r := mem[p];
    assert RecOk(mem, p, r);
    Element(if p in names then Some(names[p]) else None, r.comp, seq(|r.fields|, i requires 0 <= i < |r.fields| =>
      Field(r.fields[i].name, r.fields[i].count, Tree(mem, names, next, r.fields[i].elem))))
  }

  lemma {:induction false} StripTree(mem: Memory, names: Names, next: Ptr, p: Ptr)
    requires HeapOk(mem, next) && p in mem && mem[p].ElemRec?
    ensures Strip(Tree(mem, names, next, p)) == Deep(mem, next, p)
    decreases p
  {
    var r := mem[p];
    assert RecOk(mem, p, r);
    forall i | 0 <= i < |r.fields|
      ensures StripField(Tree(mem, names, next, p).fields[i]) == Deep(mem, next, p).fields[i]
    {
      StripTree(mem, names, next, r.fields[i].elem);
    }
    assert Strip(Tree(mem, names, next, p)).fields == Deep(mem, next, p).fields;
  }

  lemma {:induction false} TreeGrows(mem: Memory, next: Ptr, mem': Memory, next': Ptr, names: Names, p: Ptr)
    requires HeapOk(mem, next) && HeapOk(mem', next') && Grows(mem, mem') && p in mem && mem[p].ElemRec?
    ensures Tree(mem', names, next', p) == Tree(mem, names, next, p)
    decreases p
  {
    var r := mem[p];
    assert RecOk(mem, p, r);
    forall i | 0 <= i < |r.fields|
      ensures Tree(mem', names, next', p).fields[i] == Tree(mem, names, next, p).fields[i]
    {
      TreeGrows(mem, next, mem', next', names, r.fields[i].elem);
    }
  }

  /** A named element e, with named parts, is in the memory. */
  ghost predicate HasNamed(mem: Memory, names: Names, next: Ptr, e: Element)
    requires HeapOk(mem, next)
  {
    exists q :: IsNamed(mem, names, next, q, e)
  }

  ghost predicate IsNamed(mem: Memory, names: Names, next: Ptr, q: Ptr, e: Element)
    requires HeapOk(mem, next)
  {
    q in mem && mem[q].ElemRec? && Deep(mem, next, q) == e && AllNamed(Tree(mem, names, next, q))
  }

  /** The object at p can be written. */
  ghost predicate Writable(mem: Memory, names: Names, next: Ptr, p: Ptr)
    requires HeapOk(mem, next) && p in mem && mem[p].ElemRec?
  {
    Serialized(Tree(mem, names, next, p)).Some?
  }

  /** What was loaded can be written exactly when it was there before, and had a name as all its parts had. */
  lemma LoadedWritableIff(mem: Memory, names: Names, next: Ptr, mem': Memory, next': Ptr, p: Ptr, e: Element)
    requires HeapOk(mem, next) && HeapOk(mem', next') && Grows(mem, mem') && forall q :: q in names ==> q in mem
    requires Unique(mem') && p in mem' && mem'[p].ElemRec? && Deep(mem', next', p) == e
    ensures Writable(mem', names, next', p) <==> HasNamed(mem, names, next, e)
  {
    SerializesIffNamed(Tree(mem', names, next', p));
    if AllNamed(Tree(mem', names, next', p)) {
      assert p in names;
      DeepGrows(mem, next, mem', next', p);
      TreeGrows(mem, next, mem', next', names, p);
      assert IsNamed(mem, names, next, p, e);
    }
    if q :| IsNamed(mem, names, next, q, e) {
      DeepGrows(mem, next, mem', next', q);
      TreeGrows(mem, next, mem', next', names, q);
      PointersAreStructure(mem', next', p, q);
    }
  }

  /** An element is loaded, and the answer tells whether it could be written again. */
  method LoadWritable(caches: Caches, stream: IStream, ghost e: Element, ghost end: nat) returns (p: Ptr)
    requires caches.Valid() && Unique(caches.mem) && ParseElement(stream.data, stream.pos) == Got(e, end)
    modifies caches, stream
    ensures caches.Valid() && Unique(caches.mem) && Grows(old(caches.mem), caches.mem)
    ensures p in caches.mem && caches.mem[p].ElemRec? && Deep(caches.mem, caches.next, p) == e
    ensures Writable(caches.mem, caches.names, caches.next, p)
      <==> old(HasNamed(caches.mem, caches.names, caches.next, e))
  {
    ghost var mem, names, next := caches.mem, caches.names, caches.next;
    var r := CreateFromStream(caches, stream);
    p := r.value;
    assert KeyAt(p, 0);
    ExtendsMeans(mem, caches.mem);
    LoadedWritableIff(mem, names, next, caches.mem, caches.next, p, e);
  }

  /** In a new context, nothing that is loaded can be written. */
  method LoadIntoEmpty(d: Data, ghost e: Element, ghost end: nat) returns (caches: Caches, p: Ptr)
    requires ParseElement(d, 0) == Got(e, end)
    ensures fresh(caches) && caches.Valid() && p in caches.mem && caches.mem[p].ElemRec?
    ensures Deep(caches.mem, caches.next, p) == e && !Writable(caches.mem, caches.names, caches.next, p)
  {
    caches := new Caches();
    var stream := new IStream(d);
    p := LoadWritable(caches, stream, e, end);
  }

  /** In a context that has an equal element with a name, the loaded leaf can be written. */
  method LoadIntoNamed(d: Data, c: Component, name: Data, ghost end: nat) returns (caches: Caches, p: Ptr)
    requires GoodLeaf(c) && ParseElement(d, 0) == Got(Element(None, c, []), end)
    ensures fresh(caches) && caches.Valid() && p in caches.mem && caches.mem[p].ElemRec?
    ensures Writable(caches.mem, caches.names, caches.next, p)
  {
    caches := new Caches();
    var q := caches.CreateLeaf(c);
    caches.AssignName(q, name);
    LeafStands(caches.mem, caches.next, q, c);
    assert KeyAt(q, 0);
    assert IsNamed(caches.mem, caches.names, caches.next, q, Element(None, c, []));
    var stream := new IStream(d);
    p := LoadWritable(caches, stream, Element(None, c, []), end);
  }

  /**
   An element that is written and read in one context comes back as the same object, name and all,
   exactly when no leaf holds an object; it can then be written again.
   */
  method Reload(caches: Caches, p: Ptr, d: Data, ghost end: nat) returns (q: Ptr)
    requires caches.Valid() && Unique(caches.mem) && p in caches.mem && caches.mem[p].ElemRec?
    requires Created(Tree(caches.mem, caches.names, caches.next, p))
    requires AllNamed(Tree(caches.mem, caches.names, caches.next, p))
    requires Holds(d, 0, ElementTokens(Tree(caches.mem, caches.names, caches.next, p)), end)
    modifies caches
    ensures caches.Valid() && q in caches.mem && caches.mem[q].ElemRec?
    ensures q == p <==> old(PlainLeaves(Tree(caches.mem, caches.names, caches.next, p)))
    ensures q == p ==> Writable(caches.mem, caches.names, caches.next, q)
  {
    ghost var mem, names, next := caches.mem, caches.names, caches.next;
    ghost var e := Tree(mem, names, next, p);
    ElementReads(d, 0, e, end);
    LoadedIsSame(e);
    StripTree(mem, names, next, p);
    var stream := new IStream(d);
    q := LoadWritable(caches, stream, Loaded(e), end);
    SameObject(mem, next, caches.mem, caches.next, p, q);
    assert q == p ==> IsNamed(mem, names, next, p, Loaded(e));
  }

  lemma SameObject(mem: Memory, next: Ptr, mem': Memory, next': Ptr, p: Ptr, q: Ptr)
    requires HeapOk(mem, next) && HeapOk(mem', next') && Grows(mem, mem') && Unique(mem')
    requires p in mem && mem[p].ElemRec? && q in mem' && mem'[q].ElemRec?
    ensures q == p <==> Deep(mem', next', q) == Deep(mem, next, p)
  {
    DeepGrows(mem, next, mem', next', p);
    PointersAreStructure(mem', next', p, q);
  }
}
