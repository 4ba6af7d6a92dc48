/**
 Elements and their serial form (rsComponent.cpp, rsElement.cpp): a component, or a
 structure of named, repeated elements.
 */
module Elements {
  import opened Common
  import opened Streams

  const CLASS_ELEMENT: u32 := 3

  const TYPE_NONE: nat := 0
  const TYPE_565: nat := 13
  const TYPE_5551: nat := 14
  const TYPE_4444: nat := 15
  const KIND_USER: nat := 0

  /** Type and kind are the enumeration values; object types start at 1000. */
  datatype Component = Component(dtype: nat, kind: nat, normalized: bool, vector: u32)

  /** The fields that Component::set derives from what it is given. */
  function Set(c: Component): Component {
    if c.dtype == TYPE_565 then c.(vector := 3, normalized := true)
    else if c.dtype == TYPE_5551 || c.dtype == TYPE_4444 then c.(vector := 4, normalized := true)
    else c
  }

  const DEFAULT: Component := Component(TYPE_NONE, KIND_USER, false, 1)

  datatype Field = Field(name: Data, count: u32, elem: Element)

  /** An element without fields is what its component says. Objects have no name until they are given one. */
  datatype Element = Element(name: Option<Data>, comp: Component, fields: seq<Field>)

  ghost predicate NoNul(s: Data) {
    forall i :: 0 <= i < |s| ==> s[i] != 0
  }

  /** The characters of an object name, if there is one. */
  function Chars(name: Option<Data>): Data {
    if name.Some? then name.value else []
  }

  /** The element and all its parts have been given names. */
  predicate AllNamed(e: Element)
    decreases e
  {
    e.name.Some? && forall i :: 0 <= i < |e.fields| ==> AllNamed(e.fields[i].elem)
  }

  /** What Element::create makes: names, where given, are C strings, and components have been set. */
  ghost predicate Created(e: Element)
    decreases e
  {
    && NoNul(Chars(e.name)) && |Chars(e.name)| < TWO_32 && |e.fields| < TWO_32
    && e.comp.kind < 256
    && (if e.fields == [] then e.comp == Set(e.comp) else e.comp == DEFAULT)
    && forall i :: 0 <= i < |e.fields| ==>
         NoNul(e.fields[i].name) && |e.fields[i].name| < TWO_32 && Created(e.fields[i].elem)
  }

  /** The longest name in an element has at most n characters. */
  ghost predicate NamesFit(e: Element, n: nat)
    decreases e
  {
    |Chars(e.name)| <= n && forall i :: 0 <= i < |e.fields| ==> |e.fields[i].name| <= n && NamesFit(e.fields[i].elem, n)
  }

  // ---------------------------------------------------------------------- Tokens

  function ComponentTokens(c: Component): seq<Token> {
    [U8(c.dtype % 256), U8(c.kind % 256), U8(if c.normalized then 1 else 0), U32(c.vector)]
  }

  function HeadTokens(e: Element): seq<Token> {
    [U32(CLASS_ELEMENT), Str(Chars(e.name))] + ComponentTokens(e.comp) + [U32(|e.fields| % TWO_32)]
  }

  function ElementTokens(e: Element): seq<Token>
    decreases e, |e.fields| + 1
  {
    HeadTokens(e) + FieldsFrom(e, 0)
  }

  /** Fields i, i + 1, and so on. */
  function FieldsFrom(e: Element, i: nat): seq<Token>
    requires i <= |e.fields|
    decreases e, |e.fields| - i
  {
    if i == |e.fields| then []
    else FieldTokens(e, i) + FieldsFrom(e, i + 1)
  }

  function FieldTokens(e: Element, i: nat): seq<Token>
    requires i < |e.fields|
    decreases e, 0
  {
    var f := e.fields[i];
    [Str(f.name), U32(f.count)] + ElementTokens(f.elem)
  }

  /** What serialize writes, or nothing if it comes to an object without a name, whose length it cannot take. */
  ghost function Serialized(e: Element): Option<seq<Token>>
    decreases e, |e.fields| + 1
  {
    if e.name.None? then None
    else (match SerializedFields(e, 0) case Some(ts) => Some(HeadTokens(e) + ts) case None => None)
  }

  ghost function SerializedFields(e: Element, i: nat): Option<seq<Token>>
    requires i <= |e.fields|
    decreases e, |e.fields| - i
  {
    if i == |e.fields| then Some([])
    else
      var f := e.fields[i];
      match Serialized(f.elem)
      case None => None
      case Some(ts) =>
        (match SerializedFields(e, i + 1)
          case Some(us) => Some([Str(f.name), U32(f.count)] + ts + us)
          case None => None)
  }

  /** An element can be written exactly when it and all its parts have names. */
  lemma {:induction false} SerializesIffNamed(e: Element)
    ensures Serialized(e) == if AllNamed(e) then Some(ElementTokens(e)) else None
    decreases e, |e.fields| + 1
  {
    SerializedFieldsIffNamed(e, 0);
  }

  lemma {:induction false} SerializedFieldsIffNamed(e: Element, i: nat)
    requires i <= |e.fields|
    ensures SerializedFields(e, i)
            == if forall j :: i <= j < |e.fields| ==> AllNamed(e.fields[j].elem) then Some(FieldsFrom(e, i)) else None
    decreases e, |e.fields| - i
  {
    if i < |e.fields| {
      SerializesIffNamed(e.fields[i].elem);
      SerializedFieldsIffNamed(e, i + 1);
    }
  }

  /** A new element has no name, and so cannot be written. */
  lemma NewElementCannotBeWritten(c: Component)
    ensures Serialized(Element(None, c, [])) == None
  {
  }

  // --------------------------------------------------------------------- Parsing

  /** strlen of a copied string. */
  function CString(s: Data): Data {
    if s == [] || s[0] == 0 then [] else [s[0]] + CString(s[1..])
  }

  lemma {:induction false} CStringWhole(s: Data)
    requires NoNul(s)
    ensures CString(s) == s
  {
    if s != [] {
      CStringWhole(s[1..]);
    }
  }

  /** Component::loadFromStream. */
  function ParseComponent(d: Data, at: nat): Parsed<Component> {
    match ReadU8(d, at) {
      case Got(t, p1) =>
        (match ReadU8(d, p1) {
          case Got(k, p2) =>
            (match ReadU8(d, p2) {
              case Got(n, p3) =>
                (match ReadU32(d, p3) {
                  case Got(v, p4) => Got(Set(Component(t, k, n != 0, v)), p4)
                  case _ => Broken
                })
              case _ => Broken
            })
          case _ => Broken
        })
      case _ => Broken
    }
  }

  lemma ComponentParsed(d: Data, at: nat, t: byte, k: byte, n: byte, v: u32, end: nat)
    requires Holds(d, at, [U8(t), U8(k), U8(n), U32(v)], end)
    ensures ParseComponent(d, at) == Got(Set(Component(t, k, n != 0, v)), end)
  {
    assert [U8(t), U8(k), U8(n), U32(v)] == [U8(t)] + ([U8(k)] + ([U8(n)] + ([U32(v)] + [])));
    HoldsFirst(d, at, U8(t), [U8(k)] + ([U8(n)] + ([U32(v)] + [])), end);
    HoldsFirst(d, at + 1, U8(k), [U8(n)] + ([U32(v)] + []), end);
    HoldsFirst(d, at + 2, U8(n), [U32(v)] + [], end);
    HoldsFirst(d, at + 3, U32(v), [], end);
    HoldsNone(d, TokenEnd(at + 3, U32(v)), end);
    ReadsU8(d, at, t);
    ReadsU8(d, at + 1, k);
    ReadsU8(d, at + 2, n);
    ReadsU32(d, at + 3, v);
  }

  lemma ComponentRoundTrip(d: Data, at: nat, c: Component, end: nat)
    requires Holds(d, at, ComponentTokens(c), end) && c.kind < 256
    ensures ParseComponent(d, at) == Got(LoadedComponent(c), end)
  {
    ComponentParsed(d, at, c.dtype % 256, c.kind % 256, if c.normalized then 1 else 0, c.vector, end);
  }

  /** The class id, the name, the component and the number of fields. */
  function ParseHead(d: Data, at: nat): (r: Parsed<(Component, nat)>)
    ensures r.Got? ==> at < r.next <= |d|
  {
    match ReadU32(d, at) {
      case Got(id, p1) =>
        if id != CLASS_ELEMENT then Null
        else (match ReadString(d, p1) {
          case Got(_, p2) =>
            (match ParseComponent(d, p2) {
              case Got(c, p3) =>
                (match ReadU32(d, p3) {
                  case Got(n, p4) => Got((c, n), p4)
                  case _ => Broken
                })
              case _ => Broken
            })
          case _ => Broken
        })
      case _ => Broken
    }
  }

  /** The name and the array size of a field. */
  function ParseField(d: Data, at: nat): (r: Parsed<(Data, u32)>)
    ensures r.Got? ==> at < r.next <= |d|
  {
    match ReadString(d, at) {
      case Got(s, p1) =>
        (match ReadU32(d, p1) {
          case Got(n, p2) => Got((CString(s), n), p2)
          case _ => Broken
        })
      case _ => Broken
    }
  }

  /** What Element::createFromStream reads. A missing element inside another one is Broken. */
  function ParseElement(d: Data, at: nat): (r: Parsed<Element>)
    ensures r.Got? ==> at < r.next <= |d|
    decreases if at <= |d| then |d| - at else 0, 0, 0
  {
    match ParseHead(d, at)
    case Got(h, p) =>
      if h.1 == 0 then Got(Element(None, h.0, []), p)
      else (match ParseFields(d, p, h.1) case Got(fs, q) => Got(Element(None, DEFAULT, fs), q) case _ => Broken)
    case Null => Null
    case Broken => Broken
  }

  function ParseFields(d: Data, at: nat, n: nat): (r: Parsed<seq<Field>>)
    requires at <= |d|
    ensures r.Got? ==> at <= r.next <= |d|
    decreases |d| - at, 1, n
  {
    if n == 0 then Got([], at)
    else (match ParseField(d, at)
      case Got(f, p) =>
        (match ParseElement(d, p)
          case Got(e, q) =>
            (match ParseFields(d, q, n - 1)
              case Got(fs, end) => Got([Field(f.0, f.1, e)] + fs, end)
              case _ => Broken)
          case _ => Broken)
      case _ => Broken)
  }

  // ------------------------------------------------------------------ Round trip

  /** The type is written in eight bits. */
  function LoadedComponent(c: Component): Component {
    Set(c.(dtype := c.dtype % 256))
  }

  /** What comes back: object names are dropped, and types lose all but eight bits. */
  function Loaded(e: Element): Element
    decreases e
  {
    if e.fields == [] then Element(None, LoadedComponent(e.comp), [])
    else Element(None, DEFAULT, seq(|e.fields|, i requires 0 <= i < |e.fields| => LoadedField(e.fields[i])))
  }

  function LoadedField(f: Field): Field
    decreases f
  {
    Field(f.name, f.count, Loaded(f.elem))
  }

  lemma HeadParsed(d: Data, at: nat, p1: nat, s: Data, p2: nat, c: Component, p3: nat, n: nat, p4: nat)
    requires ReadU32(d, at) == Got(CLASS_ELEMENT, p1) && ReadString(d, p1) == Got(s, p2)
    requires ParseComponent(d, p2) == Got(c, p3) && ReadU32(d, p3) == Got(n, p4)
    ensures ParseHead(d, at) == Got((c, n), p4)
  {
  }

  lemma HeadRoundTrip(d: Data, at: nat, e: Element, end: nat)
    requires Holds(d, at, HeadTokens(e), end) && Created(e)
    ensures ParseHead(d, at) == Got((LoadedComponent(e.comp), |e.fields|), end)
  {
    var id, name, cts, n := U32(CLASS_ELEMENT), Str(Chars(e.name)), ComponentTokens(e.comp), U32(|e.fields|);
    assert HeadTokens(e) == [id] + ([name] + (cts + ([n] + [])));
    HoldsFirst(d, at, id, [name] + (cts + ([n] + [])), end);
    var p1 := TokenEnd(at, id);
    HoldsFirst(d, p1, name, cts + ([n] + []), end);
    var p2 := TokenEnd(p1, name);
    var p3 := HoldsSplit(d, p2, cts, [n] + [], end);
    HoldsFirst(d, p3, n, [], end);
    HoldsNone(d, TokenEnd(p3, n), end);
    ReadsU32(d, at, CLASS_ELEMENT);
    ReadsString(d, p1, Chars(e.name));
    ComponentRoundTrip(d, p2, e.comp, p3);
    ReadsU32(d, p3, |e.fields|);
    HeadParsed(d, at, p1, Chars(e.name), p2, LoadedComponent(e.comp), p3, |e.fields|, end);
  }

  ghost predicate FieldParsesTo(d: Data, at: nat, f: Field, end: nat) {
    forall k :: KeyAt(at, k) ==> ParseField(d, at) == Got((f.name, f.count), end)
  }

  lemma FieldRoundTrip(d: Data, at: nat, f: Field, rest: seq<Token>, end: nat) returns (p: nat)
    requires Holds(d, at, [Str(f.name), U32(f.count)] + rest, end) && NoNul(f.name) && |f.name| < TWO_32
    ensures FieldParsesTo(d, at, f, p) && Holds(d, p, rest, end) && at <= p <= |d|
  {
    assert [Str(f.name), U32(f.count)] + rest == [Str(f.name)] + ([U32(f.count)] + rest);
    HoldsFirst(d, at, Str(f.name), [U32(f.count)] + rest, end);
    var q := TokenEnd(at, Str(f.name));
    HoldsFirst(d, q, U32(f.count), rest, end);
    ReadsString(d, at, f.name);
    ReadsU32(d, q, f.count);
    CStringWhole(f.name);
    p := TokenEnd(q, U32(f.count));
  }

  /** The parser reads e, as loaded, from `at` to `end`. */
  ghost predicate ParsesTo(d: Data, at: nat, e: Element, end: nat) {
    forall k :: KeyAt(at, k) ==> ParseElement(d, at) == Got(Loaded(e), end)
  }

  ghost predicate FieldsParseTo(d: Data, at: nat, n: nat, fs: seq<Field>, end: nat) {
    forall k :: KeyAt(at, k) ==> at <= |d| && ParseFields(d, at, n) == Got(fs, end)
  }

  ghost predicate HeadParsesTo(d: Data, at: nat, e: Element, end: nat) {
    forall k :: KeyAt(at, k) ==> ParseHead(d, at) == Got((LoadedComponent(e.comp), |e.fields|), end)
  }

  lemma LeafParsed(d: Data, at: nat, e: Element, p: nat)
    requires HeadParsesTo(d, at, e, p) && e.fields == []
    ensures ParsesTo(d, at, e, p)
  {
    assert KeyAt(at, 0);
  }

  lemma StructParsed(d: Data, at: nat, e: Element, p: nat, fs: seq<Field>, q: nat)
    requires HeadParsesTo(d, at, e, p) && FieldsParseTo(d, p, |e.fields|, fs, q)
    requires e.fields != [] && LoadedFrom(fs, e, 0)
    ensures ParsesTo(d, at, e, q)
  {
    assert KeyAt(at, 0) && KeyAt(p, 0) && KeyAt(0, 0);
    assert fs == Loaded(e).fields;
  }

  lemma FieldsParsed(d: Data, at: nat, n: nat, f: Field, p: nat, q: nat, fs: seq<Field>, end: nat)
    requires at <= |d| && FieldParsesTo(d, at, f, p) && ParsesTo(d, p, f.elem, q) && FieldsParseTo(d, q, n, fs, end)
    ensures FieldsParseTo(d, at, n + 1, [LoadedField(f)] + fs, end)
  {
    assert KeyAt(at, 0) && KeyAt(p, 0) && KeyAt(q, 0);
    assert n + 1 - 1 == n;
  }

  /** The element, or its fields from number i on, stand in d from `at` to `end`. */
  ghost predicate HoldsElement(d: Data, at: nat, e: Element, end: nat) {
    forall k :: Key(k) ==> Holds(d, at, ElementTokens(e), end)
  }

  ghost predicate HoldsFields(d: Data, at: nat, e: Element, i: nat, end: nat) {
    forall k :: Key(k) ==> i <= |e.fields| && Holds(d, at, FieldsFrom(e, i), end)
  }

  lemma ElementStarts(d: Data, at: nat, e: Element, end: nat) returns (p: nat)
    requires Created(e) && HoldsElement(d, at, e, end)
    ensures HeadParsesTo(d, at, e, p)
    ensures HoldsFields(d, p, e, 0, end) && at <= p <= |d|
  {
    assert Key(0);
    p := HoldsSplit(d, at, HeadTokens(e), FieldsFrom(e, 0), end);
    HeadRoundTrip(d, at, e, p);
  }

  /** The tokens of field i: its name and count, its element, and the later fields. */
  lemma FieldStarts(d: Data, at: nat, e: Element, i: nat, end: nat) returns (p: nat, mid: nat)
    requires Created(e) && i < |e.fields| && HoldsFields(d, at, e, i, end)
    ensures FieldParsesTo(d, at, e.fields[i], p) && at <= p <= |d|
    ensures HoldsElement(d, p, e.fields[i].elem, mid) && HoldsFields(d, mid, e, i + 1, end)
  {
    assert Key(0);
    mid := HoldsSplit(d, at, FieldTokens(e, i), FieldsFrom(e, i + 1), end);
    p := FieldRoundTrip(d, at, e.fields[i], ElementTokens(e.fields[i].elem), mid);
  }

  lemma FieldsEnd(d: Data, at: nat, e: Element, end: nat)
    requires HoldsFields(d, at, e, |e.fields|, end)
    ensures end == at
  {
    assert Key(0);
    HoldsNone(d, at, end);
  }

  /** createFromStream reads back what serialize wrote, and stops where it stopped. */
  lemma {:induction false} ElementRoundTrip(d: Data, at: nat, e: Element, end: nat)
    requires Created(e) && HoldsElement(d, at, e, end)
    ensures ParsesTo(d, at, e, end) && at <= end <= |d|
    decreases e, |e.fields| + 1
  {
    var p := ElementStarts(d, at, e, end);
    if e.fields == [] {
      FieldsEnd(d, p, e, end);
      LeafParsed(d, at, e, p);
    } else {
      var fs := FieldsRoundTrip(d, p, e, 0, end);
      StructParsed(d, at, e, p, fs, end);
    }
  }

  /** fs are fields i, i + 1, and so on, as loaded. */
  ghost predicate LoadedFrom(fs: seq<Field>, e: Element, i: nat) {
    forall k :: KeyAt(i, k) ==>
      |fs| + i == |e.fields| && forall j :: 0 <= j < |fs| ==> fs[j] == LoadedField(e.fields[i + j])
  }

  lemma LoadedCons(fs: seq<Field>, e: Element, i: nat)
    requires i < |e.fields| && LoadedFrom(fs, e, i + 1)
    ensures LoadedFrom([LoadedField(e.fields[i])] + fs, e, i)
  {
    assert KeyAt(i + 1, 0);
  }

  lemma {:induction false} FieldsRoundTrip(d: Data, at: nat, e: Element, i: nat, end: nat) returns (fs: seq<Field>)
    requires Created(e) && i <= |e.fields| && at <= |d| && HoldsFields(d, at, e, i, end)
    ensures FieldsParseTo(d, at, |e.fields| - i, fs, end) && at <= end <= |d| && LoadedFrom(fs, e, i)
    decreases e, |e.fields| - i
  {
    if i == |e.fields| {
      FieldsEnd(d, at, e, end);
      fs := [];
    } else {
      var f := e.fields[i];
      var p, mid := FieldStarts(d, at, e, i, end);
      ElementRoundTrip(d, p, f.elem, mid);
      var rest := FieldsRoundTrip(d, mid, e, i + 1, end);
      fs := FieldsStep(d, at, e, i, p, mid, rest, end);
    }
  }

  lemma FieldsStep(d: Data, at: nat, e: Element, i: nat, p: nat, mid: nat, rest: seq<Field>, end: nat)
    returns (fs: seq<Field>)
    requires i < |e.fields| && at <= |d|
    requires FieldParsesTo(d, at, e.fields[i], p) && ParsesTo(d, p, e.fields[i].elem, mid)
    requires FieldsParseTo(d, mid, |e.fields| - (i + 1), rest, end) && LoadedFrom(rest, e, i + 1)
    ensures FieldsParseTo(d, at, |e.fields| - i, fs, end) && LoadedFrom(fs, e, i)
  {
    FieldsParsed(d, at, |e.fields| - (i + 1), e.fields[i], p, mid, rest, end);
    LoadedCons(rest, e, i);
    fs := [LoadedField(e.fields[i])] + rest;
  }

  /** Element::createFromStream after Element::serialize: the element as loaded, and the writer's final position. */
  lemma ElementReads(d: Data, at: nat, e: Element, end: nat)
    requires Created(e) && Holds(d, at, ElementTokens(e), end)
    ensures ParseElement(d, at) == Got(Loaded(e), end)
  {
    ElementRoundTrip(d, at, e, end);
    assert KeyAt(at, 0);
  }

  // ------------------------------------------------- When the element is the same

  /** The element without object names. */
  function Strip(e: Element): Element
    decreases e
  {
    Element(None, e.comp, seq(|e.fields|, i requires 0 <= i < |e.fields| => StripField(e.fields[i])))
  }

  function StripField(f: Field): Field
    decreases f
  {
    Field(f.name, f.count, Strip(f.elem))
  }

  /** No leaf holds an object. */
  predicate PlainLeaves(e: Element)
    decreases e
  {
    if e.fields == [] then e.comp.dtype < 256
    else forall i :: 0 <= i < |e.fields| ==> PlainLeaves(e.fields[i].elem)
  }

  lemma LeafKept(e: Element)
    requires Created(e) && e.fields == []
    ensures Loaded(e) == Strip(e) <==> PlainLeaves(e)
  {
    assert Strip(e) == Element(None, e.comp, []);
  }

  /** The structure comes back unchanged, up to object names, exactly when no leaf holds an object. */
  lemma {:induction false} LoadedIsSame(e: Element)
    requires Created(e)
    ensures Loaded(e) == Strip(e) <==> PlainLeaves(e)
    decreases e
  {
    if e.fields == [] {
      LeafKept(e);
    } else {
      forall i | 0 <= i < |e.fields|
        ensures LoadedField(e.fields[i]) == StripField(e.fields[i]) <==> PlainLeaves(e.fields[i].elem)
      {
        LoadedIsSame(e.fields[i].elem);
      }
      if Loaded(e) == Strip(e) {
        forall i | 0 <= i < |e.fields|
          ensures PlainLeaves(e.fields[i].elem)
        {
          assert Loaded(e).fields[i] == Strip(e).fields[i];
        }
      }
      if PlainLeaves(e) {
        assert Loaded(e).fields == Strip(e).fields;
      }
    }
  }

  // --------------------------------------------------------------- The operations

  /** Component::serialize. */
  method SerializeComponent(c: Component, stream: OStream)
    requires stream.Valid()
    modifies stream, stream.data
    ensures stream.Valid() && Wrote(old(stream.Written()), stream.Written(), ComponentTokens(c))
    ensures stream.data.Length >= old(stream.data.Length) && (stream.data == old(stream.data) || fresh(stream.data))
  {
    ghost var d := stream.Written();
    stream.AddU8(c.dtype % 256);
    ghost var d1 := stream.Written();
    stream.AddU8(c.kind % 256);
    ghost var d2 := stream.Written();
    stream.AddU8(if c.normalized then 1 else 0);
    ghost var d3 := stream.Written();
    stream.AddU32(c.vector);
    ghost var t, k, n := U8(c.dtype % 256), U8(c.kind % 256), U8(if c.normalized then 1 else 0);
    WroteBoth(d, d1, d2, [t], [k]);
    WroteBoth(d, d2, d3, [t] + [k], [n]);
    WroteBoth(d, d3, stream.Written(), [t] + [k] + [n], [U32(c.vector)]);
    assert ComponentTokens(c) == [t] + [k] + [n] + [U32(c.vector)];
  }

  method SerializeHead(e: Element, stream: OStream)
    requires stream.Valid() && Created(e) && e.name.Some? && |e.name.value| <= stream.data.Length
    modifies stream, stream.data
    ensures stream.Valid() && Wrote(old(stream.Written()), stream.Written(), HeadTokens(e))
    ensures stream.data.Length >= old(stream.data.Length) && (stream.data == old(stream.data) || fresh(stream.data))
  {
    ghost var d := stream.Written();
    stream.AddU32(CLASS_ELEMENT);
    ghost var d1 := stream.Written();
    ShortStringFits(stream.pos, stream.data.Length, |Chars(e.name)|);
    stream.AddString(e.name.value);
    ghost var d2 := stream.Written();
    SerializeComponent(e.comp, stream);
    ghost var d3 := stream.Written();
    stream.AddU32(|e.fields|);
    ghost var id, name := [U32(CLASS_ELEMENT)], [Str(Chars(e.name))];
    ghost var cts, n := ComponentTokens(e.comp), [U32(|e.fields|)];
    WroteBoth(d, d1, d2, id, name);
    WroteBoth(d, d2, d3, id + name, cts);
    WroteBoth(d, d3, stream.Written(), id + name + cts, n);
    assert HeadTokens(e) == id + name + cts + n;
  }

  /** ts are the tokens of the first ct fields. */
  ghost predicate FieldsDone(e: Element, ct: nat, ts: seq<Token>) {
    forall k :: KeyAt(ct, k) ==> ct <= |e.fields| && FieldsFrom(e, 0) == ts + FieldsFrom(e, ct)
  }

  lemma FieldsDoneNext(e: Element, ct: nat, ts: seq<Token>)
    requires FieldsDone(e, ct, ts) && ct < |e.fields|
    ensures FieldsDone(e, ct + 1, ts + FieldTokens(e, ct))
  {
    assert KeyAt(ct, 0);
    SplitTokens(ts, FieldsFrom(e, ct), FieldTokens(e, ct), FieldsFrom(e, ct + 1));
  }

  lemma FieldsDoneAll(e: Element, ts: seq<Token>)
    requires FieldsDone(e, |e.fields|, ts)
    ensures ts == FieldsFrom(e, 0)
  {
    assert KeyAt(|e.fields|, 0);
  }

  lemma SplitTokens(a: seq<Token>, bc: seq<Token>, b: seq<Token>, c: seq<Token>)
    requires bc == b + c
    ensures a + bc == a + b + c
  {
  }

  /** Element::serialize, which takes the length of the name of every element in the tree. */
  method Serialize(e: Element, stream: OStream)
    requires stream.Valid() && Created(e) && AllNamed(e) && NamesFit(e, stream.data.Length)
    modifies stream, stream.data
    ensures stream.Valid() && Wrote(old(stream.Written()), stream.Written(), ElementTokens(e))
    ensures stream.data.Length >= old(stream.data.Length) && (stream.data == old(stream.data) || fresh(stream.data))
    decreases e, 1
  {
    ghost var d := stream.Written();
    SerializeHead(e, stream);
    ghost var d1, ts := stream.Written(), [];
    WroteNone(d1);
    var ct := 0;
    while ct < |e.fields|
      invariant 0 <= ct <= |e.fields| && stream.Valid()
      invariant FieldsDone(e, ct, ts) && Wrote(d1, stream.Written(), ts)
      invariant stream.data.Length >= old(stream.data.Length) && (stream.data == old(stream.data) || fresh(stream.data))
    {
      ghost var d2 := stream.Written();
      NamesFitMore(e, old(stream.data.Length), stream.data.Length);
      SerializeField(e, ct, stream);
      WroteBoth(d1, d2, stream.Written(), ts, FieldTokens(e, ct));
      FieldsDoneNext(e, ct, ts);
      ts := ts + FieldTokens(e, ct);
      ct := ct + 1;
    }
    FieldsDoneAll(e, ts);
    WroteBoth(d, d1, stream.Written(), HeadTokens(e), ts);
  }

  lemma NamesFitMore(e: Element, m: nat, n: nat)
    requires NamesFit(e, m) && m <= n
    ensures NamesFit(e, n)
    decreases e
  {
    forall i | 0 <= i < |e.fields|
      ensures NamesFit(e.fields[i].elem, n)
    {
      NamesFitMore(e.fields[i].elem, m, n);
    }
  }

  method SerializeField(e: Element, ct: nat, stream: OStream)
    requires stream.Valid() && Created(e) && AllNamed(e) && NamesFit(e, stream.data.Length) && ct < |e.fields|
    modifies stream, stream.data
    ensures stream.Valid() && Wrote(old(stream.Written()), stream.Written(), FieldTokens(e, ct))
    ensures stream.data.Length >= old(stream.data.Length) && (stream.data == old(stream.data) || fresh(stream.data))
    decreases e, 0
  {
    var f := e.fields[ct];
    ghost var d, n := stream.Written(), stream.data.Length;
    ShortStringFits(stream.pos, stream.data.Length, |f.name|);
    stream.AddString(f.name);
    ghost var d1 := stream.Written();
    stream.AddU32(f.count);
    ghost var d2 := stream.Written();
    NamesFitMore(f.elem, n, stream.data.Length);
    Serialize(f.elem, stream);
    WroteBoth(d, d1, d2, [Str(f.name)], [U32(f.count)]);
    WroteBoth(d, d2, stream.Written(), [Str(f.name)] + [U32(f.count)], ElementTokens(f.elem));
    assert [Str(f.name)] + [U32(f.count)] == [Str(f.name), U32(f.count)];
  }

  /** Component::loadFromStream. */
  method LoadComponent(stream: IStream) returns (c: Component)
    requires ParseComponent(stream.data, stream.pos) != Broken
    modifies stream
    ensures ParseComponent(stream.data, old(stream.pos)) == Got(c, stream.pos)
  {
    var t := stream.LoadU8();
    var k := stream.LoadU8();
    var n := stream.LoadU8();
    var v := stream.LoadU32();
    c := Set(Component(t, k, n != 0, v));
  }

  /** The first n fields of fs have been read; the others start at `at`. */
  ghost predicate Rest(d: Data, at: nat, n: nat, fields: seq<Field>, fs: seq<Field>, end: nat) {
    forall k :: KeyAt(at, k) ==>
      && at <= |d| && ParseFields(d, at, n).Got? && ParseFields(d, at, n).next == end
      && fs == fields + ParseFields(d, at, n).value
  }

  /** A field stands in d from `at` to q. */
  ghost predicate FieldAt(d: Data, at: nat, f: Field, p: nat, q: nat) {
    forall k :: KeyAt(at, k) ==>
      at < p < q && ParseField(d, at) == Got((f.name, f.count), p) && ParseElement(d, p) == Got(f.elem, q)
  }

  lemma RestNext(d: Data, at: nat, n: nat, fields: seq<Field>, fs: seq<Field>, end: nat)
    returns (f: Field, p: nat, q: nat)
    requires Rest(d, at, n, fields, fs, end) && n > 0
    ensures at < q <= |d| && FieldAt(d, at, f, p, q) && Rest(d, q, n - 1, fields + [f], fs, end)
  {
    assert KeyAt(at, 0);
    var h := ParseField(d, at);
    p := h.next;
    var e := ParseElement(d, p);
    q := e.next;
    f := Field(h.value.0, h.value.1, e.value);
    assert ParseFields(d, at, n).value == [f] + ParseFields(d, q, n - 1).value;
  }

  lemma RestDone(d: Data, at: nat, fields: seq<Field>, fs: seq<Field>, end: nat)
    requires Rest(d, at, 0, fields, fs, end)
    ensures fields == fs && at == end
  {
    assert KeyAt(at, 0);
  }

  method LoadHead(stream: IStream) returns (h: Option<(Component, nat)>)
    requires ParseHead(stream.data, stream.pos) != Broken
    modifies stream
    ensures match ParseHead(stream.data, old(stream.pos))
      case Got(v, p) => h == Some(v) && stream.pos == p
      case _ => h == None
  {
    var id := stream.LoadU32();
    if id != CLASS_ELEMENT {
      return None;
    }
    var name := stream.LoadString();
    var c := LoadComponent(stream);
    var n := stream.LoadU32();
    return Some((c, n));
  }

  method LoadField(stream: IStream) returns (name: Data, count: u32)
    requires ParseField(stream.data, stream.pos) != Broken && ParseField(stream.data, stream.pos) != Null
    modifies stream
    ensures ParseField(stream.data, old(stream.pos)) == Got((name, count), stream.pos)
  {
    var s := stream.LoadString();
    name := CString(s);
    count := stream.LoadU32();
  }
}
