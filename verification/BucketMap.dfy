/** The chained hash map with 256 buckets (rsMap.h). */
module BucketMap {
  import opened Common

  const BUCKETS: nat := 256

  type MapKey = nat
  type Value = int

  /** The value of a node that has just been made. */
  const DEFAULT_VALUE: Value := 0

  /** A link node; pointers are positions in the store. */
  datatype Node = Node(key: MapKey, value: Value, next: Option<nat>)

  function Hash(k: MapKey): (b: nat)
    ensures b < BUCKETS
  {
    k / 16 % 256
  }

  // ------------------------------------------------------------------------ Chains

  /** The list that starts at `head` has the nodes in `chain`. */
  ghost predicate Linked(nodes: seq<Node>, head: Option<nat>, chain: seq<nat>) {
    && head == (if chain == [] then None else Some(chain[0]))
    && (forall j :: 0 <= j < |chain| ==> chain[j] < |nodes|)
    && forall j :: 0 <= j < |chain| ==> nodes[chain[j]].next == After(chain, j)
  }

  ghost function After(chain: seq<nat>, j: nat): Option<nat>
    requires j < |chain|
  {
    if j + 1 < |chain| then Some(chain[j + 1]) else None
  }

  /** Chain b has different keys, all of bucket b. */
  ghost predicate KeysOk(nodes: seq<Node>, b: nat, chain: seq<nat>) {
    && (forall j :: 0 <= j < |chain| ==> chain[j] < |nodes| && Hash(nodes[chain[j]].key) == b)
    && (forall i, j :: 0 <= i < j < |chain| ==> DifferentKeys(nodes, chain, i, j))
  }

  ghost predicate DifferentKeys(nodes: seq<Node>, chain: seq<nat>, i: nat, j: nat)
    requires i < |chain| && j < |chain|
  {
    chain[i] < |nodes| && chain[j] < |nodes| && nodes[chain[i]].key != nodes[chain[j]].key
  }

  /** Chain b holds the entries of the map that belong to bucket b. */
  ghost predicate Holds(nodes: seq<Node>, b: nat, chain: seq<nat>, m: map<MapKey, Value>) {
    && (forall j :: 0 <= j < |chain| ==> chain[j] < |nodes| && HasEntry(m, nodes[chain[j]]))
    && (forall k :: k in m && Hash(k) == b ==> InChain(nodes, chain, k))
  }

  ghost predicate HasEntry(m: map<MapKey, Value>, n: Node) {
    n.key in m && m[n.key] == n.value
  }

  ghost predicate InChain(nodes: seq<Node>, chain: seq<nat>, k: MapKey) {
    exists j :: 0 <= j < |chain| && chain[j] < |nodes| && nodes[chain[j]].key == k
  }

  ghost predicate BucketOk(nodes: seq<Node>, head: Option<nat>, b: nat, chain: seq<nat>, m: map<MapKey, Value>) {
    Linked(nodes, head, chain) && KeysOk(nodes, b, chain) && Holds(nodes, b, chain, m)
  }

  /** The store, the buckets and their chains make up the map m. */
  ghost predicate Represents(nodes: seq<Node>, heads: seq<Option<nat>>, chains: seq<seq<nat>>, m: map<MapKey, Value>) {
    && |heads| == |chains| == BUCKETS
    && forall key :: Key(key) ==> AllOk(nodes, heads, chains, m)
  }

  ghost predicate AllOk(nodes: seq<Node>, heads: seq<Option<nat>>, chains: seq<seq<nat>>, m: map<MapKey, Value>)
    requires |heads| == |chains| == BUCKETS
  {
    forall b :: 0 <= b < BUCKETS ==> BucketOk(nodes, heads[b], b, chains[b], m)
  }

  lemma BucketOf(nodes: seq<Node>, heads: seq<Option<nat>>, chains: seq<seq<nat>>, m: map<MapKey, Value>, b: nat)
    requires Represents(nodes, heads, chains, m) && b < BUCKETS
    ensures BucketOk(nodes, heads[b], b, chains[b], m)
  {
    assert Key(0);
  }

  // ----------------------------------------------------------------------- Changes

  /** Changing the value of a node changes the entry of its key. */
  lemma ValueSet(nodes: seq<Node>, heads: seq<Option<nat>>, chains: seq<seq<nat>>, m: map<MapKey, Value>, j: nat,
                 k: MapKey, v: Value)
    requires Represents(nodes, heads, chains, m) && j < |chains[Hash(k)]|
    requires chains[Hash(k)][j] < |nodes| && nodes[chains[Hash(k)][j]].key == k
    ensures var n := chains[Hash(k)][j]; Represents(nodes[n := nodes[n].(value := v)], heads, chains, m[k := v])
  {
    var n := chains[Hash(k)][j];
    var nodes' := nodes[n := nodes[n].(value := v)];
    forall b | 0 <= b < BUCKETS
      ensures BucketOk(nodes', heads[b], b, chains[b], m[k := v])
    {
      BucketOf(nodes, heads, chains, m, b);
      BucketOf(nodes, heads, chains, m, Hash(k));
      OnlyNode(nodes, chains[b], b, k, chains[Hash(k)], j);
      BucketAfterValue(nodes, heads[b], b, chains[b], m, n, k, v);
    }
  }

  /** MapKey k has no other node than the one at position j of its chain. */
  lemma OnlyNode(nodes: seq<Node>, chain: seq<nat>, b: nat, k: MapKey, own: seq<nat>, j: nat)
    requires KeysOk(nodes, b, chain) && KeysOk(nodes, Hash(k), own) && (b == Hash(k) ==> chain == own)
    requires j < |own| && nodes[own[j]].key == k
    ensures forall i :: 0 <= i < |chain| && nodes[chain[i]].key == k ==> chain[i] == own[j]
  {
    forall i | 0 <= i < |chain| && nodes[chain[i]].key == k
      ensures chain[i] == own[j]
    {
      assert i < j ==> DifferentKeys(nodes, own, i, j);
      assert j < i ==> DifferentKeys(nodes, own, j, i);
    }
  }

  lemma BucketAfterValue(nodes: seq<Node>, head: Option<nat>, b: nat, chain: seq<nat>, m: map<MapKey, Value>, n: nat,
                         k: MapKey, v: Value)
    requires BucketOk(nodes, head, b, chain, m) && n < |nodes| && nodes[n].key == k && k in m
    requires forall j :: 0 <= j < |chain| && nodes[chain[j]].key == k ==> chain[j] == n
    ensures BucketOk(nodes[n := nodes[n].(value := v)], head, b, chain, m[k := v])
  {
    var nodes', m' := nodes[n := nodes[n].(value := v)], m[k := v];
    forall i, j | 0 <= i < j < |chain|
      ensures DifferentKeys(nodes', chain, i, j)
    {
      assert DifferentKeys(nodes, chain, i, j);
    }
    forall x | x in m' && Hash(x) == b
      ensures InChain(nodes', chain, x)
    {
      assert InChain(nodes, chain, x);
      var j :| 0 <= j < |chain| && chain[j] < |nodes| && nodes[chain[j]].key == x;
      assert nodes'[chain[j]].key == x;
    }
    forall j | 0 <= j < |chain|
      ensures HasEntry(m', nodes'[chain[j]])
    {
      assert HasEntry(m, nodes[chain[j]]);
    }
  }

  /** A new node at the end of its chain adds an entry. */
  function Appended(nodes: seq<Node>, chain: seq<nat>, k: MapKey, v: Value): seq<Node>
    requires chain != [] ==> chain[|chain| - 1] < |nodes|
  {
    var nodes1 := if chain == [] then nodes
                  else nodes[chain[|chain| - 1] := nodes[chain[|chain| - 1]].(next := Some(|nodes|))];
    nodes1 + [Node(k, v, None)]
  }

  function HeadAfter(nodes: seq<Node>, head: Option<nat>, chain: seq<nat>): Option<nat> {
    if chain == [] then Some(|nodes|) else head
  }

  /** Only links differ between the old nodes and the first ones of the new store. */
  ghost predicate SameEntries(nodes: seq<Node>, nodes': seq<Node>) {
    && |nodes| <= |nodes'|
    && forall i :: 0 <= i < |nodes| ==> nodes'[i].key == nodes[i].key && nodes'[i].value == nodes[i].value
  }

  lemma AppendedKeys(nodes: seq<Node>, nodes': seq<Node>, b: nat, chain: seq<nat>)
    requires KeysOk(nodes, b, chain) && SameEntries(nodes, nodes') && |nodes'| == |nodes| + 1
    requires Hash(nodes'[|nodes|].key) == b && !InChain(nodes, chain, nodes'[|nodes|].key)
    ensures KeysOk(nodes', b, chain + [|nodes|])
  {
    var chain' := chain + [|nodes|];
    forall i, j | 0 <= i < j < |chain'|
      ensures DifferentKeys(nodes', chain', i, j)
    {
      assert j < |chain| ==> DifferentKeys(nodes, chain, i, j);
    }
  }

  lemma AppendedHolds(nodes: seq<Node>, nodes': seq<Node>, b: nat, chain: seq<nat>, m: map<MapKey, Value>)
    requires Holds(nodes, b, chain, m) && SameEntries(nodes, nodes') && |nodes'| == |nodes| + 1
    requires nodes'[|nodes|].key !in m
    ensures Holds(nodes', b, chain + [|nodes|], m[nodes'[|nodes|].key := nodes'[|nodes|].value])
  {
    var n := nodes'[|nodes|];
    var chain', m' := chain + [|nodes|], m[n.key := n.value];
    forall x | x in m' && Hash(x) == b
      ensures InChain(nodes', chain', x)
    {
      if x == n.key {
        assert chain'[|chain|] == |nodes|;
      } else {
        assert InChain(nodes, chain, x);
        var j :| 0 <= j < |chain| && chain[j] < |nodes| && nodes[chain[j]].key == x;
        assert chain'[j] == chain[j];
      }
    }
    forall j | 0 <= j < |chain'|
      ensures HasEntry(m', nodes'[chain'[j]])
    {
      assert j < |chain| ==> HasEntry(m, nodes[chain[j]]);
    }
  }

  lemma KeysDistinct(nodes: seq<Node>, b: nat, chain: seq<nat>)
    requires KeysOk(nodes, b, chain)
    ensures NoRepeats(chain)
  {
    forall i, j | 0 <= i < j < |chain|
      ensures chain[i] != chain[j]
    {
      assert DifferentKeys(nodes, chain, i, j);
    }
  }

  /** The chain that grows. */
  lemma BucketAppended(nodes: seq<Node>, head: Option<nat>, b: nat, chain: seq<nat>, m: map<MapKey, Value>, k: MapKey,
                       v: Value)
    requires BucketOk(nodes, head, b, chain, m) && Hash(k) == b && !InChain(nodes, chain, k) && k !in m
    ensures BucketOk(Appended(nodes, chain, k, v), HeadAfter(nodes, head, chain), b, chain + [|nodes|], m[k := v])
  {
    AppendedEntries(nodes, chain, k, v);
    KeysDistinct(nodes, b, chain);
    AppendedLinks(nodes, head, chain, k, v);
    BucketMade(nodes, Appended(nodes, chain, k, v), HeadAfter(nodes, head, chain), b, chain, m, k, v);
  }

  lemma AppendedEntries(nodes: seq<Node>, chain: seq<nat>, k: MapKey, v: Value)
    requires chain != [] ==> chain[|chain| - 1] < |nodes|
    ensures SameEntries(nodes, Appended(nodes, chain, k, v)) && |Appended(nodes, chain, k, v)| == |nodes| + 1
    ensures Appended(nodes, chain, k, v)[|nodes|] == Node(k, v, None)
  {
  }

  lemma BucketMade(nodes: seq<Node>, nodes': seq<Node>, head: Option<nat>, b: nat, chain: seq<nat>,
                   m: map<MapKey, Value>, k: MapKey, v: Value)
    requires KeysOk(nodes, b, chain) && Holds(nodes, b, chain, m)
    requires Hash(k) == b && !InChain(nodes, chain, k) && k !in m
    requires SameEntries(nodes, nodes') && |nodes'| == |nodes| + 1 && nodes'[|nodes|] == Node(k, v, None)
    requires Linked(nodes', head, chain + [|nodes|])
    ensures BucketOk(nodes', head, b, chain + [|nodes|], m[k := v])
  {
    AppendedKeys(nodes, nodes', b, chain);
    AppendedHolds(nodes, nodes', b, chain, m);
  }

  /** The other chains stay. */
  lemma BucketStays(nodes: seq<Node>, head: Option<nat>, b: nat, chain: seq<nat>, m: map<MapKey, Value>,
                    own: seq<nat>, k: MapKey, v: Value)
    requires BucketOk(nodes, head, b, chain, m) && Hash(k) != b && KeysOk(nodes, Hash(k), own)
    ensures BucketOk(Appended(nodes, own, k, v), head, b, chain, m[k := v])
  {
    var nodes', m' := Appended(nodes, own, k, v), m[k := v];
    assert SameEntries(nodes, nodes');
    forall j | 0 <= j < |chain|
      ensures nodes'[chain[j]] == nodes[chain[j]] && HasEntry(m', nodes[chain[j]])
    {
      assert HasEntry(m, nodes[chain[j]]);
    }
    forall i, j | 0 <= i < j < |chain|
      ensures DifferentKeys(nodes', chain, i, j)
    {
      assert DifferentKeys(nodes, chain, i, j);
    }
    forall x | x in m' && Hash(x) == b
      ensures InChain(nodes', chain, x)
    {
      assert InChain(nodes, chain, x);
      var j :| 0 <= j < |chain| && chain[j] < |nodes| && nodes[chain[j]].key == x;
      assert nodes'[chain[j]].key == x;
    }
  }

  /** A key that is not in its chain is not in the map. */
  lemma Absent(nodes: seq<Node>, heads: seq<Option<nat>>, chains: seq<seq<nat>>, m: map<MapKey, Value>, k: MapKey)
    requires Represents(nodes, heads, chains, m)
    ensures k in m <==> InChain(nodes, chains[Hash(k)], k)
  {
    BucketOf(nodes, heads, chains, m, Hash(k));
    if InChain(nodes, chains[Hash(k)], k) {
      var j :| 0 <= j < |chains[Hash(k)]| && chains[Hash(k)][j] < |nodes| && nodes[chains[Hash(k)][j]].key == k;
      assert HasEntry(m, nodes[chains[Hash(k)][j]]);
    }
  }

  lemma EntryAdded(nodes: seq<Node>, heads: seq<Option<nat>>, chains: seq<seq<nat>>, m: map<MapKey, Value>, k: MapKey,
                   v: Value)
    requires Represents(nodes, heads, chains, m) && !InChain(nodes, chains[Hash(k)], k)
    ensures BucketOk(nodes, heads[Hash(k)], Hash(k), chains[Hash(k)], m)
    ensures var b := Hash(k);
      Represents(Appended(nodes, chains[b], k, v), heads[b := HeadAfter(nodes, heads[b], chains[b])],
                 chains[b := chains[b] + [|nodes|]], m[k := v])
  {
    var own := Hash(k);
    Absent(nodes, heads, chains, m, k);
    BucketOf(nodes, heads, chains, m, own);
    var heads' := heads[own := HeadAfter(nodes, heads[own], chains[own])];
    var chains' := chains[own := chains[own] + [|nodes|]];
    forall b | 0 <= b < BUCKETS
      ensures BucketOk(Appended(nodes, chains[own], k, v), heads'[b], b, chains'[b], m[k := v])
    {
      BucketOf(nodes, heads, chains, m, b);
      if b == own {
        BucketAppended(nodes, heads[b], b, chains[b], m, k, v);
      } else {
        BucketStays(nodes, heads[b], b, chains[b], m, chains[own], k, v);
      }
    }
  }

  lemma AppendedLinks(nodes: seq<Node>, head: Option<nat>, chain: seq<nat>, k: MapKey, v: Value)
    requires Linked(nodes, head, chain) && NoRepeats(chain)
    ensures Linked(Appended(nodes, chain, k, v), HeadAfter(nodes, head, chain), chain + [|nodes|])
  {
    var nodes', chain' := Appended(nodes, chain, k, v), chain + [|nodes|];
    forall j | 0 <= j < |chain'|
      ensures nodes'[chain'[j]].next == After(chain', j)
    {
      if j < |chain| {
        assert nodes[chain[j]].next == After(chain, j);
      }
    }
  }

  // --------------------------------------------------------------------- The map

  ghost predicate Searched(nodes: seq<Node>, chain: seq<nat>, k: MapKey, r: Option<nat>, prev: Option<nat>, at: nat) {
    match r
    case Some(n) => at < |chain| && chain[at] == n && n < |nodes| && nodes[n].key == k
    case None => !InChain(nodes, chain, k) && prev == if chain == [] then None else Some(chain[|chain| - 1])
  }

  /** The search loop over one chain. */
  method SearchChain(nodes: seq<Node>, head: Option<nat>, ghost chain: seq<nat>, k: MapKey)
    returns (r: Option<nat>, prev: Option<nat>, ghost at: nat)
    requires Linked(nodes, head, chain)
    ensures Searched(nodes, chain, k, r, prev, at)
  {
    var node := head;
    prev, at := None, 0;
    while node.Some?
      invariant at <= |chain| && node == (if at < |chain| then Some(chain[at]) else None)
      invariant prev == (if at == 0 then None else Some(chain[at - 1]))
      invariant forall i :: 0 <= i < at ==> nodes[chain[i]].key != k
      decreases |chain| - at
    {
      if nodes[node.value].key == k {
        return node, prev, at;
      }
      assert nodes[chain[at]].next == After(chain, at);
      prev := node;
      node := nodes[node.value].next;
      at := at + 1;
    }
    r := None;
  }

  /** An iterator: a bucket and a node of it, or the end. */
  datatype Iterator = Iterator(bucket: nat, node: Option<nat>)

  const END: Iterator := Iterator(BUCKETS, None)

  class Map {
    var nodes: seq<Node>
    var heads: seq<Option<nat>>
    ghost var chains: seq<seq<nat>>
    ghost var contents: map<MapKey, Value>

    ghost predicate Valid()
      reads this
    {
      Represents(nodes, heads, chains, contents)
    }

    constructor ()
      ensures Valid() && contents == map[]
    {
      nodes, heads, chains, contents := [], seq(BUCKETS, i => None), seq(BUCKETS, i => []), map[];
    }

    /** The search of operator[] and find: the node of k, or none, and the last node of the chain. */
    method Search(k: MapKey) returns (r: Option<nat>, prev: Option<nat>, ghost at: nat)
      requires Valid()
      ensures Searched(nodes, chains[Hash(k)], k, r, prev, at)
    {
      BucketOf(nodes, heads, chains, contents, Hash(k));
      r, prev, at := SearchChain(nodes, heads[Hash(k)], chains[Hash(k)], k);
    }

    /** Map::operator[]: the node of k, which is made with a default value if there is none. */
    method At(k: MapKey) returns (n: nat, ghost at: nat)
      requires Valid()
      modifies this
      ensures Valid() && contents == if k in old(contents) then old(contents) else old(contents)[k := DEFAULT_VALUE]
      ensures at < |chains[Hash(k)]| && chains[Hash(k)][at] == n && n < |nodes| && nodes[n].key == k
      ensures nodes[n].value == contents[k]
    {
      var b := Hash(k);
      var r, prev;
      r, prev, at := Search(k);
      Absent(nodes, heads, chains, contents, k);
      if r.Some? {
        n := r.value;
        BucketOf(nodes, heads, chains, contents, b);
        assert HasEntry(contents, nodes[chains[b][at]]);
        return;
      }
      EntryAdded(nodes, heads, chains, contents, k, DEFAULT_VALUE);
      n, at := |nodes|, |chains[b]|;
      var nodes1 := nodes;
      if prev == None {
        heads := heads[b := Some(n)];
      } else {
        nodes1 := nodes[prev.value := nodes[prev.value].(next := Some(n))];
      }
      chains := chains[b := chains[b] + [n]];
      nodes := nodes1 + [Node(k, DEFAULT_VALUE, None)];
      contents := contents[k := DEFAULT_VALUE];
    }

    /** A read through operator[], which adds an entry for an absent key. */
    method Read(k: MapKey) returns (v: Value)
      requires Valid()
      modifies this
      ensures Valid() && contents == if k in old(contents) then old(contents) else old(contents)[k := DEFAULT_VALUE]
      ensures v == contents[k]
    {
      var n, at := At(k);
      v := nodes[n].value;
    }

    /** A write through operator[]. */
    method Put(k: MapKey, v: Value)
      requires Valid()
      modifies this
      ensures Valid() && contents == old(contents)[k := v]
    {
      var n, at := At(k);
      ValueSet(nodes, heads, chains, contents, at, k, v);
      nodes := nodes[n := nodes[n].(value := v)];
      contents := contents[k := v];
    }

    /** Map::find. */
    method Find(k: MapKey) returns (it: Iterator)
      requires Valid()
      ensures k !in contents ==> it == END
      ensures k in contents ==> it.bucket == Hash(k) && it.node.Some? && it.node.value < |nodes|
                                && nodes[it.node.value].key == k && nodes[it.node.value].value == contents[k]
    {
      var r, prev, at := Search(k);
      Absent(nodes, heads, chains, contents, k);
      if r.Some? {
        BucketOf(nodes, heads, chains, contents, Hash(k));
        assert HasEntry(contents, nodes[chains[Hash(k)][at]]);
        return Iterator(Hash(k), r);
      }
      return END;
    }

    /** The search for the next bucket that is not empty, from bucket b on. */
    method FirstFrom(b: nat) returns (it: Iterator)
      requires Valid() && b <= BUCKETS
      ensures Reached(chains, it, Order(chains, b))
    {
      var i := b;
      while i < BUCKETS
        invariant b <= i <= BUCKETS && Order(chains, i) == Order(chains, b)
      {
        BucketOf(nodes, heads, chains, contents, i);
        if heads[i].Some? {
          ReachedStart(chains, i);
          return Iterator(i, heads[i]);
        }
        i := i + 1;
      }
      return END;
    }

    /** Map::begin. */
    method Begin() returns (it: Iterator)
      requires Valid()
      ensures Reached(chains, it, [])
    {
      it := FirstFrom(0);
    }

    /** The iterator's operator++. */
    method Next(it: Iterator, ghost before: seq<nat>) returns (it': Iterator)
      requires Valid() && Reached(chains, it, before) && it.node.Some?
      ensures Reached(chains, it', before + [it.node.value])
    {
      ghost var chain, j := chains[it.bucket], |before| - |Order(chains, it.bucket)|;
      BucketOf(nodes, heads, chains, contents, it.bucket);
      assert nodes[chain[j]].next == After(chain, j);
      ReachedNext(chains, it.bucket, j);
      var next := nodes[it.node.value].next;
      if next.Some? {
        return Iterator(it.bucket, next);
      }
      it' := FirstFrom(it.bucket + 1);
    }

    /** A loop from begin to end, and the nodes it comes by. */
    method Iterate() returns (visited: seq<nat>)
      requires Valid()
      ensures visited == Order(chains, BUCKETS)
    {
      visited := [];
      var it := Begin();
      while it != END
        invariant Reached(chains, it, visited)
        decreases |Order(chains, BUCKETS)| - |visited|
      {
        ReachedBound(chains, it, visited);
        var it' := Next(it, visited);
        visited := visited + [it.node.value];
        it := it';
        ReachedBound(chains, it, visited);
      }
    }
  }

  // ------------------------------------------------------------------- Iteration

  /** The nodes of the first b buckets, in order. */
  ghost function Order(chains: seq<seq<nat>>, b: nat): seq<nat>
    requires b <= |chains|
  {
    if b == 0 then [] else Order(chains, b - 1) + chains[b - 1]
  }

  /** The iterator stands after the nodes in `before`. */
  ghost predicate Reached(chains: seq<seq<nat>>, it: Iterator, before: seq<nat>) {
    && |chains| == BUCKETS
    && match it.node
       case None => it == END && before == Order(chains, BUCKETS)
       case Some(n) =>
         && it.bucket < BUCKETS
         && var j := |before| - |Order(chains, it.bucket)|;
            && 0 <= j < |chains[it.bucket]| && chains[it.bucket][j] == n
            && before == Order(chains, it.bucket) + chains[it.bucket][..j]
  }

  lemma ReachedStart(chains: seq<seq<nat>>, b: nat)
    requires |chains| == BUCKETS && b < BUCKETS && chains[b] != []
    ensures Reached(chains, Iterator(b, Some(chains[b][0])), Order(chains, b))
  {
    assert Order(chains, b) + chains[b][..0] == Order(chains, b);
  }

  lemma ReachedNext(chains: seq<seq<nat>>, b: nat, j: nat)
    requires |chains| == BUCKETS && b < BUCKETS && j < |chains[b]|
    ensures var before := Order(chains, b) + chains[b][..j] + [chains[b][j]];
      if j + 1 < |chains[b]| then Reached(chains, Iterator(b, Some(chains[b][j + 1])), before)
      else before == Order(chains, b + 1)
  {
    assert chains[b][..j] + [chains[b][j]] == chains[b][..j + 1];
    assert Order(chains, b) + chains[b][..j] + [chains[b][j]] == Order(chains, b) + chains[b][..j + 1];
    assert j + 1 == |chains[b]| ==> chains[b][..j + 1] == chains[b];
  }

  lemma {:induction false} OrderGrows(chains: seq<seq<nat>>, a: nat, b: nat)
    requires a <= b <= |chains|
    ensures |Order(chains, a)| <= |Order(chains, b)|
    decreases b
  {
    if a < b {
      OrderGrows(chains, a, b - 1);
    }
  }

  lemma ReachedBound(chains: seq<seq<nat>>, it: Iterator, before: seq<nat>)
    requires Reached(chains, it, before)
    ensures |before| <= |Order(chains, BUCKETS)| && (it.node.Some? ==> |before| < |Order(chains, BUCKETS)|)
    ensures it.node.None? <==> it == END
  {
    if it.node.Some? {
      OrderGrows(chains, it.bucket + 1, BUCKETS);
    }
  }

  /** The nodes of the first b buckets have different keys, and those are the keys of the map in these buckets. */
  lemma {:induction false} OrderKeys(nodes: seq<Node>, heads: seq<Option<nat>>, chains: seq<seq<nat>>,
                                     m: map<MapKey, Value>, b: nat)
    requires Represents(nodes, heads, chains, m) && b <= BUCKETS
    ensures forall i :: 0 <= i < |Order(chains, b)| ==>
      && Order(chains, b)[i] < |nodes| && HasEntry(m, nodes[Order(chains, b)[i]])
      && Hash(nodes[Order(chains, b)[i]].key) < b
    ensures forall i, j :: 0 <= i < j < |Order(chains, b)| ==> DifferentKeys(nodes, Order(chains, b), i, j)
    ensures forall k :: k in m && Hash(k) < b ==> InChain(nodes, Order(chains, b), k)
  {
    if b > 0 {
      OrderKeys(nodes, heads, chains, m, b - 1);
      BucketOf(nodes, heads, chains, m, b - 1);
      OrderKeysNext(nodes, Order(chains, b - 1), chains[b - 1], m, b - 1);
    }
  }

  lemma OrderKeysNext(nodes: seq<Node>, order: seq<nat>, chain: seq<nat>, m: map<MapKey, Value>, b: nat)
    requires KeysOk(nodes, b, chain) && Holds(nodes, b, chain, m)
    requires forall i :: 0 <= i < |order| ==>
      order[i] < |nodes| && HasEntry(m, nodes[order[i]]) && Hash(nodes[order[i]].key) < b
    requires forall i, j :: 0 <= i < j < |order| ==> DifferentKeys(nodes, order, i, j)
    requires forall k :: k in m && Hash(k) < b ==> InChain(nodes, order, k)
    ensures var all := order + chain;
      && (forall i :: 0 <= i < |all| ==>
            all[i] < |nodes| && HasEntry(m, nodes[all[i]]) && Hash(nodes[all[i]].key) < b + 1)
      && (forall i, j :: 0 <= i < j < |all| ==> DifferentKeys(nodes, all, i, j))
      && (forall k :: k in m && Hash(k) < b + 1 ==> InChain(nodes, all, k))
  {
    var all := order + chain;
    forall i, j | 0 <= i < j < |all|
      ensures DifferentKeys(nodes, all, i, j)
    {
      assert j < |order| ==> DifferentKeys(nodes, order, i, j);
      assert i >= |order| ==> DifferentKeys(nodes, chain, i - |order|, j - |order|);
    }
    forall k | k in m && Hash(k) < b + 1
      ensures InChain(nodes, all, k)
    {
      if Hash(k) < b {
        assert InChain(nodes, order, k);
        var j :| 0 <= j < |order| && order[j] < |nodes| && nodes[order[j]].key == k;
        assert all[j] == order[j];
      } else {
        assert InChain(nodes, chain, k);
        var j :| 0 <= j < |chain| && chain[j] < |nodes| && nodes[chain[j]].key == k;
        assert all[|order| + j] == chain[j];
      }
    }
  }

  /** Iteration visits each key of the map exactly once, with its value. */
  lemma IterationVisitsOnce(nodes: seq<Node>, heads: seq<Option<nat>>, chains: seq<seq<nat>>, m: map<MapKey, Value>)
    requires Represents(nodes, heads, chains, m)
    ensures var visited := Order(chains, BUCKETS);
      && (forall i :: 0 <= i < |visited| ==> visited[i] < |nodes| && HasEntry(m, nodes[visited[i]]))
      && (forall i, j :: 0 <= i < j < |visited| ==> DifferentKeys(nodes, visited, i, j))
      && (forall k :: k in m ==> InChain(nodes, visited, k))
  {
    OrderKeys(nodes, heads, chains, m, BUCKETS);
  }
}
