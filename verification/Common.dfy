/** Types and constants shared by the models of the RenderScript core. */
module Common {

  type byte = x: int | 0 <= x < 256

  const TWO_32: int := 0x1_0000_0000

  type u32 = x: int | 0 <= x < TWO_32

  datatype Option<+T> = None | Some(value: T)

  /** A fact stated for every key is used only where a key is named; this keeps its details out of other proofs. */
  predicate Key(k: int) {
    true
  }

  /** A key for facts about one place only. */
  predicate KeyAt(at: int, k: int) {
    true
  }

  /** No two positions of s hold the same. */
  ghost predicate NoRepeats<T(!new)>(s: seq<T>) {
    forall i, j :: 0 <= i < j < |s| ==> s[i] != s[j]
  }

  /** The sequence without its element at position i. */
  function Without<T>(s: seq<T>, i: nat): seq<T>
    requires i < |s|
  {
    s[..i] + s[i + 1..]
  }

  lemma WithoutMembers<T(!new)>(s: seq<T>, i: nat)
    requires i < |s| && NoRepeats(s)
    ensures NoRepeats(Without(s, i)) && forall x :: x in Without(s, i) <==> x in s && x != s[i]
  {
    var t := Without(s, i);
    assert forall k :: 0 <= k < |t| ==> t[k] == s[if k < i then k else k + 1];
    forall x | x in s && x != s[i]
      ensures x in t
    {
      var k :| 0 <= k < |s| && s[k] == x;
      assert t[if k < i then k else k - 1] == x;
    }
  }

  /** A product, named so that proofs need not multiply. */
  function Times(a: nat, n: nat): nat {
    a * n
  }

  lemma AddMultiple(a: nat, t: nat)
    ensures (a + TWO_32 * t) % TWO_32 == a % TWO_32
  {
  }
}
