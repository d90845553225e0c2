/**
 * The byte-wise order on keys. The secondary index compares C strings with
 * strcmp and the key engine compares quids with memcmp; both are the
 * lexicographic order on sequences of unsigned bytes.
 */
module Order {
  type Key = string

  /** Negative, zero or positive, as strcmp and memcmp answer. */
  function Compare(a: Key, b: Key): int {
    if a == [] && b == [] then 0
    else if a == [] then -1
    else if b == [] then 1
    else if a[0] != b[0] then (if a[0] < b[0] then -1 else 1)
    else Compare(a[1..], b[1..])
  }

  predicate Less(a: Key, b: Key) {
    Compare(a, b) < 0
  }

  lemma {:induction false} CompareAntisymmetric(a: Key, b: Key)
    ensures Compare(b, a) == -Compare(a, b)
    ensures Compare(a, b) == 0 <==> a == b
  {
    if a != [] && b != [] && a[0] == b[0] {
      CompareAntisymmetric(a[1..], b[1..]);
      assert a == [a[0]] + a[1..] && b == [b[0]] + b[1..];
    }
  }

  lemma {:induction false} LessTransitive(a: Key, b: Key, c: Key)
    requires Less(a, b) && Less(b, c)
    ensures Less(a, c)
  {
    if a != [] && b != [] && c != [] && a[0] == b[0] == c[0] {
      LessTransitive(a[1..], b[1..], c[1..]);
    }
  }

  /** Less is a strict total order; the quantified form the tree proofs use. */
  lemma LessIsStrictTotalOrder()
    ensures forall a, b {:trigger Less(a, b)} :: Less(a, b) ==> a != b && !Less(b, a)
    ensures forall a, b {:trigger Less(a, b)} :: Less(a, b) || a == b || Less(b, a)
    ensures forall a, b, c {:trigger Less(a, b), Less(b, c)} :: Less(a, b) && Less(b, c) ==> Less(a, c)
  {
    forall a, b ensures Compare(b, a) == -Compare(a, b) && (Compare(a, b) == 0 <==> a == b) {
      CompareAntisymmetric(a, b);
    }
    forall a, b, c | Less(a, b) && Less(b, c) ensures Less(a, c) {
      LessTransitive(a, b, c);
    }
  }
}
