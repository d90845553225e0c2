/**
 * Accounting for disk offsets: the set of all allocated offsets, split into
 * the parts that own them.
 */
module Ownership {
  /** A duplicate-free collection splits into disjoint parts. */
  lemma Apart(keys: set<int>, a: multiset<int>, b: multiset<int>, c: multiset<int>)
    requires multiset(keys) == a + b + c
    ensures forall o | o in a :: o in keys && o !in b && o !in c
    ensures forall o | o in b :: o in keys && o !in a && o !in c
    ensures forall o | o in c :: o in keys && o !in a && o !in b
  {
    forall o ensures a[o] + b[o] + c[o] <= 1 && (a[o] + b[o] + c[o] > 0 ==> o in keys) {
      assert multiset(keys)[o] == a[o] + b[o] + c[o];
    }
  }

  lemma Alone(keys: set<int>, o: int, others: multiset<int>)
    requires multiset(keys) == multiset{o} + others
    ensures o in keys && o !in others
  {
    Apart(keys, multiset{o}, others, multiset{});
    assert o in multiset{o};
  }

  lemma OnItsOwn(keys: set<int>, o: int, a: multiset<int>, b: multiset<int>, c: multiset<int>, d: multiset<int>)
    requires multiset(keys) == multiset{o} + a + b + c + d
    ensures o in keys && o !in a && o !in b && o !in c && o !in d
  {
    assert multiset(keys) == multiset{o} + (a + b + c + d);
    Alone(keys, o, a + b + c + d);
  }

  ghost predicate OnceEach(m: multiset<int>) {
    forall o :: m[o] <= 1
  }

  lemma PartOnce(keys: set<int>, part: multiset<int>, rest: multiset<int>)
    requires multiset(keys) == part + rest
    ensures OnceEach(part)
  {
    forall o ensures part[o] <= 1 {
      assert multiset(keys)[o] == part[o] + rest[o];
    }
  }
}
