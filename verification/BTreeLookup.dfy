/**
 * Lookup in the secondary index, on values: what the search has collected on
 * its way down, and what a traversal has to add up.
 */
module BTreeLookup {
  import opened Order
  import opened SearchTree
  import opened BTreeNode
  import opened BTreeSpec
  import opened BTreeInsertion

  /** The value sets of the items with this key, in order. */
  function Matches(items: seq<I>, key: Key): seq<int> {
    if items == [] then []
    else (if items[0].key == key then [items[0].val.valset] else []) + Matches(items[1..], key)
  }

  lemma {:induction false} MatchesConcat(a: seq<I>, b: seq<I>, key: Key)
    ensures Matches(a + b, key) == Matches(a, key) + Matches(b, key)
  {
    if a == [] {
      assert a + b == b;
    } else {
      MatchesConcat(a[1..], b, key);
      var m := if a[0].key == key then [a[0].val.valset] else [];
      assert (a + b)[1..] == a[1..] + b;
      Assoc(m, Matches(a[1..], key), Matches(b, key));
    }
  }

  lemma MatchesOne(items: seq<I>, i: nat, x: nat, key: Key)
    requires i <= x < |items|
    ensures Matches(items[i..x + 1], key)
         == Matches(items[i..x], key) + (if items[x].key == key then [items[x].val.valset] else [])
  {
    assert items[i..x + 1] == items[i..x] + [items[x]];
    MatchesConcat(items[i..x], [items[x]], key);
    assert [items[x]][1..] == [];
  }

  lemma {:induction false} MatchesNone(items: seq<I>, key: Key)
    requires forall i | 0 <= i < |items| :: items[i].key != key
    ensures Matches(items, key) == []
  {
    if items != [] {
      MatchesNone(items[1..], key);
    }
  }

  /** In strictly sorted items, from the lower bound on, only the first can match. */
  lemma MatchesFrom(items: seq<I>, key: Key, i: nat)
    requires Sorted(items) && IsLowerBound(items, key, i)
    ensures Matches(items[i..], key) == if i < |items| && items[i].key == key then [items[i].val.valset] else []
  {
    LessIsStrictTotalOrder();
    if i < |items| {
      var rest := items[i + 1..];
      forall j | 0 <= j < |rest| ensures rest[j].key != key {
        assert Less(items[i].key, items[i + 1 + j].key) && !Less(items[i..][0].key, key);
      }
      assert items[i..][1..] == rest;
      MatchesNone(rest, key);
    }
  }

  /** Either the key was met already and is not below, or it is in the whole
      tree just when it is in the subtree still to be searched. */
  ghost predicate FoundSoFar(whole: T, t: T, key: Key, result: seq<int>) {
    && Sorted(InOrder(whole)) && Sorted(InOrder(t))
    && (if result == [] then
          && (Has(InOrder(whole), key) <==> Has(InOrder(t), key))
          && (Has(InOrder(t), key) ==> Lookup(InOrder(t), key) == Lookup(InOrder(whole), key))
        else
          && Has(InOrder(whole), key) && result == [Lookup(InOrder(whole), key).valset]
          && !Has(InOrder(t), key))
  }

  lemma FoundStart(t: T, key: Key)
    ensures Sorted(InOrder(t)) ==> FoundSoFar(t, t, key, [])
  {
  }

  lemma FoundStep(whole: T, t: T, key: Key, r: seq<int>, i: nat)
    requires FoundSoFar(whole, t, key, r) && t.Node? && |t.kids| == |t.items| + 1 && i <= |t.items|
    requires Sorted(t.items) ==> IsLowerBound(t.items, key, i)
    ensures FoundSoFar(whole, t.kids[i], key, r + Matches(t.items[i..], key))
  {
    SortedNode(t.items, t.kids);
    MatchesFrom(t.items, key, i);
    if i < |t.items| && t.items[i].key == key {
      FoundInNode(t, key, i);
    } else {
      HasBelow(t, key, i);
      assert r + [] == r;
    }
  }

  lemma FoundInNode(t: T, key: Key, i: nat)
    requires t.Node? && |t.kids| == |t.items| + 1 && i < |t.items| && t.items[i].key == key && Sorted(InOrder(t))
    ensures Has(InOrder(t), key) && Lookup(InOrder(t), key) == t.items[i].val && !Has(InOrder(t.kids[i]), key)
  {
    hide Flat;
    LessIsStrictTotalOrder();
    var li, lk := t.items[..i], t.kids[..i + 1];
    var l, rest := Flat(li, lk), Flat(t.items[i + 1..], t.kids[i + 1..]);
    FlatCut(t.items, t.kids, i);
    SortedAround(l, t.items[i], rest);
    HasAt(l, t.items[i], rest);
    SortedNode(t.items, t.kids);
    LastKidOut(li, lk);
    NotInLeft(Before(li, lk, i), InOrder(t.kids[i]), key);
  }

  lemma NotInLeft(a: seq<I>, b: seq<I>, key: Key)
    requires AllBelow(a + b, key) && Sorted(b)
    ensures !Has(b, key)
  {
    LessIsStrictTotalOrder();
    assert forall i | 0 <= i < |b| :: (a + b)[|a| + i] == b[i];
  }

  lemma FoundEnd(disk: map<int, NodeV>, whole: T, t: T, h: nat, m: int, p: int, key: Key, result: seq<int>, ordered: bool)
    requires p == -1 && Repr(disk, p, t) && Shape(t, h, m)
    requires ordered ==> FoundSoFar(whole, t, key, result)
    ensures ordered ==>
      var all := ToMap(InOrder(whole));
      result == if key in all then [all[key].valset] else []
  {
    if ordered {
      ToMapLooksUp(InOrder(whole), key);
    }
  }

  lemma KidsItemsStart(kids: seq<T>)
    ensures KidsItems(kids[..0]) == multiset{}
  {
  }

  lemma KidsItemsNext(kids: seq<T>, i: nat)
    requires i < |kids|
    ensures KidsItems(kids[..i + 1]) == KidsItems(kids[..i]) + multiset(InOrder(kids[i]))
  {
    KidsItemsAt(kids[..i + 1], i);
    assert kids[..i + 1][..i] == kids[..i] && kids[..i + 1][i + 1..] == [];
  }

  lemma InOrderItems(t: T)
    ensures t == Nil ==> InOrder(t) == []
    ensures t.Node? ==> InOrder(t) == Flat(t.items, t.kids)
  {
  }
}
