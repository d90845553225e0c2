/**
 * Search trees in which equal keys are allowed: what keeps their in-order
 * sequence in search order.
 */
module OrderedTree {
  import opened Order
  import opened SearchTree

  /** Nothing in b is below anything in a. */
  ghost predicate Follows<V(!new)>(a: seq<Item<V>>, b: seq<Item<V>>) {
    forall x, y | x in a && y in b :: !Less(y.key, x.key)
  }

  lemma OrderConcat<V(!new)>(a: seq<Item<V>>, b: seq<Item<V>>)
    ensures InSearchOrder(a + b) <==> InSearchOrder(a) && InSearchOrder(b) && Follows(a, b)
  {
    var s := a + b;
    assert forall i | 0 <= i < |a| :: s[i] == a[i];
    assert forall i | 0 <= i < |b| :: s[|a| + i] == b[i];
    if InSearchOrder(s) {
      forall i, j | 0 <= i < j < |b| ensures !Less(b[j].key, b[i].key) {
        assert !Less(s[|a| + j].key, s[|a| + i].key);
      }
      forall x, y | x in a && y in b ensures !Less(y.key, x.key) {
        var i :| 0 <= i < |a| && a[i] == x;
        var j :| 0 <= j < |b| && b[j] == y;
        assert !Less(s[|a| + j].key, s[i].key);
      }
    }
    if InSearchOrder(a) && InSearchOrder(b) && Follows(a, b) {
      forall i, j | 0 <= i < j < |s| ensures !Less(s[j].key, s[i].key) {
        if i < |a| <= j {
          assert a[i] in a && b[j - |a|] in b;
        } else if |a| <= i {
          assert !Less(b[j - |a|].key, b[i - |a|].key);
        }
      }
    }
  }

  lemma FollowsConcat<V(!new)>(a: seq<Item<V>>, b: seq<Item<V>>, c: seq<Item<V>>)
    ensures Follows(a + b, c) <==> Follows(a, c) && Follows(b, c)
  {
    assert forall x :: x in a + b <==> x in a || x in b;
  }

  lemma OrderAround<V(!new)>(a: seq<Item<V>>, m: seq<Item<V>>, b: seq<Item<V>>)
    ensures InSearchOrder(a + m + b) <==>
      InSearchOrder(a) && InSearchOrder(m) && InSearchOrder(b) && Follows(a, m) && Follows(m, b) && Follows(a, b)
  {
    OrderConcat(a, m);
    OrderConcat(a + m, b);
    FollowsConcat(a, m, b);
  }

  /** Where x belongs into a segment, only the segment has to stay in order. */
  lemma OrderReplaced<V(!new)>(a: seq<Item<V>>, m: seq<Item<V>>, m': seq<Item<V>>, b: seq<Item<V>>, x: Item<V>)
    requires InSearchOrder(a + m + b) && multiset(m') == multiset(m) + multiset{x}
    requires Follows(a, [x]) && Follows([x], b)
    ensures InSearchOrder(a + m' + b) <==> InSearchOrder(m')
  {
    OrderAround(a, m, b);
    OrderAround(a, m', b);
    forall y | y in m' ensures y in m || y == x {
      assert y in multiset(m');
    }
    assert x in [x];
  }

  lemma {:induction false} OrderedItems<V(!new)>(items: seq<Item<V>>, kids: seq<Tree<V>>)
    requires |kids| == |items| + 1 && InSearchOrder(Flat(items, kids))
    ensures InSearchOrder(items)
  {
    if items != [] {
      var rest := Flat(items[1..], kids[1..]);
      assert Flat(items, kids) == InOrder(kids[0]) + [items[0]] + rest;
      OrderAround(InOrder(kids[0]), [items[0]], rest);
      OrderedItems(items[1..], kids[1..]);
      ItemsInFlat(items[1..], kids[1..]);
      hide Flat, InOrder;
      assert items == [items[0]] + items[1..];
      forall x, y | x in [items[0]] && y in items[1..] ensures !Less(y.key, x.key) {
        assert y in rest;
      }
      OrderConcat([items[0]], items[1..]);
    }
  }

  /** A node in search order: its items, its children, and what lies where. */
  lemma OrderedNode<V(!new)>(items: seq<Item<V>>, kids: seq<Tree<V>>, i: nat)
    requires |kids| == |items| + 1 && i <= |items| && InSearchOrder(Flat(items, kids))
    ensures InSearchOrder(items) && InSearchOrder(InOrder(kids[i]))
    ensures Follows(Before(items, kids, i), InOrder(kids[i])) && Follows(InOrder(kids[i]), After(items, kids, i))
  {
    OrderedItems(items, kids);
    FlatAt(items, kids, i);
    OrderAround(Before(items, kids, i), InOrder(kids[i]), After(items, kids, i));
  }

  /** The child at the lower bound is where an item with this key belongs. */
  lemma Belongs<V(!new)>(items: seq<Item<V>>, kids: seq<Tree<V>>, i: nat, x: Item<V>)
    requires |kids| == |items| + 1 && i <= |items| && InSearchOrder(Flat(items, kids)) && IsLowerBound(items, x.key, i)
    ensures Follows(Before(items, kids, i), [x]) && Follows([x], After(items, kids, i))
  {
    LessIsStrictTotalOrder();
    FlatAt(items, kids, i);
    var b, k, a := Before(items, kids, i), InOrder(kids[i]), After(items, kids, i);
    OrderAround(b, k, a);
    if i > 0 {
      var front := Flat(items[..i - 1], kids[..i]);
      OrderConcat(front, [items[i - 1]]);
      assert items[..i][i - 1] == items[i - 1];
      assert items[i - 1] in [items[i - 1]];
    }
    if i < |items| {
      var back := Flat(items[i + 1..], kids[i + 1..]);
      OrderConcat([items[i]], back);
      assert items[i..][0] == items[i];
      assert items[i] in [items[i]];
    }
  }

  /** ... and, apart from the item at the lower bound, the only place where it can be. */
  lemma DescendOrder<V(!new)>(items: seq<Item<V>>, kids: seq<Tree<V>>, key: Key, i: nat)
    requires |kids| == |items| + 1 && i <= |items| && InSearchOrder(Flat(items, kids)) && IsLowerBound(items, key, i)
    ensures Flat(items, kids) == Before(items, kids, i) + InOrder(kids[i]) + After(items, kids, i)
    ensures AllBelow(Before(items, kids, i), key) && NoneBelow(After(items, kids, i), key)
    ensures InSearchOrder(InOrder(kids[i]))
    ensures i < |items| ==> After(items, kids, i) == [items[i]] + Flat(items[i + 1..], kids[i + 1..])
  {
    LessIsStrictTotalOrder();
    FlatAt(items, kids, i);
    var b, k, a := Before(items, kids, i), InOrder(kids[i]), After(items, kids, i);
    OrderAround(b, k, a);
    if i > 0 {
      assert b[|b| - 1] == items[i - 1] == items[..i][i - 1];
    }
    if i < |items| {
      assert a[0] == items[i] == items[i..][0];
    }
  }

  lemma RankIsLowerBound<V(!new)>(items: seq<Item<V>>, key: Key)
    requires InSearchOrder(items)
    ensures IsLowerBound(items, key, Rank(items, key))
  {
    if items != [] && Less(items[0].key, key) {
      var r := Rank(items[1..], key);
      RankIsLowerBound(items[1..], key);
      assert items[..r + 1] == [items[0]] + items[1..][..r] && items[r + 1..] == items[1..][r..];
    } else if items != [] {
      LessIsStrictTotalOrder();
      forall k | 0 <= k < |items| ensures !Less(items[k].key, key) {
        assert k > 0 ==> !Less(items[k].key, items[0].key);
      }
    }
  }

  /** Strictly sorted is in search order. */
  lemma SortedInOrder<V(!new)>(s: seq<Item<V>>)
    requires Sorted(s)
    ensures InSearchOrder(s)
  {
    LessIsStrictTotalOrder();
  }
}
