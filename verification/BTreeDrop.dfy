/**
 * What a deletion from the secondary index takes away: with unique keys the item
 * with the key, and nothing else; with equal keys one item of the run of equal
 * ones, but not always without overwriting another.
 */
module BTreeDrop {
  import opened Order
  import opened SearchTree
  import opened OrderedTree
  import opened BTreeNode
  import opened BTreeSpec
  import opened BTreeOrder
  import opened BTreeDeletion

  /** One key less, in the same order: from the first item with the key on, each
      item is the next one of before, or the one of before if that and the next
      both have the key. */
  ghost predicate Shifted(s: seq<I>, s': seq<I>, key: Key) {
    var r := Rank(s, key);
    && Has(s, key) && |s'| == |s| - 1 && s'[..r] == s[..r]
    && forall k | r <= k < |s'| :: Slid(s, s', key, k)
  }

  ghost predicate Slid(s: seq<I>, s': seq<I>, key: Key, k: nat) {
    k < |s'| && k + 1 < |s| && (s'[k] == s[k + 1] || (s'[k] == s[k] && s[k].key == s[k + 1].key == key))
  }

  lemma ShiftedInside(a: seq<I>, s: seq<I>, s': seq<I>, b: seq<I>, key: Key)
    requires AllBelow(a, key) && Shifted(s, s', key)
    ensures Shifted(a + s + b, a + s' + b, key)
  {
    var t, t', r := a + s + b, a + s' + b, Rank(s, key);
    RankWithin(a, s, b, key);
    assert forall k | 0 <= k < |s| :: t[|a| + k] == s[k];
    assert forall k | 0 <= k < |s'| :: t'[|a| + k] == s'[k];
    assert t'[..|a| + r] == a + s'[..r] && t[..|a| + r] == a + s[..r];
    forall k | |a| + r <= k < |t'|
      ensures Slid(t, t', key, k)
    {
      if k < |a| + |s'| {
        assert Slid(s, s', key, k - |a|);
        assert t'[k] == s'[k - |a|] && t[k] == s[k - |a|] && t[k + 1] == s[k + 1 - |a|];
      } else {
        assert t'[k] == b[k - |a| - |s'|] == t[k + 1];
      }
    }
  }

  lemma RankWithin(a: seq<I>, s: seq<I>, b: seq<I>, key: Key)
    requires AllBelow(a, key) && Has(s, key)
    ensures Rank(a + s + b, key) == |a| + Rank(s, key) && Has(a + s + b, key)
  {
    assert a + s + b == a + (s + b);
    RankAt(a, s + b, key);
    RankInFront(s, b, key);
  }

  lemma {:induction false} RankInFront(s: seq<I>, b: seq<I>, key: Key)
    requires Has(s, key)
    ensures Rank(s + b, key) == Rank(s, key)
  {
    if Less(s[0].key, key) {
      assert (s + b)[1..] == s[1..] + b;
      RankInFront(s[1..], b, key);
    }
  }

  // ----- one step of the search -----

  /** The search goes on below. */
  lemma DroppedOn(t: T, h: nat, key: Key)
    requires Shape(t, h, 1) && 1 < h && Exact(InOrder(t), key) && Has(InOrder(t), key) && !Hit(t, key)
    ensures var i := Rank(t.items, key);
      var b, kid, a := Before(t.items, t.kids, i), t.kids[i], After(t.items, t.kids, i);
      && Shape(kid, h - 1, 1) && Exact(InOrder(kid), key) && Has(InOrder(kid), key)
      && AllBelow(b, key) && InOrder(t) == b + InOrder(kid) + a
      && Dropped(t, h, key) == b + Dropped(kid, h - 1, key) + a
      && NoneBelow(a, key) && (a != [] ==> a[0].key != key)
  {
    var i := Rank(t.items, key);
    OrderedItems(t.items, t.kids);
    RankIsLowerBound(t.items, key);
    DownShape(t, h, i);
    ExactKid(t, i, key);
    HasInKid(t, i, key);
    DescendOrder(t.items, t.kids, key, i);
    hide Flat;
  }

  /** The search stops at an item above the leaves. */
  lemma DroppedAt(t: T, h: nat, key: Key)
    requires Shape(t, h, 1) && 1 < h && Exact(InOrder(t), key) && Hit(t, key)
    ensures var i := Rank(t.items, key);
      var b, kid, x, a := Before(t.items, t.kids, i), t.kids[i], t.items[i], Flat(t.items[i + 1..], t.kids[i + 1..]);
      && kid.Node? && RightSpine(kid) && Shape(Rekeyed(kid, key), h - 1, 1)
      && Exact(InOrder(Rekeyed(kid, key)), key) && Has(InOrder(Rekeyed(kid, key)), key)
      && InSearchOrder(InOrder(kid)) && (forall y <- InOrder(kid) :: !Less(key, y.key))
      && AllBelow(b, key) && InOrder(t) == b + InOrder(kid) + ([x] + a) && a != []
      && Dropped(t, h, key) == b + Dropped(Rekeyed(kid, key), h - 1, key) + ([LastItem(kid)] + a)
  {
    var i := Rank(t.items, key);
    OrderedItems(t.items, t.kids);
    RankIsLowerBound(t.items, key);
    DownShape(t, h, i);
    ExactItem(t, h, 1, i, key);
    RekeyedExact(t, h, i, key);
    LeftBelow(t, i);
    RekeyedShape(t.kids[i], h - 1, INDEX_MSIZE, key);
    ShapeMonotone(Rekeyed(t.kids[i], key), h - 1, INDEX_MSIZE, 1);
    DescendOrder(t.items, t.kids, key, i);
    FlatNonempty(t, h, 1, i);
    hide Flat, Rekeyed, LastItem, Strlcpy, Exact, Shape, RightSpine;
    DroppedHit(t, h, i, key, key);
  }

  /** In a leaf the item at the rank goes. */
  lemma DroppedLeaf(t: T, key: Key)
    requires Shape(t, 1, 1) && Has(InOrder(t), key)
    ensures InOrder(t) == t.items && Dropped(t, 1, key) == Del(t.items, key)
  {
    assert forall i | 0 <= i < |t.kids| :: Shape(t.kids[i], 0, INDEX_MSIZE);
    FlatLeaf(t.items, t.kids);
    var t' := LeafWithout(t, Rank(t.items, key));
    FlatLeaf(t'.items, t'.kids);
  }

  // ----- what every deletion does -----

  /** The left subtree k with its last key overwritten, and the item x to its right. */
  lemma ShiftedSwap(k: seq<I>, k': seq<I>, x: I, key: Key)
    requires k != [] && x.key == key && InSearchOrder(k) && (forall y <- k :: !Less(key, y.key))
    requires var p := k[|k| - 1];
      Shifted(k[..|k| - 1] + [Item(key, p.val)], k', key)
    ensures Shifted(k + [x], k' + [k[|k| - 1]], key)
  {
    var n := |k| - 1;
    var p := k[n];
    if p.key == key {
      assert k[..n] + [Item(key, p.val)] == k;
      ShiftedLast(k, k', x, key);
    } else {
      assert p in k;
      AllBelowLast(k, key);
      RekeyedGoes(k, k', p, key);
      assert k' + [p] == k;
      ShiftedTail(k, x, key);
    }
  }

  /** The last item moves up and stays where it was as well. */
  lemma ShiftedLast(k: seq<I>, k': seq<I>, x: I, key: Key)
    requires Shifted(k, k', key) && x.key == key == k[|k| - 1].key
    ensures Shifted(k + [x], k' + [k[|k| - 1]], key)
  {
    RankInFront(k, [x], key);
    var s, s' := k + [x], k' + [k[|k| - 1]];
    assert s'[..Rank(k, key)] == k'[..Rank(k, key)] == k[..Rank(k, key)] == s[..Rank(k, key)];
    assert forall j | 0 <= j < |k| :: s[j] == k[j];
    assert forall j | 0 <= j < |k'| :: s'[j] == k'[j];
    var r := Rank(k, key);
    forall j | r <= j < |s'| ensures Slid(s, s', key, j) {
      assert j < |k'| ==> Slid(k, k', key, j);
    }
  }

  lemma ShiftedTail(k: seq<I>, x: I, key: Key)
    requires AllBelow(k, key) && x.key == key
    ensures Shifted(k + [x], k, key)
  {
    LessIsStrictTotalOrder();
    RankAt(k, [x], key);
  }

  lemma AllBelowLast(k: seq<I>, key: Key)
    requires k != [] && InSearchOrder(k) && !Less(key, k[|k| - 1].key) && k[|k| - 1].key != key
    ensures AllBelow(k, key)
  {
    LessIsStrictTotalOrder();
    var p := k[|k| - 1];
    assert forall j | 0 <= j < |k| - 1 :: !Less(p.key, k[j].key);
  }

  lemma RekeyedGoes(k: seq<I>, k': seq<I>, p: I, key: Key)
    requires k != [] && p == k[|k| - 1] && AllBelow(k, key) && Shifted(k[..|k| - 1] + [Item(key, p.val)], k', key)
    ensures k' == k[..|k| - 1]
  {
    var n := |k| - 1;
    LessIsStrictTotalOrder();
    RankAt(k[..n], [Item(key, p.val)], key);
    assert (k[..n] + [Item(key, p.val)])[..n] == k[..n];
  }

  /** A deletion takes one key out, keeps the order, and leaves all other keys'
      items as they are. */
  lemma {:induction false} DroppedShifts(t: T, h: nat, key: Key)
    requires Shape(t, h, 1) && Exact(InOrder(t), key) && Has(InOrder(t), key)
    ensures Shifted(InOrder(t), Dropped(t, h, key), key)
    decreases h
  {
    hide Shape, InOrder, Dropped, Exact, Shifted, Has, Rekeyed, LastItem, RightSpine, InSearchOrder;
    NotEmpty(t, h, key);
    if h == 1 {
      DroppedLeaf(t, key);
      ShiftedDel(t.items, key);
    } else {
      var i := Rank(t.items, key);
      var b := Before(t.items, t.kids, i);
      if Hit(t, key) {
        DroppedAt(t, h, key);
        var kid, x, a := t.kids[i], t.items[i], Flat(t.items[i + 1..], t.kids[i + 1..]);
        DroppedShifts(Rekeyed(kid, key), h - 1, key);
        RekeyedInOrder(kid, key);
        var k, k' := InOrder(kid), Dropped(Rekeyed(kid, key), h - 1, key);
        ShiftedSwap(k, k', x, key);
        ShiftedInside(b, k + [x], k' + [LastItem(kid)], a, key);
        Join(b, k, x, a);
        Join(b, k', LastItem(kid), a);
      } else {
        DroppedOn(t, h, key);
        DroppedShifts(t.kids[i], h - 1, key);
        ShiftedInside(b, InOrder(t.kids[i]), Dropped(t.kids[i], h - 1, key), After(t.items, t.kids, i), key);
      }
    }
  }

  lemma NotEmpty(t: T, h: nat, key: Key)
    requires Shape(t, h, 1) && Has(InOrder(t), key)
    ensures h > 0 && t.Node? && |t.kids| == |t.items| + 1
  {
  }

  lemma Join(b: seq<I>, k: seq<I>, x: I, a: seq<I>)
    ensures b + (k + [x]) + a == b + k + ([x] + a)
  {
  }

  lemma ShiftedDel(s: seq<I>, key: Key)
    requires Has(s, key)
    ensures Shifted(s, Del(s, key), key)
  {
    var r, d := Rank(s, key), Del(s, key);
    assert d[..r] == s[..r];
    forall k | r <= k < |d| ensures Slid(s, d, key, k) {
      assert d[k] == s[r + 1..][k - r];
    }
  }

  lemma ShiftedOrder(s: seq<I>, s': seq<I>, key: Key)
    requires Shifted(s, s', key) && InSearchOrder(s)
    ensures InSearchOrder(s') && (AllSized(s) ==> AllSized(s'))
  {
    var r := Rank(s, key);
    assert forall k | 0 <= k < r :: s'[k] == s'[..r][k] == s[k];
    forall k | 0 <= k < |s'| ensures AllSized(s) ==> Sized(s'[k]) {
      assert r <= k ==> Slid(s, s', key, k);
    }
    forall i, j | 0 <= i < j < |s'| ensures !Less(s'[j].key, s'[i].key) {
      var i', j' := if i < r then i else i + 1, if j < r then j else j + 1;
      assert (r <= i ==> Slid(s, s', key, i)) && (r <= j ==> Slid(s, s', key, j));
      assert s'[i].key == s[i'].key && s'[j].key == s[j'].key;
    }
  }

  /** With strictly sorted keys it is deletion of the one item. */
  lemma ShiftedSorted(s: seq<I>, s': seq<I>, key: Key)
    requires Shifted(s, s', key) && Sorted(s)
    ensures s' == Del(s, key)
  {
    LessIsStrictTotalOrder();
    var r := Rank(s, key);
    assert forall k | 0 <= k < r :: s'[k] == s'[..r][k] == s[k];
    forall k | r <= k < |s'| ensures s'[k] == s[k + 1] {
      assert Slid(s, s', key, k) && Less(s[k].key, s[k + 1].key);
    }
  }

  /** What btree_delete means for the key -> value map. */
  lemma DeleteMeaning(code: Status, t: T, h: nat, t': T, key: Key)
    requires DeleteOutcome(code, t, h, 1, t', key) && Shape(t, h, 1)
    ensures code == SUCCESS || code == UNDERFLOW || code == NOTFOUND
    ensures if code == UNDERFLOW then Starved(t', h, 1) else Shape(t', h, 1)
    ensures Exact(InOrder(t), key) ==> (code == NOTFOUND <==> !Has(InOrder(t), key)) && InSearchOrder(InOrder(t'))
    ensures Exact(InOrder(t), key) && code == NOTFOUND ==> t' == t
    ensures Exact(InOrder(t), key) && AllSized(InOrder(t)) ==> AllSized(InOrder(t'))
    ensures Exact(InOrder(t), key) && code != NOTFOUND ==>
      InOrder(t') == Dropped(t, h, key) && Shifted(InOrder(t), InOrder(t'), key)
    ensures Exact(InOrder(t), key) && Sorted(InOrder(t)) ==>
      Sorted(InOrder(t')) && (code == NOTFOUND <==> key !in ToMap(InOrder(t)))
    ensures Exact(InOrder(t), key) && Sorted(InOrder(t)) && code != NOTFOUND ==>
      InOrder(t') == Del(InOrder(t), key) && ToMap(InOrder(t')) == ToMap(InOrder(t)) - {key}
  {
    hide Shape, InOrder, Dropped, Shifted, Sorted, Has, Del, ToMap, Starved;
    if Exact(InOrder(t), key) {
      if code != NOTFOUND {
        DroppedShifts(t, h, key);
        ShiftedOrder(InOrder(t), InOrder(t'), key);
      }
      if Sorted(InOrder(t)) {
        ToMapLooksUp(InOrder(t), key);
        if code != NOTFOUND {
          ShiftedSorted(InOrder(t), InOrder(t'), key);
          DelSorted(InOrder(t), key);
          DelIsRemoval(InOrder(t), key);
        }
      }
    }
  }

  // ----- which deletions lose an item -----

  /** The search stops above the leaves, right of two items or more with the key. */
  ghost predicate Muddled(t: T, h: nat, key: Key)
    decreases h
  {
    && 1 < h && Shape(t, h, 1)
    && var i := Rank(t.items, key);
    if Hit(t, key) then Copies(InOrder(t.kids[i]), key) >= 2 else Muddled(t.kids[i], h - 1, key)
  }

  /** One item with the key is gone, and no other is lost or doubled. */
  ghost predicate TakesOne(s: seq<I>, s': seq<I>, key: Key) {
    exists x :: x in s && x.key == key && multiset(s) == multiset(s') + multiset{x}
  }

  lemma TakesOneInside(b: seq<I>, s: seq<I>, s': seq<I>, a: seq<I>, key: Key)
    requires TakesOne(s, s', key)
    ensures TakesOne(b + s + a, b + s' + a, key)
  {
    var x :| x in s && x.key == key && multiset(s) == multiset(s') + multiset{x};
    assert x in b + s + a && multiset(b + s + a) == multiset(b + s' + a) + multiset{x};
  }

  lemma TakesFirst(s: seq<I>, key: Key)
    requires Has(s, key)
    ensures TakesOne(s, Del(s, key), key)
  {
    var r := Rank(s, key);
    assert s == s[..r] + [s[r]] + s[r + 1..];
    assert s[r] in s;
  }

  lemma KeyCounted(s: seq<I>, key: Key, i: nat)
    requires i < |s| && s[i].key == key
    ensures Copies(s, key) == Copies(s[..i], key) + 1 + Copies(s[i + 1..], key)
  {
    CountsConcat(s[..i] + [s[i]], s[i + 1..], key);
    CountsConcat(s[..i], [s[i]], key);
    assert s == s[..i] + [s[i]] + s[i + 1..];
    assert Copies([s[i]], key) == 1;
  }

  /** One item with the key at most, at the end. */
  lemma OnlyLast(k: seq<I>, key: Key)
    requires k != [] && InSearchOrder(k) && (forall y <- k :: !Less(key, y.key)) && Copies(k, key) <= 1
    ensures AllBelow(k[..|k| - 1], key)
  {
    LessIsStrictTotalOrder();
    var n := |k| - 1;
    forall j | 0 <= j < n ensures Less(k[j].key, key) {
      assert k[j] in k && k[n] in k;
      if k[j].key == key {
        assert !Less(k[n].key, k[j].key) && k[n].key == key;
        KeyCounted(k, key, n);
        KeyCounted(k[..n], key, j);
      }
    }
  }

  /** With at most one equal item to its left, the item is the one that goes. */
  lemma {:induction false} CleanTakesOne(t: T, h: nat, key: Key)
    requires Shape(t, h, 1) && Exact(InOrder(t), key) && Has(InOrder(t), key) && !Muddled(t, h, key)
    ensures TakesOne(InOrder(t), Dropped(t, h, key), key)
    decreases h
  {
    hide InOrder, Dropped, Exact, Shifted, Has, Rekeyed, LastItem, RightSpine, InSearchOrder, TakesOne;
    NotEmpty(t, h, key);
    if h == 1 {
      DroppedLeaf(t, key);
      TakesFirst(t.items, key);
    } else {
      hide Shape;
      var i := Rank(t.items, key);
      var b := Before(t.items, t.kids, i);
      if Hit(t, key) {
        DroppedAt(t, h, key);
        var kid, x, a := t.kids[i], t.items[i], Flat(t.items[i + 1..], t.kids[i + 1..]);
        RekeyedInOrder(kid, key);
        DroppedShifts(Rekeyed(kid, key), h - 1, key);
        var k, k' := InOrder(kid), Dropped(Rekeyed(kid, key), h - 1, key);
        OnlyLast(k, key);
        RekeyedLast(k, k', LastItem(kid), key);
        ItemGone(b, k, x, a, key);
        assert b + k' + ([LastItem(kid)] + a) == b + k + a by {
          assert k' + [LastItem(kid)] == k;
          Join(b, k', LastItem(kid), a);
        }
      } else {
        DroppedOn(t, h, key);
        CleanTakesOne(t.kids[i], h - 1, key);
        TakesOneInside(b, InOrder(t.kids[i]), Dropped(t.kids[i], h - 1, key), After(t.items, t.kids, i), key);
      }
    }
  }

  lemma RekeyedLast(k: seq<I>, k': seq<I>, p: I, key: Key)
    requires k != [] && p == k[|k| - 1] && AllBelow(k[..|k| - 1], key)
    requires Shifted(k[..|k| - 1] + [Item(key, p.val)], k', key)
    ensures k' + [p] == k
  {
    var n := |k| - 1;
    LessIsStrictTotalOrder();
    RankAt(k[..n], [Item(key, p.val)], key);
    assert (k[..n] + [Item(key, p.val)])[..n] == k[..n];
  }

  lemma ItemGone(b: seq<I>, k: seq<I>, x: I, a: seq<I>, key: Key)
    requires x.key == key
    ensures TakesOne(b + k + ([x] + a), b + k + a, key)
  {
    assert x in b + k + ([x] + a);
  }

  /** The last of two or more items with the key stays last. */
  lemma {:induction false} LastStays(t: T, h: nat, key: Key)
    requires Shape(t, h, 1) && Exact(InOrder(t), key) && Has(InOrder(t), key) && Copies(InOrder(t), key) >= 2
    requires InOrder(t)[|InOrder(t)| - 1].key == key
    ensures LastKept(InOrder(t), Dropped(t, h, key))
    decreases h
  {
    NotEmpty(t, h, key);
    hide *;
    if h == 1 {
      DroppedLeaf(t, key);
      LastOfDel(t.items, key);
    } else if Hit(t, key) {
      LastStaysAt(t, h, key);
    } else {
      BelowReady(t, h, key);
      LastBelow(t, h, key);
      LastStays(t.kids[Rank(t.items, key)], h - 1, key);
      LastStaysOn(t, h, key);
    }
  }

  lemma BelowReady(t: T, h: nat, key: Key)
    requires Shape(t, h, 1) && 1 < h && Exact(InOrder(t), key) && Has(InOrder(t), key) && !Hit(t, key) && |t.kids| == |t.items| + 1
    ensures var kid := t.kids[Rank(t.items, key)];
      Shape(kid, h - 1, 1) && Exact(InOrder(kid), key) && Has(InOrder(kid), key)
  {
    DroppedOn(t, h, key);
    hide *;
  }

  /** The last item, if it has the key, is in the child the search goes down to. */
  lemma LastBelow(t: T, h: nat, key: Key)
    requires Shape(t, h, 1) && 1 < h && Exact(InOrder(t), key) && Has(InOrder(t), key) && !Hit(t, key) && |t.kids| == |t.items| + 1
    requires Copies(InOrder(t), key) >= 2 && InOrder(t)[|InOrder(t)| - 1].key == key
    ensures var i := Rank(t.items, key);
      var k := InOrder(t.kids[i]);
      After(t.items, t.kids, i) == [] && Copies(k, key) >= 2 && k != [] && k[|k| - 1].key == key
  {
    var i := Rank(t.items, key);
    DroppedOn(t, h, key);
    ExactOrder(InOrder(t), key);
    hide *;
    LastInKid(Before(t.items, t.kids, i), InOrder(t.kids[i]), After(t.items, t.kids, i), key);
  }

  lemma LastStaysOn(t: T, h: nat, key: Key)
    requires Shape(t, h, 1) && 1 < h && Exact(InOrder(t), key) && Has(InOrder(t), key) && !Hit(t, key) && |t.kids| == |t.items| + 1
    requires var i := Rank(t.items, key);
      After(t.items, t.kids, i) == [] && LastKept(InOrder(t.kids[i]), Dropped(t.kids[i], h - 1, key))
    ensures LastKept(InOrder(t), Dropped(t, h, key))
  {
    var i := Rank(t.items, key);
    var b, k, k' := Before(t.items, t.kids, i), InOrder(t.kids[i]), Dropped(t.kids[i], h - 1, key);
    DroppedOn(t, h, key);
    hide *;
    LastKeptBehind(b, k, k');
    NothingBehind(b + k, After(t.items, t.kids, i));
    NothingBehind(b + k', After(t.items, t.kids, i));
  }

  ghost predicate LastKept(s: seq<I>, s': seq<I>) {
    s != [] && s' != [] && s'[|s'| - 1] == s[|s| - 1]
  }

  lemma ExactOrder(s: seq<I>, key: Key)
    requires Exact(s, key)
    ensures InSearchOrder(s)
  {
  }

  lemma NothingBehind(s: seq<I>, a: seq<I>)
    requires a == []
    ensures s + a == s
  {
  }

  lemma LastKeptBehind(b: seq<I>, k: seq<I>, k': seq<I>)
    requires LastKept(k, k')
    ensures LastKept(b + k, b + k')
  {
  }

  lemma LastStaysAt(t: T, h: nat, key: Key)
    requires Shape(t, h, 1) && 1 < h && Exact(InOrder(t), key) && Hit(t, key) && t.Node? && |t.kids| == |t.items| + 1
    ensures LastKept(InOrder(t), Dropped(t, h, key))
  {
    DroppedAt(t, h, key);
    var i := Rank(t.items, key);
    var b, kid, a := Before(t.items, t.kids, i), t.kids[i], Flat(t.items[i + 1..], t.kids[i + 1..]);
    var x, k' := t.items[i], Dropped(Rekeyed(kid, key), h - 1, key);
    hide InOrder, Dropped, Exact, Has, Rekeyed, LastItem, RightSpine, InSearchOrder, Shape, Flat, Before, LastKept;
    LastSame(b + InOrder(kid), x, b + k', LastItem(kid), a);
  }

  lemma LastSame(u: seq<I>, x: I, v: seq<I>, y: I, a: seq<I>)
    requires a != []
    ensures LastKept(u + ([x] + a), v + ([y] + a))
  {
  }

  lemma LastOfDel(s: seq<I>, key: Key)
    requires Has(s, key) && Copies(s, key) >= 2
    ensures LastKept(s, Del(s, key))
  {
    var r := Rank(s, key);
    RankFirst(s, key);
    KeyCounted(s, key, r);
  }

  lemma {:induction false} RankFirst(s: seq<I>, key: Key)
    ensures Copies(s[..Rank(s, key)], key) == 0
  {
    if s != [] && Less(s[0].key, key) {
      LessIsStrictTotalOrder();
      RankFirst(s[1..], key);
      var r := Rank(s, key);
      assert s[..r][1..] == s[1..][..r - 1];
    }
  }

  lemma NoCopiesBelow(s: seq<I>, key: Key)
    requires AllBelow(s, key)
    ensures Copies(s, key) == 0
  {
    LessIsStrictTotalOrder();
    RankAt(s, [], key);
    assert s + [] == s;
    RankFirst(s, key);
  }

  lemma LastInKid(b: seq<I>, k: seq<I>, a: seq<I>, key: Key)
    requires AllBelow(b, key) && NoneBelow(a, key) && (a != [] ==> a[0].key != key)
    requires InSearchOrder(b + k + a) && Copies(b + k + a, key) >= 2 && (b + k + a)[|b + k + a| - 1].key == key
    ensures a == [] && Copies(k, key) >= 2 && k != [] && k[|k| - 1].key == key
  {
    LessIsStrictTotalOrder();
    EndsAbove(b, k, a, key);
    assert b + k + a == b + k;
    CountsConcat(b, k, key);
    NoCopiesBelow(b, key);
  }

  lemma EndsAbove(b: seq<I>, k: seq<I>, a: seq<I>, key: Key)
    requires NoneBelow(a, key) && (a != [] ==> a[0].key != key) && InSearchOrder(b + k + a)
    ensures a != [] ==> Less(key, (b + k + a)[|b + k + a| - 1].key)
  {
    LessIsStrictTotalOrder();
    OrderConcat(b + k, a);
    assert |a| > 1 ==> !Less(a[|a| - 1].key, a[0].key);
  }

  /** The items with this key all differ. */
  ghost predicate Distinct(s: seq<I>, key: Key) {
    forall i, j | 0 <= i < j < |s| && s[i].key == s[j].key == key :: s[i] != s[j]
  }

  lemma DistinctInside(b: seq<I>, k: seq<I>, a: seq<I>, key: Key)
    requires Distinct(b + k + a, key)
    ensures Distinct(k, key)
  {
    var s := b + k + a;
    assert forall i | 0 <= i < |k| :: s[|b| + i] == k[i];
  }

  lemma {:induction false} DistinctOnce(s: seq<I>, key: Key, x: I)
    requires Distinct(s, key) && x.key == key
    ensures multiset(s)[x] <= 1
  {
    if s != [] {
      var n := |s| - 1;
      DistinctInside([], s[..n], [s[n]], key);
      assert [] + s[..n] + [s[n]] == s;
      DistinctOnce(s[..n], key, x);
      assert multiset(s) == multiset(s[..n]) + multiset{s[n]};
      if s[n] == x {
        assert x !in s[..n];
      }
    }
  }

  lemma Doubled(s: seq<I>, b: seq<I>, k': seq<I>, p: I, a: seq<I>, key: Key)
    requires k' != [] && k'[|k'| - 1] == p && p.key == key && Distinct(s, key)
    ensures !TakesOne(s, b + k' + ([p] + a), key)
  {
    var s', n := b + k' + ([p] + a), |k'| - 1;
    DistinctOnce(s, key, p);
    assert s' == b + k'[..n] + [p] + [p] + a;
    assert multiset(s')[p] >= 2;
  }

  /** Right of two equal items or more the item is overwritten by the one left of it,
      and another one is taken out. */
  lemma {:induction false} MuddledTakesMore(t: T, h: nat, key: Key)
    requires Shape(t, h, 1) && Exact(InOrder(t), key) && Has(InOrder(t), key) && Muddled(t, h, key) && Distinct(InOrder(t), key)
    ensures !TakesOne(InOrder(t), Dropped(t, h, key), key)
    decreases h
  {
    NotEmpty(t, h, key);
    MuddledStep(t, h, key);
    hide *;
    if Hit(t, key) {
      MuddledAt(t, h, key);
    } else {
      var i := Rank(t.items, key);
      var b, k, a := Before(t.items, t.kids, i), InOrder(t.kids[i]), After(t.items, t.kids, i);
      DroppedOn(t, h, key);
      DistinctInside(b, k, a, key);
      MuddledTakesMore(t.kids[i], h - 1, key);
      TakesOneOutside(b, k, Dropped(t.kids[i], h - 1, key), a, key);
    }
  }

  lemma MuddledStep(t: T, h: nat, key: Key)
    requires Muddled(t, h, key) && t.Node? && |t.kids| == |t.items| + 1
    ensures 1 < h
    ensures var kid := t.kids[Rank(t.items, key)];
      if Hit(t, key) then Copies(InOrder(kid), key) >= 2 else Muddled(kid, h - 1, key)
  {
  }

  lemma DroppedAtIs(t: T, h: nat, key: Key)
    requires Shape(t, h, 1) && 1 < h && Exact(InOrder(t), key) && Hit(t, key) && |t.kids| == |t.items| + 1
    ensures var i := Rank(t.items, key);
      var kid := t.kids[i];
      && kid.Node? && RightSpine(kid)
      && Dropped(t, h, key) == Before(t.items, t.kids, i) + Dropped(Rekeyed(kid, key), h - 1, key)
        + ([LastItem(kid)] + Flat(t.items[i + 1..], t.kids[i + 1..]))
  {
    DroppedAt(t, h, key);
    hide *;
  }

  lemma MuddledAt(t: T, h: nat, key: Key)
    requires Shape(t, h, 1) && 1 < h && Exact(InOrder(t), key)
    requires Hit(t, key) && |t.kids| == |t.items| + 1 && Rank(t.items, key) < |t.items|
    requires Copies(InOrder(t.kids[Rank(t.items, key)]), key) >= 2 && Distinct(InOrder(t), key)
    ensures !TakesOne(InOrder(t), Dropped(t, h, key), key)
  {
    var i := Rank(t.items, key);
    var b, kid, a := Before(t.items, t.kids, i), t.kids[i], Flat(t.items[i + 1..], t.kids[i + 1..]);
    hide *;
    LastLeft(t, h, key);
    DroppedAtIs(t, h, key);
    Doubled(InOrder(t), b, Dropped(Rekeyed(kid, key), h - 1, key), LastItem(kid), a, key);
  }

  lemma LastIs(s: seq<I>, s': seq<I>, p: I)
    requires LastKept(s, s') && p == s[|s| - 1]
    ensures s' != [] && s'[|s'| - 1] == p
  {
  }

  /** With two items or more left of the item, its predecessor has the key too, and
      stays where it is. */
  lemma LastLeft(t: T, h: nat, key: Key)
    requires Shape(t, h, 1) && 1 < h && Exact(InOrder(t), key) && Hit(t, key) && |t.kids| == |t.items| + 1
    requires Copies(InOrder(t.kids[Rank(t.items, key)]), key) >= 2
    ensures var kid := t.kids[Rank(t.items, key)];
      && kid.Node? && RightSpine(kid) && LastItem(kid).key == key
      && var k' := Dropped(Rekeyed(kid, key), h - 1, key);
      k' != [] && k'[|k'| - 1] == LastItem(kid)
  {
    var kid := t.kids[Rank(t.items, key)];
    DroppedAt(t, h, key);
    RekeyedInOrder(kid, key);
    hide *;
    TwoEndWithKey(InOrder(kid), key);
    RekeyedSame(InOrder(kid), LastItem(kid), key);
    LastStays(Rekeyed(kid, key), h - 1, key);
    LastIs(InOrder(kid), Dropped(Rekeyed(kid, key), h - 1, key), LastItem(kid));
  }

  lemma RekeyedSame(k: seq<I>, p: I, key: Key)
    requires k != [] && p == k[|k| - 1] && p.key == key
    ensures k[..|k| - 1] + [Item(key, p.val)] == k
  {
  }

  lemma TwoEndWithKey(k: seq<I>, key: Key)
    requires k != [] && InSearchOrder(k) && (forall y <- k :: !Less(key, y.key)) && Copies(k, key) >= 2
    ensures k[|k| - 1].key == key
  {
    LessIsStrictTotalOrder();
    var p := k[|k| - 1];
    assert p in k;
    BelowIfLast(k, key);
  }

  lemma BelowIfLast(k: seq<I>, key: Key)
    requires k != [] && InSearchOrder(k)
    ensures Less(k[|k| - 1].key, key) ==> Copies(k, key) == 0
  {
    LessIsStrictTotalOrder();
    assert forall j | 0 <= j < |k| - 1 :: !Less(k[|k| - 1].key, k[j].key);
    if AllBelow(k, key) {
      NoCopiesBelow(k, key);
    }
  }

  lemma TakesOneOutside(b: seq<I>, s: seq<I>, s': seq<I>, a: seq<I>, key: Key)
    ensures TakesOne(b + s + a, b + s' + a, key) ==> TakesOne(s, s', key)
  {
    if TakesOne(b + s + a, b + s' + a, key) {
      var x :| x in b + s + a && x.key == key && multiset(b + s + a) == multiset(b + s' + a) + multiset{x};
      assert multiset(b + s + a) == multiset(b) + multiset(s) + multiset(a);
      assert multiset(b + s' + a) == multiset(b) + multiset(s') + multiset(a);
      forall y ensures multiset(s)[y] == (multiset(s') + multiset{x})[y] {
        assert multiset(b + s + a)[y] == (multiset(b + s' + a) + multiset{x})[y];
      }
      assert multiset(s) == multiset(s') + multiset{x};
      assert x in multiset(s);
    }
  }

  /** With uniqueness off, and items that differ, a deletion takes exactly one item
      out if and only if the search for the key stops in a leaf, or right of at
      most one item with that key. */
  lemma TakesOneIff(t: T, h: nat, key: Key)
    requires Shape(t, h, 1) && Exact(InOrder(t), key) && Has(InOrder(t), key) && Distinct(InOrder(t), key)
    ensures TakesOne(InOrder(t), Dropped(t, h, key), key) <==> !Muddled(t, h, key)
  {
    if Muddled(t, h, key) {
      MuddledTakesMore(t, h, key);
    } else {
      CleanTakesOne(t, h, key);
    }
  }

  /** It takes three items with the key to go wrong. */
  lemma {:induction false} MuddledThree(t: T, h: nat, key: Key)
    requires Muddled(t, h, key) && Exact(InOrder(t), key)
    ensures Copies(InOrder(t), key) >= 3
    decreases h
  {
    var i := Rank(t.items, key);
    OrderedItems(t.items, t.kids);
    DownShape(t, h, i);
    ExactKid(t, i, key);
    FlatAt(t.items, t.kids, i);
    var b, k, a := Before(t.items, t.kids, i), InOrder(t.kids[i]), After(t.items, t.kids, i);
    CountsConcat(b, k, key);
    CountsConcat(b + k, a, key);
    if Hit(t, key) {
      assert a[0] == t.items[i];
    } else {
      MuddledThree(t.kids[i], h - 1, key);
    }
  }

  /** Three equal items, two of them in a leaf left of the third. */
  function Alike(a: I, b: I, c: I, d: I): T {
    Node(9, [c], [Leaf(1, [a, b]), Leaf(2, [d, d])])
  }

  /** A well-shaped index that loses two items at once and doubles a third. */
  lemma ThreeAlike(a: I, b: I, c: I, d: I)
    requires a.key == b.key == c.key && Less(c.key, d.key) && AllSized([a, b, c, d])
    ensures var t := Alike(a, b, c, d);
      && Shape(t, 2, 1) && Exact(InOrder(t), a.key) && Muddled(t, 2, a.key)
      && InOrder(t) == [a, b, c, d, d] && Dropped(t, 2, a.key) == [b, b, d, d]
  {
    var t := Alike(a, b, c, d);
    var l, r := Leaf(1, [a, b]), Leaf(2, [d, d]);
    AlikeShape(a, b, c, d);
    AlikeOrder(a, b, c, d);
    SelfNotLess(a.key);
    assert Rank(t.items, a.key) == 0 && Hit(t, a.key);
    assert Copies([a, b], a.key) == 2 by {
      assert [a, b][1..] == [b] && Copies([b], a.key) == 1;
    }
    LeafOrder(1, [a, b]);
    assert Muddled(t, 2, a.key);
    DroppedAt(t, 2, a.key);
    AlikeLeaf(a, b);
    assert t.items[1..] == [] && t.kids[1..] == [r];
    LeafOrder(2, [d, d]);
    hide InOrder, Dropped, Shape, Exact, Has, Del;
    assert Dropped(t, 2, a.key) == [] + [b] + ([b] + [d, d]);
  }

  lemma AlikeLeaf(a: I, b: I)
    requires a.key == b.key
    ensures var l := Leaf(1, [a, b]);
      Rekeyed(l, a.key) == l && Has(InOrder(l), a.key) && Shape(l, 1, 1) && Dropped(l, 1, a.key) == [b]
  {
    var l := Leaf(1, [a, b]);
    LeafShape(1, [a, b]);
    SelfNotLess(a.key);
    LeafOrder(1, [a, b]);
    assert Rekeyed(l, a.key) == l by {
      assert [a, b][1 := Item(a.key, b.val)] == [a, b];
    }
    assert Has(InOrder(l), a.key);
    ShapeMonotone(l, 1, INDEX_MSIZE, 1);
    DroppedLeaf(l, a.key);
  }

  lemma LeafOrder(off: int, items: seq<I>)
    ensures InOrder(Leaf(off, items)) == items
  {
    FlatLeaf(items, Leaf(off, items).kids);
  }

  lemma AlikeShape(a: I, b: I, c: I, d: I)
    ensures Shape(Alike(a, b, c, d), 2, 1) && Shape(Leaf(1, [a, b]), 1, INDEX_MSIZE)
  {
    LeafShape(1, [a, b]);
    LeafShape(2, [d, d]);
  }

  lemma LeafShape(off: int, items: seq<I>)
    requires |items| == 2
    ensures Shape(Leaf(off, items), 1, INDEX_MSIZE)
  {
    assert forall i | 0 <= i <= 2 :: Shape(Leaf(off, items).kids[i], 0, INDEX_MSIZE);
  }

  lemma AlikeOrder(a: I, b: I, c: I, d: I)
    requires a.key == b.key == c.key && Less(c.key, d.key) && AllSized([a, b, c, d])
    ensures InOrder(Alike(a, b, c, d)) == [a, b, c, d, d]
    ensures Exact(InOrder(Alike(a, b, c, d)), a.key) && Exact([a, b], a.key)
  {
    AlikeItems(a, b, c, d);
    AlikeSizes(a, b, c, d);
    LessIsStrictTotalOrder();
    assert InSearchOrder([a, b, c, d, d]);
  }

  lemma AlikeItems(a: I, b: I, c: I, d: I)
    ensures InOrder(Alike(a, b, c, d)) == [a, b, c, d, d]
  {
    var l, r := Leaf(1, [a, b]), Leaf(2, [d, d]);
    LeafOrder(1, [a, b]);
    LeafOrder(2, [d, d]);
    FlatOne(l, c, r);
    NodeInOrder(Alike(a, b, c, d));
    hide Flat, InOrder;
    assert InOrder(l) + [c] + InOrder(r) == [a, b, c, d, d];
  }

  lemma AlikeSizes(a: I, b: I, c: I, d: I)
    requires AllSized([a, b, c, d])
    ensures Sized(a) && Sized(b) && Sized(c)
  {
    var s := [a, b, c, d];
    assert Sized(s[0]) && Sized(s[1]) && Sized(s[2]);
  }

  lemma SelfNotLess(k: Key)
    ensures !Less(k, k)
  {
    LessIsStrictTotalOrder();
  }
}
