/**
 * Lookup with equal keys: the search collects from the nodes on one path, and
 * passes by what lies in the children to the right of it.
 */
module BTreeFound {
  import opened Order
  import opened SearchTree
  import opened OrderedTree
  import opened BTreeNode
  import opened BTreeSpec
  import opened BTreeOrder
  import opened BTreeDeletion
  import opened BTreeDrop
  import opened BTreeLookup

  /** What btree_get collects: on each node of the path the items from the lower
      bound on, and then what it finds below. */
  function Found(t: T, key: Key): seq<int> {
    if t.Nil? || |t.kids| != |t.items| + 1 then []
    else
      var i := Rank(t.items, key);
      Matches(t.items[i..], key) + Found(t.kids[i], key)
  }

  /** The value sets stored under the key. */
  ghost function Bag(s: seq<I>, key: Key): multiset<int> {
    multiset(Matches(s, key))
  }

  /** ... in a row of subtrees. */
  ghost function KidsBag(kids: seq<T>, key: Key): multiset<int> {
    if kids == [] then multiset{} else Bag(InOrder(kids[0]), key) + KidsBag(kids[1..], key)
  }

  /** What it passes by: the subtrees right of the path. */
  ghost function PassedBy(t: T, key: Key): multiset<int> {
    if t.Nil? || |t.kids| != |t.items| + 1 then multiset{}
    else
      var i := Rank(t.items, key);
      KidsBag(t.kids[i + 1..], key) + PassedBy(t.kids[i], key)
  }

  lemma BagConcat(a: seq<I>, b: seq<I>, key: Key)
    ensures Bag(a + b, key) == Bag(a, key) + Bag(b, key)
  {
    MatchesConcat(a, b, key);
  }

  lemma {:induction false} FlatBag(items: seq<I>, kids: seq<T>, key: Key)
    requires |kids| == |items| + 1
    ensures Bag(Flat(items, kids), key) == Bag(items, key) + KidsBag(kids, key)
  {
    hide Bag, InOrder;
    var k := InOrder(kids[0]);
    if items == [] {
      EmptyBag(key);
      assert kids[1..] == [];
      assert Flat(items, kids) == k;
    } else {
      var rest := Flat(items[1..], kids[1..]);
      assert Flat(items, kids) == k + [items[0]] + rest;
      FlatBag(items[1..], kids[1..], key);
      hide Flat;
      BagConcat(k + [items[0]], rest, key);
      BagConcat(k, [items[0]], key);
      BagConcat([items[0]], items[1..], key);
      assert items == [items[0]] + items[1..];
    }
  }

  lemma EmptyBag(key: Key)
    ensures Bag([], key) == multiset{}
  {
  }

  /** What lies from item i on: the items, and the children right of child i. */
  lemma AfterBag(items: seq<I>, kids: seq<T>, i: nat, key: Key)
    requires |kids| == |items| + 1 && i <= |items|
    ensures Bag(After(items, kids, i), key) == Bag(items[i..], key) + KidsBag(kids[i + 1..], key)
  {
    hide Bag;
    if i < |items| {
      var rest := Flat(items[i + 1..], kids[i + 1..]);
      assert After(items, kids, i) == [items[i]] + rest;
      FlatBag(items[i + 1..], kids[i + 1..], key);
      hide Flat;
      BagConcat([items[i]], rest, key);
      BagConcat([items[i]], items[i + 1..], key);
      assert items[i..] == [items[i]] + items[i + 1..];
    } else {
      EmptyBag(key);
      assert After(items, kids, i) == [] && items[i..] == [] && kids[i + 1..] == [];
    }
  }

  lemma BelowBag(s: seq<I>, key: Key)
    requires AllBelow(s, key)
    ensures Bag(s, key) == multiset{}
  {
    LessIsStrictTotalOrder();
    MatchesNone(s, key);
  }

  /** One step of the search: what is left of the path does not count. */
  lemma StepBag(t: T, key: Key)
    requires t.Node? && |t.kids| == |t.items| + 1 && InSearchOrder(InOrder(t))
    ensures var i := Rank(t.items, key);
      && InSearchOrder(InOrder(t.kids[i])) && IsLowerBound(t.items, key, i)
      && Bag(InOrder(t), key) == Bag(t.items[i..], key) + KidsBag(t.kids[i + 1..], key) + Bag(InOrder(t.kids[i]), key)
  {
    hide *;
    var i := Rank(t.items, key);
    var b, k, a := Before(t.items, t.kids, i), InOrder(t.kids[i]), After(t.items, t.kids, i);
    StepParts(t, key);
    AfterBag(t.items, t.kids, i, key);
    BelowBag(b, key);
    BagConcat(b + k, a, key);
    BagConcat(b, k, key);
  }

  lemma StepParts(t: T, key: Key)
    requires t.Node? && |t.kids| == |t.items| + 1 && InSearchOrder(InOrder(t))
    ensures var i := Rank(t.items, key);
      && InSearchOrder(InOrder(t.kids[i])) && IsLowerBound(t.items, key, i) && AllBelow(Before(t.items, t.kids, i), key)
      && InOrder(t) == Before(t.items, t.kids, i) + InOrder(t.kids[i]) + After(t.items, t.kids, i)
  {
    var i := Rank(t.items, key);
    OrderedItems(t.items, t.kids);
    RankIsLowerBound(t.items, key);
    DescendOrder(t.items, t.kids, key, i);
  }

  /** In search order the value sets under a key are those the search finds and
      those it passes by. */
  lemma {:induction false} FoundAndPassed(t: T, h: nat, m: int, key: Key)
    requires Shape(t, h, m) && InSearchOrder(InOrder(t))
    ensures multiset(Found(t, key)) + PassedBy(t, key) == Bag(InOrder(t), key)
    decreases h
  {
    hide *;
    KidOnPath(t, h, m, key);
    if h > 0 {
      var i := Rank(t.items, key);
      var kid := t.kids[i];
      StepBag(t, key);
      FoundAndPassed(kid, h - 1, INDEX_MSIZE, key);
      PathSplits(t, key);
      Exchange(Bag(t.items[i..], key), multiset(Found(kid, key)), KidsBag(t.kids[i + 1..], key), PassedBy(kid, key));
    } else {
      NothingFound(t, key);
    }
  }

  lemma KidOnPath(t: T, h: nat, m: int, key: Key)
    requires Shape(t, h, m)
    ensures if h == 0 then t == Nil
      else t.Node? && |t.kids| == |t.items| + 1 && Shape(t.kids[Rank(t.items, key)], h - 1, INDEX_MSIZE)
  {
  }

  lemma NothingFound(t: T, key: Key)
    requires t == Nil
    ensures Found(t, key) == [] && PassedBy(t, key) == multiset{} && Bag(InOrder(t), key) == multiset{}
  {
  }

  lemma Exchange(a: multiset<int>, f: multiset<int>, k: multiset<int>, p: multiset<int>)
    ensures (a + f) + (k + p) == a + k + (f + p)
  {
  }

  lemma PathSplits(t: T, key: Key)
    requires t.Node? && |t.kids| == |t.items| + 1
    ensures var i := Rank(t.items, key);
      && multiset(Found(t, key)) == Bag(t.items[i..], key) + multiset(Found(t.kids[i], key))
      && PassedBy(t, key) == KidsBag(t.kids[i + 1..], key) + PassedBy(t.kids[i], key)
  {
    hide Matches, KidsBag;
  }

  ghost predicate Occurs(s: seq<I>, key: Key) {
    exists i :: 0 <= i < |s| && s[i].key == key
  }

  ghost predicate OccursIn(kids: seq<T>, key: Key) {
    exists j :: 0 <= j < |kids| && Occurs(InOrder(kids[j]), key)
  }

  /** A child right of the path of the search holds the key. */
  ghost predicate RightOfPath(t: T, key: Key) {
    t.Node? && |t.kids| == |t.items| + 1 &&
    var i := Rank(t.items, key);
    OccursIn(t.kids[i + 1..], key) || RightOfPath(t.kids[i], key)
  }

  lemma {:induction false} MatchesIff(s: seq<I>, key: Key)
    ensures Bag(s, key) != multiset{} <==> Occurs(s, key)
  {
    if s != [] {
      OccursParts(s, key);
      OneBag(s[0], key);
      hide Bag, Occurs;
      MatchesIff(s[1..], key);
      BagConcat([s[0]], s[1..], key);
      assert s == [s[0]] + s[1..];
    }
  }

  lemma OneBag(x: I, key: Key)
    ensures Bag([x], key) != multiset{} <==> x.key == key
  {
    assert Matches([x][1..], key) == [];
    if x.key == key {
      assert Matches([x], key) == [x.val.valset];
      assert x.val.valset in Bag([x], key);
    }
  }

  lemma OccursParts(s: seq<I>, key: Key)
    requires s != []
    ensures Occurs(s, key) <==> s[0].key == key || Occurs(s[1..], key)
  {
    assert forall i | 0 < i < |s| :: s[i] == s[1..][i - 1];
    assert forall i | 0 <= i < |s[1..]| :: s[1..][i] == s[i + 1];
  }

  lemma {:induction false} KidsBagIff(kids: seq<T>, key: Key)
    ensures KidsBag(kids, key) != multiset{} <==> OccursIn(kids, key)
  {
    hide Bag, Occurs, InOrder;
    if kids != [] {
      MatchesIff(InOrder(kids[0]), key);
      KidsBagIff(kids[1..], key);
      assert OccursIn(kids, key) <==> Occurs(InOrder(kids[0]), key) || OccursIn(kids[1..], key) by {
        assert forall j | 0 < j < |kids| :: kids[j] == kids[1..][j - 1];
        assert forall j | 0 <= j < |kids[1..]| :: kids[1..][j] == kids[j + 1];
      }
    }
  }

  lemma {:induction false} PassedByIff(t: T, key: Key)
    ensures PassedBy(t, key) != multiset{} <==> RightOfPath(t, key)
    decreases t
  {
    hide KidsBag, OccursIn;
    if t.Node? && |t.kids| == |t.items| + 1 {
      var i := Rank(t.items, key);
      KidsBagIff(t.kids[i + 1..], key);
      PassedByIff(t.kids[i], key);
    }
  }

  /** In search order the search finds every item with the key if and only if no
      child right of its path holds the key. */
  lemma FindsAllIff(t: T, h: nat, m: int, key: Key)
    requires Shape(t, h, m) && InSearchOrder(InOrder(t))
    ensures multiset(Found(t, key)) == Bag(InOrder(t), key) <==> !RightOfPath(t, key)
  {
    FoundAndPassed(t, h, m, key);
    PassedByIff(t, key);
    hide *;
    var f, p := multiset(Found(t, key)), PassedBy(t, key);
    assert f == f + p ==> |p| == 0;
  }

  /** It finds something if there is anything to be found. */
  lemma {:induction false} FoundUnlessAbsent(t: T, h: nat, m: int, key: Key)
    requires Shape(t, h, m) && InSearchOrder(InOrder(t))
    ensures Found(t, key) == [] <==> forall x <- InOrder(t) :: x.key != key
    decreases h
  {
    if h > 0 {
      var i := Rank(t.items, key);
      OrderedItems(t.items, t.kids);
      RankIsLowerBound(t.items, key);
      DescendOrder(t.items, t.kids, key, i);
      FoundUnlessAbsent(t.kids[i], h - 1, INDEX_MSIZE, key);
      var b, k, a := Before(t.items, t.kids, i), InOrder(t.kids[i]), After(t.items, t.kids, i);
      OrderAround(b, k, a);
      ItemsAfter(t.items, t.kids, i, key);
      hide InOrder, Flat, Before, After, Shape;
      LessIsStrictTotalOrder();
      assert forall x :: x in InOrder(t) <==> x in b || x in k || x in a by {
        InOrderIs(t, b, k, a);
      }
    }
  }

  lemma InOrderIs(t: T, b: seq<I>, k: seq<I>, a: seq<I>)
    requires t.Node? && Flat(t.items, t.kids) == b + k + a
    ensures InOrder(t) == b + k + a
  {
  }

  /** From the lower bound on, an item has the key only if the first one does. */
  lemma ItemsAfter(items: seq<I>, kids: seq<T>, i: nat, key: Key)
    requires |kids| == |items| + 1 && i <= |items| && InSearchOrder(items) && IsLowerBound(items, key, i)
    requires InSearchOrder(After(items, kids, i))
    ensures Matches(items[i..], key) == [] <==> forall x <- After(items, kids, i) :: x.key != key
  {
    LessIsStrictTotalOrder();
    var a := After(items, kids, i);
    if i < |items| {
      assert a[0] == items[i] == items[i..][0];
      if items[i].key != key {
        assert forall j | 0 <= j < |a| :: j > 0 ==> !Less(a[j].key, a[0].key);
        var s := items[i..];
        assert forall j | 0 < j < |s| :: s[j] == items[i + j] && !Less(s[j].key, s[0].key);
        MatchesNone(s, key);
      } else {
        assert a[0] in a;
      }
    }
  }

  // ----- what the loop of btree_get keeps -----

  ghost predicate Searching(whole: T, t: T, key: Key, result: seq<int>) {
    InSearchOrder(InOrder(t)) && result + Found(t, key) == Found(whole, key)
  }

  lemma SearchingStart(t: T, key: Key)
    requires InSearchOrder(InOrder(t))
    ensures Searching(t, t, key, [])
  {
  }

  lemma SearchingStep(whole: T, t: T, key: Key, r: seq<int>, i: nat)
    requires Searching(whole, t, key, r) && t.Node? && |t.kids| == |t.items| + 1 && i <= |t.items|
    requires InSearchOrder(t.items) ==> IsLowerBound(t.items, key, i)
    ensures Searching(whole, t.kids[i], key, r + Matches(t.items[i..], key))
  {
    OrderedItems(t.items, t.kids);
    LowerBoundIsRank(t.items, key, i);
    StepBag(t, key);
    hide Matches, InOrder, InSearchOrder;
    Assoc(r, Matches(t.items[i..], key), Found(t.kids[i], key));
  }

  lemma NilAt(disk: map<int, NodeV>, p: int, t: T)
    requires p == -1 && Repr(disk, p, t)
    ensures t == Nil
  {
  }

  lemma SearchingEnd(whole: T, t: T, h: nat, m: int, key: Key, result: seq<int>)
    requires Searching(whole, t, key, result) && t == Nil && Shape(whole, h, m) && InSearchOrder(InOrder(whole))
    ensures result == Found(whole, key)
    ensures result == [] <==> forall x <- InOrder(whole) :: x.key != key
  {
    assert result + [] == result;
    FoundUnlessAbsent(whole, h, m, key);
  }

  // ----- an index in which a row is not found -----

  function Straddling(a: I, b: I, b': I, c: I): T {
    Node(9, [b], [Leaf(1, [a, a]), Leaf(2, [b', c])])
  }

  /** Two equal items, the second one right of the path. */
  lemma TwoAlike(a: I, b: I, b': I, c: I)
    requires b.key == b'.key && Less(a.key, b.key) && Less(b.key, c.key)
    ensures var t := Straddling(a, b, b', c);
      && Shape(t, 2, 1) && InSearchOrder(InOrder(t)) && InOrder(t) == [a, a, b, b', c]
      && Found(t, b.key) == [b.val.valset] && PassedBy(t, b.key) == multiset{b'.val.valset}
  {
    var t, l, r := Straddling(a, b, b', c), Leaf(1, [a, a]), Leaf(2, [b', c]);
    StraddlingOrder(a, b, b', c);
    LessIsStrictTotalOrder();
    assert Rank(t.items, b.key) == 0;
    assert t.items[0..] == [b] && [b][1..] == [] && t.kids[1..] == [r] && [r][1..] == [];
    assert Matches([b], b.key) == [b.val.valset];
    assert Rank([a, a], b.key) == 2 by {
      assert [a, a][1..] == [a] && [a][1..] == [] && Rank([a], b.key) == 1;
    }
    assert [a, a][2..] == [] && l.kids[3..] == [];
    assert Found(l, b.key) == [] && PassedBy(l, b.key) == multiset{};
    LeafOrder(2, [b', c]);
    assert Matches([b', c], b.key) == [b'.val.valset] by {
      assert [b', c][1..] == [c] && [c][1..] == [] && Matches([c], b.key) == [];
    }
    hide InOrder;
    assert KidsBag([r], b.key) == multiset{b'.val.valset};
  }

  lemma StraddlingOrder(a: I, b: I, b': I, c: I)
    requires b.key == b'.key && Less(a.key, b.key) && Less(b.key, c.key)
    ensures var t := Straddling(a, b, b', c);
      Shape(t, 2, 1) && InSearchOrder(InOrder(t)) && InOrder(t) == [a, a, b, b', c]
  {
    var l, r := Leaf(1, [a, a]), Leaf(2, [b', c]);
    LeafShape(1, [a, a]);
    LeafShape(2, [b', c]);
    LeafOrder(1, [a, a]);
    LeafOrder(2, [b', c]);
    FlatOne(l, b, r);
    NodeInOrder(Straddling(a, b, b', c));
    LessIsStrictTotalOrder();
    hide Flat, InOrder;
    assert InOrder(l) + [b] + InOrder(r) == [a, a, b, b', c];
  }
}
