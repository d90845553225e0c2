/**
 * Insertion into the secondary index, on values: what taking in an item and a
 * child, or splitting a full node, does to a search tree.
 */
module BTreeInsertion {
  import opened Order
  import opened SearchTree
  import opened BTreeNode
  import opened BTreeSpec

  /** `after` is `before` with x added: as a multiset in any case, and at x's
      place when keys are unique and sorted. */
  ghost predicate Inserted(before: seq<I>, after: seq<I>, x: I, unique: bool) {
    && multiset(after) == multiset(before) + multiset{x}
    && (unique && Sorted(before) ==> !Has(before, x.key) && after == Put(before, x))
  }

  lemma InsertedNone(x: I, unique: bool)
    ensures Inserted([], [x], x, unique)
  {
    var e: seq<I> := [];
    assert e[..0] + [x] + e[0..] == [x];
  }

  lemma InsertedInside(a: seq<I>, m: seq<I>, m': seq<I>, b: seq<I>, x: I, unique: bool)
    requires Inserted(m, m', x, unique)
    requires unique && Sorted(a + m + b) ==>
      AllBelow(a, x.key) && NoneBelow(b, x.key) && (b == [] || b[0].key != x.key)
    ensures Inserted(a + m + b, a + m' + b, x, unique)
  {
    if unique && Sorted(a + m + b) {
      SortedParts(a, m, b);
      PutInside(a, m, b, x);
      HasInside(a, m, b, x.key);
    }
  }

  /** The items and children of a node once a new item with a right child is
      put at j. */
  function GrownItems(items: seq<I>, j: nat, up: I): seq<I>
    requires j <= |items|
  {
    items[..j] + [up] + items[j..]
  }

  function GrownKids(kids: seq<T>, j: nat, r: T): seq<T>
    requires j < |kids|
  {
    kids[..j + 1] + [r] + kids[j + 1..]
  }

  lemma KidsOffsInsert(kids: seq<T>, j: nat, r: T)
    requires j <= |kids|
    ensures KidsOffs(kids[..j] + [r] + kids[j..]) == KidsOffs(kids) + Offs(r)
  {
    var a, b := kids[..j], kids[j..];
    assert kids == a + b && a + [r] + b == a + ([r] + b);
    KidsOffsConcat(a, b);
    KidsOffsConcat(a, [r] + b);
    assert ([r] + b)[1..] == b;
  }

  lemma KidsItemsAt(kids: seq<T>, i: nat)
    requires i < |kids|
    ensures KidsItems(kids) == KidsItems(kids[..i]) + multiset(InOrder(kids[i])) + KidsItems(kids[i + 1..])
  {
    assert kids == kids[..i] + kids[i..];
    KidsItemsConcat(kids[..i], kids[i..]);
    assert kids[i..][1..] == kids[i + 1..];
  }

  lemma KidsItemsReplace(kids: seq<T>, i: nat, kid: T)
    requires i < |kids|
    ensures KidsItems(kids[i := kid]) + multiset(InOrder(kids[i])) == KidsItems(kids) + multiset(InOrder(kid))
  {
    var k := kids[i := kid];
    KidsItemsAt(kids, i);
    KidsItemsAt(k, i);
    assert k[..i] == kids[..i] && k[i + 1..] == kids[i + 1..];
  }

  lemma KidsItemsInsert(kids: seq<T>, j: nat, r: T)
    requires j <= |kids|
    ensures KidsItems(kids[..j] + [r] + kids[j..]) == KidsItems(kids) + multiset(InOrder(r))
  {
    var a, b := kids[..j], kids[j..];
    assert kids == a + b && a + [r] + b == a + ([r] + b);
    KidsItemsConcat(a, b);
    KidsItemsConcat(a, [r] + b);
    assert ([r] + b)[1..] == b;
  }

  lemma GrownItemsMultiset(items: seq<I>, j: nat, up: I)
    requires j <= |items|
    ensures multiset(GrownItems(items, j, up)) == multiset(items) + multiset{up}
  {
    assert items == items[..j] + items[j..];
  }

  lemma Exchange<X>(items: multiset<X>, k: multiset<X>, k': multiset<X>, was: multiset<X>,
                    l: multiset<X>, up: multiset<X>, r: multiset<X>, x: multiset<X>)
    requires k' + was == k + l && l + up + r == was + x
    ensures (items + up) + (k' + r) == (items + k) + x
  {
    forall e ensures ((items + up) + (k' + r))[e] == ((items + k) + x)[e] {
      assert (k' + was)[e] == (k + l)[e] && (l + up + r)[e] == (was + x)[e];
    }
  }

  /** Wherever the new item is put, no item is lost or invented. */
  lemma GrownConserves(items: seq<I>, kids: seq<T>, i: nat, kid: T, j: nat, up: I, r: T, x: I)
    requires |kids| == |items| + 1 && i <= |items| && j <= |items|
    requires multiset(InOrder(kid)) + multiset{up} + multiset(InOrder(r)) == multiset(InOrder(kids[i])) + multiset{x}
    ensures multiset(Flat(GrownItems(items, j, up), GrownKids(kids[i := kid], j, r)))
         == multiset(Flat(items, kids)) + multiset{x}
  {
    var k := kids[i := kid];
    FlatItems(items, kids);
    FlatItems(GrownItems(items, j, up), GrownKids(kids[i := kid], j, r));
    GrownItemsMultiset(items, j, up);
    KidsItemsReplace(kids, i, kid);
    KidsItemsInsert(k, j + 1, r);
    Exchange(multiset(items), KidsItems(kids), KidsItems(k), multiset(InOrder(kids[i])),
             multiset(InOrder(kid)), multiset{up}, multiset(InOrder(r)), multiset{x});
  }

  lemma GrownKidsInPlace(kids: seq<T>, i: nat, kid: T, r: T)
    requires i < |kids|
    ensures GrownKids(kids[i := kid], i, r) == kids[..i] + [kid, r] + kids[i + 1..]
  {
  }

  /** Put where the search went down, the new item is in order. */
  lemma GrownInserted(items: seq<I>, kids: seq<T>, i: nat, kid: T, up: I, r: T, x: I, unique: bool)
    requires |kids| == |items| + 1 && i <= |items|
    requires unique && i < |items| ==> items[i].key != x.key
    requires Sorted(items) ==> IsLowerBound(items, x.key, i)
    requires Inserted(InOrder(kids[i]), InOrder(kid) + [up] + InOrder(r), x, unique)
    ensures Inserted(Flat(items, kids), Flat(GrownItems(items, i, up), GrownKids(kids[i := kid], i, r)), x, unique)
  {
    var m := InOrder(kid) + [up] + InOrder(r);
    FlatGrow(items, kids, i, kid, up, r);
    GrownKidsInPlace(kids, i, kid, r);
    FlatAt(items, kids, i);
    if unique && Sorted(Flat(items, kids)) {
      SortedNode(items, kids);
      Descend(items, kids, x.key, i);
    }
    InsertedInside(Before(items, kids, i), InOrder(kids[i]), m, After(items, kids, i), x, unique);
  }

  /** With one child replaced and nothing to add at this level. */
  lemma ReplacedInserted(items: seq<I>, kids: seq<T>, i: nat, kid: T, x: I, unique: bool)
    requires |kids| == |items| + 1 && i <= |items|
    requires unique && i < |items| ==> items[i].key != x.key
    requires Sorted(items) ==> IsLowerBound(items, x.key, i)
    requires Inserted(InOrder(kids[i]), InOrder(kid), x, unique)
    ensures Inserted(Flat(items, kids), Flat(items, kids[i := kid]), x, unique)
  {
    FlatAt(items, kids, i);
    FlatReplace(items, kids, i, kid);
    if unique && Sorted(Flat(items, kids)) {
      SortedNode(items, kids);
      Descend(items, kids, x.key, i);
    }
    InsertedInside(Before(items, kids, i), InOrder(kids[i]), InOrder(kid), After(items, kids, i), x, unique);
  }

  /** Searching again for the item that came up finds the place the search for
      the inserted key went down. */
  lemma ResearchAgrees(items: seq<I>, kids: seq<T>, i: nat, kid: T, up: I, r: T, x: I)
    requires |kids| == |items| + 1 && i <= |items|
    requires Inserted(Flat(items, kids), Flat(GrownItems(items, i, up), GrownKids(kids[i := kid], i, r)), x, true)
    requires Sorted(Flat(items, kids))
    ensures Sorted(items) && IsLowerBound(items, up.key, i)
  {
    var gi, gk := GrownItems(items, i, up), GrownKids(kids[i := kid], i, r);
    SortedNode(items, kids);
    PutSorted(Flat(items, kids), x);
    SortedNode(gi, gk);
    SortedAround(items[..i], up, items[i..]);
    LessIsStrictTotalOrder();
  }

  /** What insert has done to the items of a subtree. */
  ghost predicate InsertOutcome(code: Status, t: T, h: nat, t': T, up: I, r: T, x: I, unique: bool) {
    match code
    case SUCCESS => r == Nil && Inserted(InOrder(t), InOrder(t'), x, unique)
    case INSERTNOTCOMPLETE =>
      && Shape(t', h, INDEX_MSIZE) && Shape(r, h, INDEX_MSIZE)
      && Inserted(InOrder(t), InOrder(t') + [up] + InOrder(r), x, unique)
    case DUPLICATEKEY => unique && t' == t && r == Nil && (Sorted(InOrder(t)) ==> Has(InOrder(t), x.key))
    case _ => false
  }

  lemma RootShape(p: int, up: I, l: T, r: T, h: nat)
    requires Shape(l, h, INDEX_MSIZE) && Shape(r, h, INDEX_MSIZE)
    ensures var t := Node(p, [up], [l, r]);
      && Shape(t, h + 1, 1) && InOrder(t) == InOrder(l) + [up] + InOrder(r)
      && Offs(t) == multiset{p} + Offs(l) + Offs(r)
  {
    KidsOffsPair(l, r);
    FlatOne(l, up, r);
  }

  /** What btree_insert means for the key -> value map. */
  lemma InsertMeaning(code: Status, before: seq<I>, after: seq<I>, x: I, unique: bool)
    requires code == DUPLICATEKEY ==> unique && after == before && (Sorted(before) ==> Has(before, x.key))
    requires code == SUCCESS ==> Inserted(before, after, x, unique)
    requires code == DUPLICATEKEY || code == SUCCESS
    ensures code == SUCCESS ==> multiset(after) == multiset(before) + multiset{x}
    ensures unique && Sorted(before) ==> Sorted(after) && (code == DUPLICATEKEY <==> x.key in ToMap(before))
    ensures unique && Sorted(before) && code == SUCCESS ==> after == Put(before, x)
    ensures unique && Sorted(before) && code == SUCCESS ==> ToMap(after) == ToMap(before)[x.key := x.val]
  {
    if unique && Sorted(before) {
      ToMapLooksUp(before, x.key);
      if code == SUCCESS {
        PutSorted(before, x);
        PutIsUpdate(before, x);
      }
    }
  }

  /** The search for key in the items of t stopped at i. */
  ghost predicate Stopped(items: seq<I>, t: T, i: int, key: Key, unique: bool) {
    && t.Node? && items == t.items && 0 <= i <= |t.items| && 1 <= |t.items| && |t.kids| == |t.items| + 1
    && (Sorted(t.items) || InSearchOrder(t.items) ==> IsLowerBound(t.items, key, i))
    && (unique && i < |t.items| ==> t.items[i].key != key)
  }

  /** The key was dealt with below: this node only sees its child replaced. */
  lemma InsertPassed(code: Status, t: T, h: nat, m: int, i: nat, kid: T, up: I, r: T, x: I, unique: bool)
    requires t.Node? && 0 < h && Shape(t, h, m) && i <= |t.items| && code != INSERTNOTCOMPLETE
    requires unique && i < |t.items| ==> t.items[i].key != x.key
    requires Sorted(t.items) ==> IsLowerBound(t.items, x.key, i)
    requires Shape(kid, h - 1, INDEX_MSIZE)
    requires InsertOutcome(code, t.kids[i], h - 1, kid, up, r, x, unique)
    ensures var t' := Node(t.off, t.items, t.kids[i := kid]);
      && Shape(t', h, m) && InsertOutcome(code, t, h, t', up, r, x, unique)
      && Offs(t') == multiset{t.off} + KidsOffs(t.kids[i := kid])
  {
    if code == SUCCESS {
      ReplacedInserted(t.items, t.kids, i, kid, x, unique);
    } else {
      assert t.kids[i := kid] == t.kids;
      if Sorted(InOrder(t)) {
        SortedNode(t.items, t.kids);
        Descend(t.items, t.kids, x.key, i);
        HasBelow(t, x.key, i);
      }
    }
  }

  lemma FoundHere(t: T, h: nat, key: Key, i: nat, x: I)
    requires t.Node? && |t.kids| == |t.items| + 1 && i < |t.items| && t.items[i].key == key == x.key
    ensures InsertOutcome(DUPLICATEKEY, t, h, t, x, Nil, x, true)
  {
    if Sorted(InOrder(t)) {
      ItemsInFlat(t.items, t.kids);
      assert t.items[i] in InOrder(t);
      HasIffMember(InOrder(t), key);
    }
  }

  lemma OutcomeAtLeaf(x: I, unique: bool)
    ensures InsertOutcome(INSERTNOTCOMPLETE, Nil, 0, Nil, x, Nil, x, unique)
  {
    InsertedNone(x, unique);
    assert InOrder<Val>(Nil) + [x] + InOrder<Val>(Nil) == [x];
  }

  function SplitLeft(t: T, i: nat, kid: T, up: I, r: T): T
    requires t.Node? && |t.kids| == |t.items| + 1 && i <= |t.items| == INDEX_SIZE
  {
    Node(t.off, GrownItems(t.items, i, up)[..INDEX_MSIZE], GrownKids(t.kids[i := kid], i, r)[..INDEX_MSIZE + 1])
  }

  function SplitRight(t: T, i: nat, kid: T, up: I, r: T, offnew: int): T
    requires t.Node? && |t.kids| == |t.items| + 1 && i <= |t.items| == INDEX_SIZE
  {
    Node(offnew, GrownItems(t.items, i, up)[INDEX_MSIZE + 1..], GrownKids(t.kids[i := kid], i, r)[INDEX_MSIZE + 1..])
  }

  /** The node after SplitHere: two well-shaped halves holding everything. */
  lemma SplitNode(t: T, h: nat, m: int, i: nat, kid: T, up: I, r: T, x: I, unique: bool, offnew: int)
    requires t.Node? && 0 < h && Shape(t, h, m) && i <= |t.items| == INDEX_SIZE && |t.kids| == |t.items| + 1
    requires m <= INDEX_MSIZE
    requires unique && i < |t.items| ==> t.items[i].key != x.key
    requires Sorted(t.items) ==> IsLowerBound(t.items, x.key, i)
    requires InsertOutcome(INSERTNOTCOMPLETE, t.kids[i], h - 1, kid, up, r, x, unique)
    ensures Shape(SplitLeft(t, i, kid, up, r), h, m)
    ensures InsertOutcome(INSERTNOTCOMPLETE, t, h, SplitLeft(t, i, kid, up, r), GrownItems(t.items, i, up)[INDEX_MSIZE],
                          SplitRight(t, i, kid, up, r, offnew), x, unique)
    ensures Offs(SplitLeft(t, i, kid, up, r)) + Offs(SplitRight(t, i, kid, up, r, offnew))
         == multiset{t.off, offnew} + KidsOffs(t.kids[i := kid]) + Offs(r)
  {
    hide Inserted, InOrder, Shape, Sorted, IsLowerBound, SplitLeft, SplitRight, GrownItems, KidsOffs, Offs;
    SplitShape(t, h, m, i, kid, up, r, offnew);
    SplitOffs(t, i, kid, up, r, offnew);
    SplitOutcome(t, h, i, kid, up, r, x, unique, offnew);
  }

  lemma SplitOutcome(t: T, h: nat, i: nat, kid: T, up: I, r: T, x: I, unique: bool, offnew: int)
    requires t.Node? && 0 < h && i <= |t.items| == INDEX_SIZE && |t.kids| == |t.items| + 1
    requires unique && i < |t.items| ==> t.items[i].key != x.key
    requires Sorted(t.items) ==> IsLowerBound(t.items, x.key, i)
    requires InsertOutcome(INSERTNOTCOMPLETE, t.kids[i], h - 1, kid, up, r, x, unique)
    requires Shape(SplitLeft(t, i, kid, up, r), h, INDEX_MSIZE) && Shape(SplitRight(t, i, kid, up, r, offnew), h, INDEX_MSIZE)
    ensures InsertOutcome(INSERTNOTCOMPLETE, t, h, SplitLeft(t, i, kid, up, r), GrownItems(t.items, i, up)[INDEX_MSIZE],
                          SplitRight(t, i, kid, up, r, offnew), x, unique)
  {
    hide Inserted, Flat, Shape, Sorted, IsLowerBound, GrownItems, GrownKids;
    SplitInserted(t, i, kid, up, r, x, unique, offnew);
  }

  lemma SplitInserted(t: T, i: nat, kid: T, up: I, r: T, x: I, unique: bool, offnew: int)
    requires t.Node? && i <= |t.items| == INDEX_SIZE && |t.kids| == |t.items| + 1
    requires unique && i < |t.items| ==> t.items[i].key != x.key
    requires Sorted(t.items) ==> IsLowerBound(t.items, x.key, i)
    requires Inserted(InOrder(t.kids[i]), InOrder(kid) + [up] + InOrder(r), x, unique)
    ensures var items, ks := GrownItems(t.items, i, up), GrownKids(t.kids[i := kid], i, r);
      Inserted(Flat(t.items, t.kids), Flat(items[..INDEX_MSIZE], ks[..INDEX_MSIZE + 1]) + [items[INDEX_MSIZE]]
                                      + Flat(items[INDEX_MSIZE + 1..], ks[INDEX_MSIZE + 1..]), x, unique)
  {
    hide Inserted, Flat, Sorted, IsLowerBound, InOrder, KidsOffs;
    GrownInserted(t.items, t.kids, i, kid, up, r, x, unique);
    FlatCut(GrownItems(t.items, i, up), GrownKids(t.kids[i := kid], i, r), INDEX_MSIZE);
  }

  lemma SumHalves(o: int, a: multiset<int>, n: int, b: multiset<int>, k: multiset<int>, r: multiset<int>)
    requires a + b == k + r
    ensures (multiset{o} + a) + (multiset{n} + b) == multiset{o, n} + k + r
  {
    assert multiset{o, n} == multiset{o} + multiset{n};
    assert multiset{o, n} + k + r == multiset{o, n} + (a + b);
  }

  lemma SplitOffs(t: T, i: nat, kid: T, up: I, r: T, offnew: int)
    requires t.Node? && i <= |t.items| == INDEX_SIZE && |t.kids| == |t.items| + 1
    ensures Offs(SplitLeft(t, i, kid, up, r)) + Offs(SplitRight(t, i, kid, up, r, offnew))
         == multiset{t.off, offnew} + KidsOffs(t.kids[i := kid]) + Offs(r)
  {
    var ks := GrownKids(t.kids[i := kid], i, r);
    GrownOffs(t.kids[i := kid], i, r);
    KidsOffsCut(ks, INDEX_MSIZE + 1);
    SumHalves(t.off, KidsOffs(ks[..INDEX_MSIZE + 1]), offnew, KidsOffs(ks[INDEX_MSIZE + 1..]), KidsOffs(t.kids[i := kid]), Offs(r));
  }

  lemma GrownOffs(kids: seq<T>, i: nat, r: T)
    requires i < |kids|
    ensures |GrownKids(kids, i, r)| == |kids| + 1
    ensures KidsOffs(GrownKids(kids, i, r)) == KidsOffs(kids) + Offs(r)
  {
    KidsOffsInsert(kids, i + 1, r);
  }

  lemma SplitShape(t: T, h: nat, m: int, i: nat, kid: T, up: I, r: T, offnew: int)
    requires t.Node? && 0 < h && Shape(t, h, m) && i <= |t.items| == INDEX_SIZE && m <= INDEX_MSIZE
    requires Shape(kid, h - 1, INDEX_MSIZE) && Shape(r, h - 1, INDEX_MSIZE)
    ensures Shape(SplitLeft(t, i, kid, up, r), h, m)
    ensures Shape(SplitLeft(t, i, kid, up, r), h, INDEX_MSIZE)
    ensures Shape(SplitRight(t, i, kid, up, r, offnew), h, INDEX_MSIZE)
  {
    var items, ks := GrownItems(t.items, i, up), GrownKids(t.kids[i := kid], i, r);
    GrownKidsShape(t.kids, h - 1, i, kid, i, r);
    HalfShape(SplitLeft(t, i, kid, up, r), h, ks, 0);
    HalfShape(SplitRight(t, i, kid, up, r, offnew), h, ks, INDEX_MSIZE + 1);
    ShapeMonotone(SplitLeft(t, i, kid, up, r), h, INDEX_MSIZE, m);
  }

  lemma HalfShape(t: T, h: nat, ks: seq<T>, from: nat)
    requires t.Node? && 0 < h && |t.items| == INDEX_MSIZE && |t.kids| == INDEX_MSIZE + 1
    requires from + |t.kids| <= |ks| && t.kids == ks[from..from + |t.kids|]
    requires forall n | 0 <= n < |ks| :: Shape(ks[n], h - 1, INDEX_MSIZE)
    ensures Shape(t, h, INDEX_MSIZE)
  {
  }

  /** The node after InsertHere: shape kept, the new item in. */
  lemma GrownNode(t: T, h: nat, m: int, i: nat, kid: T, j: nat, up: I, r: T, x: I, unique: bool)
    requires t.Node? && 0 < h && Shape(t, h, m) && |t.items| < INDEX_SIZE && i <= |t.items| && j <= |t.items|
    requires |t.kids| == |t.items| + 1
    requires unique && i < |t.items| ==> t.items[i].key != x.key
    requires Sorted(t.items) ==> IsLowerBound(t.items, x.key, i) && IsLowerBound(t.items, up.key, j)
    requires InsertOutcome(INSERTNOTCOMPLETE, t.kids[i], h - 1, kid, up, r, x, unique)
    ensures var t' := Node(t.off, GrownItems(t.items, j, up), GrownKids(t.kids[i := kid], j, r));
      && Shape(t', h, m) && InsertOutcome(SUCCESS, t, h, t', up, Nil, x, unique)
      && Offs(t') == multiset{t.off} + KidsOffs(t.kids[i := kid]) + Offs(r)
  {
    hide Inserted, Flat, Sorted, IsLowerBound, Shape, KidsOffs, GrownItems;
    GrownShape(t, h, m, i, kid, j, up, r);
    GrownInsertedAt(t.items, t.kids, i, kid, j, up, r, x, unique);
    KidsOffsInsert(t.kids[i := kid], j + 1, r);
  }

  lemma GrownShape(t: T, h: nat, m: int, i: nat, kid: T, j: nat, up: I, r: T)
    requires t.Node? && 0 < h && Shape(t, h, m) && |t.items| < INDEX_SIZE && i <= |t.items| && j <= |t.items|
    requires Shape(kid, h - 1, INDEX_MSIZE) && Shape(r, h - 1, INDEX_MSIZE)
    ensures Shape(Node(t.off, GrownItems(t.items, j, up), GrownKids(t.kids[i := kid], j, r)), h, m)
  {
    GrownKidsShape(t.kids, h - 1, i, kid, j, r);
  }

  lemma GrownKidsShape(kids: seq<T>, h: nat, i: nat, kid: T, j: nat, r: T)
    requires i < |kids| && j < |kids|
    requires forall n | 0 <= n < |kids| :: Shape(kids[n], h, INDEX_MSIZE)
    requires Shape(kid, h, INDEX_MSIZE) && Shape(r, h, INDEX_MSIZE)
    ensures var g := GrownKids(kids[i := kid], j, r);
      forall n | 0 <= n < |g| :: Shape(g[n], h, INDEX_MSIZE)
  {
    var k, g := kids[i := kid], GrownKids(kids[i := kid], j, r);
    forall n | 0 <= n < |g| ensures Shape(g[n], h, INDEX_MSIZE) {
      assert g[n] == if n <= j then k[n] else if n == j + 1 then r else k[n - 1];
    }
  }

  /** Both places the re-search may put the new item: in order when the keys
      are unique and sorted, and conserving the items in any case. */
  lemma GrownInsertedAt(items: seq<I>, kids: seq<T>, i: nat, kid: T, j: nat, up: I, r: T, x: I, unique: bool)
    requires |kids| == |items| + 1 && i <= |items| && j <= |items|
    requires unique && i < |items| ==> items[i].key != x.key
    requires Sorted(items) ==> IsLowerBound(items, x.key, i) && IsLowerBound(items, up.key, j)
    requires Inserted(InOrder(kids[i]), InOrder(kid) + [up] + InOrder(r), x, unique)
    ensures Inserted(Flat(items, kids), Flat(GrownItems(items, j, up), GrownKids(kids[i := kid], j, r)), x, unique)
  {
    GrownConserves(items, kids, i, kid, j, up, r, x);
    if unique && Sorted(Flat(items, kids)) {
      SortedNode(items, kids);
      GrownInserted(items, kids, i, kid, up, r, x, unique);
      ResearchAgrees(items, kids, i, kid, up, r, x);
      LowerBoundIsRank(items, up.key, i);
      LowerBoundIsRank(items, up.key, j);
    }
  }

  // ----- key sizes -----

  lemma SizedParts(t: T, i: nat)
    requires t.Node? && |t.kids| == |t.items| + 1 && i <= |t.items| && AllSized(InOrder(t))
    ensures AllSized(t.items) && AllSized(InOrder(t.kids[i]))
  {
    ItemsInFlat(t.items, t.kids);
    FlatAt(t.items, t.kids, i);
    var b, k, a := Before(t.items, t.kids, i), InOrder(t.kids[i]), After(t.items, t.kids, i);
    forall j | 0 <= j < |t.items| ensures Sized(t.items[j]) {
      assert t.items[j] in InOrder(t);
    }
    forall j | 0 <= j < |k| ensures Sized(k[j]) {
      assert (b + k + a)[|b| + j] == k[j];
    }
  }

  /** Nothing comes up but what was there, or what is put in. */
  lemma UpSized(was: seq<I>, l: seq<I>, up: I, r: seq<I>, x: I)
    requires multiset(l + [up] + r) == multiset(was) + multiset{x} && AllSized(was) && Sized(x)
    ensures Sized(up)
  {
    assert (l + [up] + r)[|l|] == up;
    assert up in multiset(l + [up] + r);
  }

  lemma RootSized(t: T, h: nat, t': T, up: I, r: T, x: I, unique: bool)
    requires InsertOutcome(INSERTNOTCOMPLETE, t, h, t', up, r, x, unique) && AllSized(InOrder(t)) && Sized(x)
    ensures Sized(up)
  {
    UpSized(InOrder(t), InOrder(t'), up, InOrder(r), x);
  }

  lemma OutcomeSized(t: T, h: nat, i: nat, kid: T, up: I, r: T, x: I, unique: bool)
    requires t.Node? && |t.kids| == |t.items| + 1 && i <= |t.items| && AllSized(InOrder(t)) && Sized(x) && 0 < h
    requires InsertOutcome(INSERTNOTCOMPLETE, t.kids[i], h - 1, kid, up, r, x, unique)
    ensures Sized(up) && AllSized(t.items)
  {
    SizedParts(t, i);
    UpSized(InOrder(t.kids[i]), InOrder(kid), up, InOrder(r), x);
  }

  lemma InsertedSized(before: seq<I>, after: seq<I>, x: I)
    requires multiset(after) == multiset(before) + multiset{x} && AllSized(before) && Sized(x)
    ensures AllSized(after)
  {
    forall j | 0 <= j < |after| ensures Sized(after[j]) {
      assert after[j] in multiset(after);
    }
  }
}
