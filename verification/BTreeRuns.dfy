/**
 * Runs of the secondary index in which equal keys do harm: five insertions of one
 * key, then a search that misses rows, or a deletion that loses one too many.
 */
module BTreeRuns {
  import opened Order
  import opened SearchTree
  import opened BTreeNode
  import opened BTreeSpec
  import opened BTreeOrder
  import opened BTreeDeletion
  import opened BTreeDrop
  import opened BTreeFound
  import opened Pages
  import BTree

  /** Five different rows under one key. */
  ghost predicate Five(rows: seq<I>, key: Key) {
    |rows| == 5 && AllSized(rows) && Distinct(rows, key) && forall i | 0 <= i < |rows| :: rows[i].key == key
  }

  // ----- five items have one shape only -----

  lemma {:induction false} FlatAtLeast(items: seq<I>, kids: seq<T>, n: nat)
    requires |kids| == |items| + 1 && forall i | 0 <= i < |kids| :: |InOrder(kids[i])| >= n
    ensures |Flat(items, kids)| >= |items| + n * |kids|
  {
    hide InOrder;
    if items == [] {
      assert Flat(items, kids) == InOrder(kids[0]);
    } else {
      var rest := Flat(items[1..], kids[1..]);
      assert Flat(items, kids) == InOrder(kids[0]) + [items[0]] + rest;
      FlatAtLeast(items[1..], kids[1..], n);
    }
  }

  /** A subtree of two levels or more has eight items or more. */
  lemma {:induction false} AtLeast(t: T, h: nat)
    requires Shape(t, h, INDEX_MSIZE) && 0 < h
    ensures |InOrder(t)| >= 2 && (1 < h ==> |InOrder(t)| >= 8)
    decreases h
  {
    if h > 1 {
      forall i | 0 <= i < |t.kids| ensures |InOrder(t.kids[i])| >= 2 {
        AtLeast(t.kids[i], h - 1);
      }
      FlatAtLeast(t.items, t.kids, 2);
    } else {
      FlatAtLeast(t.items, t.kids, 0);
    }
  }

  lemma FiveForced(t: T, h: nat)
    requires Shape(t, h, 1) && |InOrder(t)| == 5
    ensures h == 2 && t.Node? && |t.items| == 1 && |t.kids| == 2
    ensures InOrder(t) == InOrder(t.kids[0]) + [t.items[0]] + InOrder(t.kids[1])
    ensures |InOrder(t.kids[0])| == |InOrder(t.kids[1])| == 2
  {
    assert h > 0 && t.Node?;
    if h == 1 {
      OneLevel(t);
    } else {
      MoreLevels(t, h);
      FlatOne(t.kids[0], t.items[0], t.kids[1]);
      assert t.items == [t.items[0]] && t.kids == [t.kids[0], t.kids[1]];
    }
  }

  lemma MoreLevels(t: T, h: nat)
    requires Shape(t, h, 1) && 1 < h
    ensures |InOrder(t)| >= |t.items| + 2 * |t.kids|
    ensures 2 < h ==> |InOrder(t)| >= |t.items| + 8 * |t.kids|
    ensures forall i | 0 <= i < |t.kids| :: |InOrder(t.kids[i])| >= 2
  {
    forall i | 0 <= i < |t.kids| ensures |InOrder(t.kids[i])| >= 2 && (2 < h ==> |InOrder(t.kids[i])| >= 8) {
      AtLeast(t.kids[i], h - 1);
    }
    FlatAtLeast(t.items, t.kids, 2);
    if h > 2 {
      FlatAtLeast(t.items, t.kids, 8);
    }
  }

  lemma OneLevel(t: T)
    requires Shape(t, 1, 1)
    ensures InOrder(t) == t.items && |t.items| <= INDEX_SIZE
  {
    assert forall i | 0 <= i < |t.kids| :: Shape(t.kids[i], 0, INDEX_MSIZE);
    FlatLeaf(t.items, t.kids);
  }

  /** Five equal items: the search stops at the root, between two and two. */
  lemma FiveMuddled(t: T, h: nat, key: Key)
    requires Shape(t, h, 1) && |InOrder(t)| == 5 && forall i | 0 <= i < 5 :: InOrder(t)[i].key == key
    ensures Muddled(t, h, key) && RightOfPath(t, key) && Has(InOrder(t), key)
  {
    FiveForced(t, h);
    var s, l, r := InOrder(t), InOrder(t.kids[0]), InOrder(t.kids[1]);
    assert s[0] == l[0] && s[1] == l[1] && s[2] == t.items[0] && s[3] == r[0];
    assert t.items == [s[2]] && t.kids[1..] == [t.kids[1]];
    SelfNotLess(key);
    assert l == [l[0], l[1]] && l[1..] == [l[1]];
    assert Copies([l[1]], key) == 1;
    hide InOrder, Shape;
    assert Copies(l, key) == 2;
    assert Occurs(r, key);
    assert OccursIn(t.kids[1..], key) by {
      assert t.kids[1..][0] == t.kids[1];
    }
  }

  lemma SameRows(s: seq<I>, rows: seq<I>, key: Key)
    requires multiset(s) == multiset(rows) && Five(rows, key)
    ensures |s| == 5 && Distinct(s, key) && forall i | 0 <= i < 5 :: s[i].key == key
  {
    assert |multiset(s)| == |s| && |multiset(rows)| == |rows|;
    forall i | 0 <= i < |s| ensures s[i].key == key {
      assert s[i] in multiset(s);
      assert s[i] in rows;
    }
    forall i, j | 0 <= i < j < |s| ensures s[i] != s[j] {
      DistinctOnce(rows, key, s[i]);
      if s[i] == s[j] {
        TwicePresent(s, i, j);
      }
    }
  }

  lemma TwicePresent(s: seq<I>, i: nat, j: nat)
    requires i < j < |s| && s[i] == s[j]
    ensures multiset(s)[s[i]] >= 2
  {
    assert s == s[..j] + [s[j]] + s[j + 1..];
    assert s[..j][i] == s[i];
    assert s[i] in multiset(s[..j]);
  }

  // ----- the runs -----

  /** Of five rows under one key the search does not find them all. */
  method SearchMisses(pager: Pager, rows: seq<I>, key: Key) returns (found: seq<int>)
    requires pager.Valid() && PAGE_HEADER + BTree.NODE_SIZE < pager.pageSize && Five(rows, key)
    modifies pager
    ensures multiset(found) < Bag(rows, key)
  {
    var index := BTree.CreateIndex(pager, rows);
    ghost var s := index.Contents();
    SameRows(s, rows, key);
    FiveMuddled(index.tree, index.height, key);
    FindsAllIff(index.tree, index.height, 1, key);
    FoundAndPassed(index.tree, index.height, 1, key);
    SameBag(s, rows, key);
    var code;
    code, found := index.Search(key);
    hide *;
    assert multiset(found) <= multiset(found) + PassedBy(index.tree, key);
  }

  lemma {:induction false} SameBag(s: seq<I>, rows: seq<I>, key: Key)
    requires multiset(s) == multiset(rows)
    ensures Bag(s, key) == Bag(rows, key)
    decreases |s|
  {
    if s == [] {
      assert |multiset(rows)| == 0;
      assert rows == [];
    } else {
      var i := PickOut(s, rows);
      SameBag(s[1..], rows[..i] + rows[i + 1..], key);
      BagAround(s, 0, key);
      BagAround(rows, i, key);
      hide *;
      assert s[..0] + s[1..] == s[1..];
    }
  }

  lemma PickOut(s: seq<I>, rows: seq<I>) returns (i: nat)
    requires s != [] && multiset(s) == multiset(rows)
    ensures i < |rows| && rows[i] == s[0] && multiset(s[1..]) == multiset(rows[..i] + rows[i + 1..])
  {
    assert s[0] in multiset(s);
    assert s[0] in rows;
    i :| 0 <= i < |rows| && rows[i] == s[0];
    OneOut(s, 0);
    OneOut(rows, i);
    assert s[..0] + s[1..] == s[1..];
    Cancel(multiset(s[1..]), multiset(rows[..i] + rows[i + 1..]), s[0]);
  }

  lemma OneOut(s: seq<I>, i: nat)
    requires i < |s|
    ensures multiset(s) == multiset(s[..i] + s[i + 1..]) + multiset{s[i]}
  {
    assert s == s[..i] + [s[i]] + s[i + 1..];
  }

  lemma Cancel(a: multiset<I>, b: multiset<I>, x: I)
    requires a + multiset{x} == b + multiset{x}
    ensures a == b
  {
    forall y ensures a[y] == b[y] {
      assert (a + multiset{x})[y] == (b + multiset{x})[y];
    }
  }

  lemma BagAround(s: seq<I>, i: nat, key: Key)
    requires i < |s|
    ensures Bag(s, key) == Bag([s[i]], key) + Bag(s[..i] + s[i + 1..], key)
  {
    hide Bag;
    BagConcat(s[..i] + [s[i]], s[i + 1..], key);
    BagConcat(s[..i], [s[i]], key);
    BagConcat(s[..i], s[i + 1..], key);
    assert s == s[..i] + [s[i]] + s[i + 1..];
  }

  /** Of five rows under one key a deletion does not take out just one. */
  method DeletionMuddles(pager: Pager, rows: seq<I>, key: Key) returns (index: BTree.Index)
    requires pager.Valid() && PAGE_HEADER + BTree.NODE_SIZE < pager.pageSize && Five(rows, key)
    modifies pager
    ensures index.Valid() && !TakesOne(rows, index.Contents(), key)
  {
    index := BTree.CreateIndex(pager, rows);
    ghost var s := index.Contents();
    SameRows(s, rows, key);
    FiveMuddled(index.tree, index.height, key);
    SizedExact(s, key);
    TakesOneIff(index.tree, index.height, key);
    var code := index.Delete(key);
    SameTakesOne(s, rows, index.Contents(), key);
  }

  lemma SameTakesOne(s: seq<I>, rows: seq<I>, s': seq<I>, key: Key)
    requires multiset(s) == multiset(rows) && !TakesOne(s, s', key)
    ensures !TakesOne(rows, s', key)
  {
    forall x | x in rows && x.key == key ensures multiset(rows) != multiset(s') + multiset{x} {
      assert x in multiset(rows);
      assert x in multiset(s);
      assert x in s;
    }
  }
}
