/**
 * The steps of the key engine on values: taking a key into a table, splitting
 * a full table, and removing a key with the help of a neighbour.
 */
module EngineTree {
  import opened Order
  import opened SearchTree
  import opened EngineTable
  import opened EngineSpec

  // ----- insertion -----

  /** What insert_table has done to the keys of a subtree: `ret` is the data
      offset of the new key, or of the one already there. */
  ghost predicate InsertOutcome(t: T, t': T, quid: Key, ret: int, exists_: bool) {
    if exists_ then Has(InOrder(t), quid) && t' == t && ret == Lookup(InOrder(t), quid)
    else !Has(InOrder(t), quid) && InOrder(t') == Put(InOrder(t), Item(quid, ret))
  }

  /** A table whose child i became l, with a new key and the child r after it. */
  function Grown(t: T, i: nat, l: T, x: I, r: T): T
    requires t.Node? && |t.kids| == |t.items| + 1 && i <= |t.items|
  {
    Node(t.off, t.items[..i] + [x] + t.items[i..], t.kids[..i] + [l, r] + t.kids[i + 1..])
  }

  lemma GrownShape(t: T, h: nat, lo: int, i: nat, l: T, x: I, r: T)
    requires t.Node? && Shape(t, h, lo, MAX_KEYS) && |t.kids| == |t.items| + 1 && i <= |t.items| && 0 < h
    requires Shape(l, h - 1, 1, MAX_KEYS) && Shape(r, h - 1, 1, MAX_KEYS)
    ensures Shape(Grown(t, i, l, x, r), h, lo, MAX_KEYS + 1)
  {
    var g := Grown(t, i, l, x, r);
    forall n | 0 <= n < |g.kids| ensures Shape(g.kids[n], h - 1, 1, MAX_KEYS) {
      assert g.kids[n] == if n < i then t.kids[n] else if n == i then l else if n == i + 1 then r else t.kids[n - 1];
    }
  }

  lemma GrownOffs(t: T, i: nat, l: T, x: I, r: T)
    requires t.Node? && |t.kids| == |t.items| + 1 && i <= |t.items|
    ensures Offs(Grown(t, i, l, x, r)) == multiset{t.off} + KidsOffs(t.kids[i := l]) + Offs(r)
    ensures KidsOffs(Grown(t, i, l, x, r).kids) == KidsOffs(t.kids[i := l]) + Offs(r)
  {
    var a, b, k := t.kids[..i], t.kids[i + 1..], t.kids[i := l];
    assert k[..i] == a && k[i + 1..] == b;
    KidsOffsAt(k, i);
    assert a + [l, r] + b == a + ([l, r] + b);
    KidsOffsConcat(a, [l, r] + b);
    KidsOffsConcat([l, r], b);
    KidsOffsPair(l, r);
  }

  /** Taking in, where the search stopped, what became of child i: the key is
      where it belongs. */
  lemma GrownPut(t: T, i: nat, l: T, x: I, r: T, y: I)
    requires t.Node? && |t.kids| == |t.items| + 1 && i <= |t.items| && Sorted(InOrder(t))
    requires IsLowerBound(t.items, y.key, i) && (i < |t.items| ==> t.items[i].key != y.key)
    requires !Has(InOrder(t.kids[i]), y.key) && InOrder(l) + [x] + InOrder(r) == Put(InOrder(t.kids[i]), y)
    ensures !Has(InOrder(t), y.key) && InOrder(Grown(t, i, l, x, r)) == Put(InOrder(t), y)
  {
    Descend(t.items, t.kids, y.key, i);
    FlatGrow(t.items, t.kids, i, l, x, r);
    HasBelow(t, y.key, i);
    PutInside(Before(t.items, t.kids, i), InOrder(t.kids[i]), After(t.items, t.kids, i), y);
  }

  /** Nothing to take in: only child i has changed. */
  lemma InsertPassed(t: T, h: nat, lo: int, i: nat, kid: T, quid: Key, ret: int, exists_: bool)
    requires t.Node? && Shape(t, h, lo, MAX_KEYS) && i <= |t.items| && Sorted(InOrder(t))
    requires IsLowerBound(t.items, quid, i) && (i < |t.items| ==> t.items[i].key != quid)
    requires InsertOutcome(t.kids[i], kid, quid, ret, exists_) && Shape(kid, h - 1, 1, MAX_KEYS)
    ensures var t' := Node(t.off, t.items, t.kids[i := kid]);
      InsertOutcome(t, t', quid, ret, exists_) && Shape(t', h, lo, MAX_KEYS)
  {
    Descend(t.items, t.kids, quid, i);
    FlatReplace(t.items, t.kids, i, kid);
    HasBelow(t, quid, i);
    if exists_ {
      assert t.kids[i := t.kids[i]] == t.kids;
    } else {
      PutInside(Before(t.items, t.kids, i), InOrder(t.kids[i]), After(t.items, t.kids, i), Item(quid, ret));
    }
  }

  lemma InsertFound(t: T, quid: Key, i: nat)
    requires t.Node? && |t.kids| == |t.items| + 1 && i < |t.items| && t.items[i].key == quid && Sorted(InOrder(t))
    ensures InsertOutcome(t, t, quid, t.items[i].val, true)
  {
    ItemAtRank(t, quid, i);
  }

  /** Into an empty place. */
  lemma InsertHere(quid: Key, ret: int)
    ensures var e: seq<I> := [];
      !Has(e, quid) && InOrder<int>(Nil) + [Item(quid, ret)] + InOrder<int>(Nil) == Put(e, Item(quid, ret))
  {
  }

  function LowerHalf(t: T): T
    requires t.Node? && |t.items| == TABLE_SIZE - 1 && |t.kids| == TABLE_SIZE
  {
    Node(t.off, t.items[..PIVOT], t.kids[..PIVOT + 1])
  }

  function UpperHalf(t: T, off: int): T
    requires t.Node? && |t.items| == TABLE_SIZE - 1 && |t.kids| == TABLE_SIZE
  {
    Node(off, t.items[PIVOT + 1..], t.kids[PIVOT + 1..])
  }

  lemma HalvesMean(t: T, h: nat, lo: int, off: int)
    requires t.Node? && Shape(t, h, lo, MAX_KEYS + 1) && |t.items| == TABLE_SIZE - 1 && |t.kids| == TABLE_SIZE
    ensures Shape(LowerHalf(t), h, 1, MAX_KEYS) && Shape(UpperHalf(t, off), h, 1, MAX_KEYS)
    ensures InOrder(t) == InOrder(LowerHalf(t)) + [t.items[PIVOT]] + InOrder(UpperHalf(t, off))
    ensures Offs(LowerHalf(t)) + Offs(UpperHalf(t, off)) == Offs(t) + multiset{off}
    ensures KidsOffs(t.kids) == KidsOffs(t.kids[..PIVOT + 1]) + KidsOffs(t.kids[PIVOT + 1..])
  {
    FlatCut(t.items, t.kids, PIVOT);
    KidsOffsCut(t.kids, PIVOT + 1);
  }

  lemma ReprKidsCut(d: map<int, Table>, ps: seq<int>, ks: seq<T>, m: nat)
    requires m <= |ks| && ReprKids(d, ps, ks)
    ensures ReprKids(d, ps[..m], ks[..m]) && ReprKids(d, ps[m..], ks[m..])
  {
  }

  lemma ReprKidsGrown(d: map<int, Table>, ps: seq<int>, t: T, i: nat, p: int, l: T, x: I, q: int, r: T)
    requires t.Node? && |t.kids| == |t.items| + 1 && i <= |t.items|
    requires ReprKids(d, ps, t.kids[i := l]) && ps[i] == p && Repr(d, q, r)
    ensures ReprKids(d, ps[..i] + [p, q] + ps[i + 1..], Grown(t, i, l, x, r).kids)
  {
    var k, ps', ks := t.kids[i := l], ps[..i] + [p, q] + ps[i + 1..], Grown(t, i, l, x, r).kids;
    forall n | 0 <= n < |ks| ensures Repr(d, ps'[n], ks[n]) {
      if n <= i {
        assert ps'[n] == ps[n] && ks[n] == k[n];
      } else if n > i + 1 {
        assert ps'[n] == ps[n - 1] && ks[n] == k[n - 1];
      }
    }
  }

  lemma RootGrown(off: int, l: T, x: I, r: T, h: nat)
    requires Shape(l, h, 1, MAX_KEYS) && Shape(r, h, 1, MAX_KEYS)
    ensures var t := Node(off, [x], [l, r]);
      Shape(t, h + 1, 1, MAX_KEYS) && InOrder(t) == InOrder(l) + [x] + InOrder(r) && Offs(t) == multiset{off} + Offs(l) + Offs(r)
  {
    KidsOffsPair(l, r);
    FlatOne(l, x, r);
  }

  // ----- removal -----

  /** One item is gone, the one at r, whose data offset is ret; or, when r is -1,
      none, and ret is 0. */
  ghost predicate Dropped(before: seq<I>, after: seq<I>, r: int, ret: int) {
    if r == -1 then after == before && ret == 0
    else 0 <= r < |before| && after == before[..r] + before[r + 1..] && ret == before[r].val
  }

  /** Which item delete_table removes: the first one not below the key, as long
      as the key is not locked. Behind a locked key it can only be a later one. */
  ghost predicate Removes(before: seq<I>, quid: Key, locked: bool, r: int) {
    var k := Rank(before, quid);
    if locked then Has(before, quid) && (r == -1 || r > k) else r == if k < |before| then k else -1
  }

  /** delete_table tells removal from failure by the data offset it returns, so
      the item it may remove has to have one. */
  ghost predicate Removable(s: seq<I>, quid: Key, locked: bool) {
    var k := Rank(s, quid);
    || (!locked && (k < |s| ==> s[k].val != 0))
    || forall j | 0 <= j < |s| :: s[j].val != 0
  }

  lemma RemovesNonzero(before: seq<I>, after: seq<I>, quid: Key, locked: bool, r: int, ret: int)
    requires Dropped(before, after, r, ret) && Removes(before, quid, locked, r) && Removable(before, quid, locked)
    ensures ret == 0 <==> r == -1
  {
  }

  /** Items i and child i+1 leave, child i becomes `kid`. */
  function Closed(t: T, i: nat, kid: T): T
    requires t.Node? && |t.kids| == |t.items| + 1 && i < |t.items|
  {
    Node(t.off, t.items[..i] + t.items[i + 1..], t.kids[..i] + [kid] + t.kids[i + 2..])
  }

  /** The items left and right of item i. */
  ghost function LeftOf(t: T, i: nat): seq<I>
    requires t.Node? && |t.kids| == |t.items| + 1 && i < |t.items|
  {
    Flat(t.items[..i], t.kids[..i + 1])
  }

  ghost function RightOf(t: T, i: nat): seq<I>
    requires t.Node? && |t.kids| == |t.items| + 1 && i < |t.items|
  {
    Flat(t.items[i + 1..], t.kids[i + 1..])
  }

  lemma AroundItem(t: T, i: nat)
    requires t.Node? && |t.kids| == |t.items| + 1 && i < |t.items|
    ensures InOrder(t) == LeftOf(t, i) + [t.items[i]] + RightOf(t, i)
    ensures LeftOf(t, i) == Before(t.items, t.kids, i) + InOrder(t.kids[i])
    ensures RightOf(t, i) == InOrder(t.kids[i + 1]) + After(t.items, t.kids, i + 1)
  {
    FlatCut(t.items, t.kids, i);
    LastKidOut(t.items[..i], t.kids[..i + 1]);
    BeforeLocal(t.items[..i], t.kids[..i + 1], t.items, t.kids, i);
    FlatTail(t.items, t.kids, i + 1);
  }

  lemma ClosedMeans(t: T, h: nat, lo: int, i: nat, kid: T)
    requires t.Node? && Shape(t, h, lo, MAX_KEYS) && |t.kids| == |t.items| + 1 && i < |t.items|
    requires (kid == t.kids[i] && t.kids[i + 1] == Nil) || (kid == t.kids[i + 1] && t.kids[i] == Nil)
    ensures InOrder(Closed(t, i, kid)) == LeftOf(t, i) + RightOf(t, i)
    ensures Shape(Closed(t, i, kid), h, 0, MAX_KEYS)
    ensures KidsOffs(Closed(t, i, kid).kids) == KidsOffs(t.kids)
  {
    ClosedItems(t, i, kid);
    ClosedOffs(t, i, kid);
    var c := Closed(t, i, kid);
    forall n | 0 <= n < |c.kids| ensures Shape(c.kids[n], h - 1, 1, MAX_KEYS) {
      assert c.kids[n] == if n < i then t.kids[n] else if n == i then kid else t.kids[n + 1];
    }
  }

  lemma ClosedItems(t: T, i: nat, kid: T)
    requires t.Node? && |t.kids| == |t.items| + 1 && i < |t.items|
    requires (kid == t.kids[i] && t.kids[i + 1] == Nil) || (kid == t.kids[i + 1] && t.kids[i] == Nil)
    ensures InOrder(Closed(t, i, kid)) == LeftOf(t, i) + RightOf(t, i)
  {
    var c := Closed(t, i, kid);
    AroundItem(t, i);
    ClosedAround(t, i, kid);
    FlatAt(c.items, c.kids, i);
    hide Flat, Before, After, LeftOf, RightOf;
    var b, a := Before(t.items, t.kids, i), After(t.items, t.kids, i + 1);
    assert c.kids[i] == kid && InOrder<int>(Nil) == [];
    if t.kids[i] == Nil {
      assert b + [] == b;
      Assoc(b, InOrder(kid), a);
    } else {
      assert [] + a == a;
    }
  }

  lemma ClosedAround(t: T, i: nat, kid: T)
    requires t.Node? && |t.kids| == |t.items| + 1 && i < |t.items|
    ensures var c := Closed(t, i, kid);
      && Before(c.items, c.kids, i) == Before(t.items, t.kids, i)
      && After(c.items, c.kids, i) == After(t.items, t.kids, i + 1)
  {
    var c := Closed(t, i, kid);
    BeforeLocal(c.items, c.kids, t.items, t.kids, i);
    assert i < |c.items| ==> c.items[i] == t.items[i + 1] && c.items[i + 1..] == t.items[i + 2..] && c.kids[i + 1..] == t.kids[i + 2..];
  }

  lemma ClosedOffs(t: T, i: nat, kid: T)
    requires t.Node? && |t.kids| == |t.items| + 1 && i < |t.items|
    requires (kid == t.kids[i] && t.kids[i + 1] == Nil) || (kid == t.kids[i + 1] && t.kids[i] == Nil)
    ensures KidsOffs(Closed(t, i, kid).kids) == KidsOffs(t.kids)
  {
    var c := Closed(t, i, kid);
    KidsOffsAt(t.kids, i);
    KidsOffsAt(t.kids[i + 1..], 0);
    KidsOffsAt(c.kids, i);
    assert t.kids[i + 1..][0] == t.kids[i + 1] && t.kids[i + 1..][1..] == t.kids[i + 2..] && t.kids[i + 1..][..0] == [];
    assert c.kids[..i] == t.kids[..i] && c.kids[i + 1..] == t.kids[i + 2..];
  }

  /** Item i gives way to its neighbour, taken out of the child left of it. */
  lemma ReplacedFromLeft(t: T, i: nat, x: I, kid: T)
    requires t.Node? && |t.kids| == |t.items| + 1 && i < |t.items|
    requires InOrder(t.kids[i]) == InOrder(kid) + [x]
    ensures InOrder(Node(t.off, t.items[i := x], t.kids[i := kid])) == LeftOf(t, i) + RightOf(t, i)
  {
    var c := Node(t.off, t.items[i := x], t.kids[i := kid]);
    assert Before(c.items, c.kids, i) == Before(t.items, t.kids, i) by {
      BeforeLocal(c.items, c.kids, t.items, t.kids, i);
    }
    assert RightOf(c, i) == RightOf(t, i) by {
      assert c.items[i + 1..] == t.items[i + 1..] && c.kids[i + 1..] == t.kids[i + 1..];
    }
    AroundItem(t, i);
    AroundItem(c, i);
    hide Flat, Before, After, LeftOf, RightOf;
    assert InOrder(c) == LeftOf(c, i) + [x] + RightOf(c, i);
    Assoc(Before(t.items, t.kids, i), InOrder(kid), [x]);
  }

  lemma ReplacedFromRight(t: T, i: nat, x: I, kid: T)
    requires t.Node? && |t.kids| == |t.items| + 1 && i < |t.items|
    requires InOrder(t.kids[i + 1]) == [x] + InOrder(kid)
    ensures InOrder(Node(t.off, t.items[i := x], t.kids[i + 1 := kid])) == LeftOf(t, i) + RightOf(t, i)
  {
    var c := Node(t.off, t.items[i := x], t.kids[i + 1 := kid]);
    assert LeftOf(c, i) == LeftOf(t, i) by {
      assert c.items[..i] == t.items[..i] && c.kids[..i + 1] == t.kids[..i + 1];
    }
    assert After(c.items, c.kids, i + 1) == After(t.items, t.kids, i + 1) by {
      assert i + 1 < |c.items| ==> c.items[i + 2..] == t.items[i + 2..] && c.kids[i + 2..] == t.kids[i + 2..];
    }
    AroundItem(t, i);
    AroundItem(c, i);
    hide Flat, Before, After, LeftOf, RightOf;
    var l, k, a := LeftOf(t, i), InOrder(kid), After(t.items, t.kids, i + 1);
    assert InOrder(c) == l + [x] + (k + a);
    Assoc(l, [x], k + a);
    Assoc([x], k, a);
  }

  /** A subtree without its largest or its smallest item, when that item is in
      the top table. */
  lemma LastRemoved(t: T)
    requires t.Node? && |t.kids| == |t.items| + 1 && 0 < |t.items| && t.kids[|t.items|] == Nil
    ensures var i := |t.items| - 1;
      InOrder(t) == LeftOf(t, i) + RightOf(t, i) + [t.items[i]]
  {
    AroundItem(t, |t.items| - 1);
    assert RightOf(t, |t.items| - 1) == [];
  }

  lemma FirstRemoved(t: T)
    requires t.Node? && |t.kids| == |t.items| + 1 && 0 < |t.items| && t.kids[0] == Nil
    ensures InOrder(t) == [t.items[0]] + (LeftOf(t, 0) + RightOf(t, 0))
  {
    AroundItem(t, 0);
    assert LeftOf(t, 0) == [];
  }

  /** ... and when it is below. */
  lemma LastBelow(t: T, x: I, kid: T)
    requires t.Node? && |t.kids| == |t.items| + 1
    requires InOrder(t.kids[|t.items|]) == InOrder(kid) + [x]
    ensures InOrder(t) == InOrder(Node(t.off, t.items, t.kids[|t.items| := kid])) + [x]
  {
    FlatReplace(t.items, t.kids, |t.items|, kid);
    LastKidOut(t.items, t.kids);
  }

  lemma FirstBelow(t: T, x: I, kid: T)
    requires t.Node? && |t.kids| == |t.items| + 1
    requires InOrder(t.kids[0]) == [x] + InOrder(kid)
    ensures InOrder(t) == [x] + InOrder(Node(t.off, t.items, t.kids[0 := kid]))
  {
    FlatReplace(t.items, t.kids, 0, kid);
    FlatAt(t.items, t.kids, 0);
    Assoc([x], InOrder(kid), After(t.items, t.kids, 0));
  }

  lemma ShapeReplaced(t: T, h: nat, lo: int, i: nat, items: seq<I>, kid: T)
    requires t.Node? && Shape(t, h, lo, MAX_KEYS) && i < |t.kids| && |items| == |t.items| && Shape(kid, h - 1, 1, MAX_KEYS)
    ensures Shape(Node(t.off, items, t.kids[i := kid]), h, lo, MAX_KEYS)
  {
  }

  /** An emptied table stands for its only child. */
  lemma JoinedMeans(disk: map<int, Table>, t: T, h: nat)
    requires t.Node? && Shape(t, h, 0, MAX_KEYS) && |t.items| == 0 && Repr(disk, t.off, t)
    ensures |t.kids| == 1 && disk[t.off].Ok() && Repr(disk, disk[t.off].slots[0].child, t.kids[0])
    ensures Shape(t.kids[0], h, 1, MAX_KEYS) && InOrder(t.kids[0]) == InOrder(t)
    ensures Offs(t) == multiset{t.off} + Offs(t.kids[0])
  {
    assert disk[t.off].Kids()[0] == disk[t.off].slots[0].child;
    ShapeMonotone(t.kids[0], h - 1, 1, MAX_KEYS, h, 1, MAX_KEYS);
    assert KidsOffs(t.kids[1..]) == multiset{};
  }

  // ----- the recursion of delete_table -----

  /** The search for a key, seen from below and from above. */
  lemma Located(t: T, i: nat, quid: Key)
    requires t.Node? && |t.kids| == |t.items| + 1 && i <= |t.items| && Sorted(InOrder(t))
    requires IsLowerBound(t.items, quid, i) && (i < |t.items| ==> t.items[i].key != quid)
    ensures InOrder(t) == Before(t.items, t.kids, i) + InOrder(t.kids[i]) + After(t.items, t.kids, i)
    ensures Rank(InOrder(t), quid) == |Before(t.items, t.kids, i)| + Rank(InOrder(t.kids[i]), quid)
    ensures Has(InOrder(t), quid) == Has(InOrder(t.kids[i]), quid)
    ensures i == |t.items| ==> After(t.items, t.kids, i) == []
  {
    Descend(t.items, t.kids, quid, i);
    HasBelow(t, quid, i);
    RankInside(Before(t.items, t.kids, i), InOrder(t.kids[i]), After(t.items, t.kids, i), quid);
  }

  /** Removed below, in child i. */
  lemma DeletePassed(t: T, i: nat, kid: T, quid: Key, locked: bool, r: int, ret: int)
    requires t.Node? && |t.kids| == |t.items| + 1 && i <= |t.items| && Sorted(InOrder(t))
    requires IsLowerBound(t.items, quid, i) && (i < |t.items| ==> t.items[i].key != quid)
    requires Dropped(InOrder(t.kids[i]), InOrder(kid), r, ret) && Removes(InOrder(t.kids[i]), quid, locked, r)
    requires r != -1 || i == |t.items|
    ensures var r' := if r == -1 then -1 else |Before(t.items, t.kids, i)| + r;
      && Dropped(InOrder(t), InOrder(Node(t.off, t.items, t.kids[i := kid])), r', ret)
      && Removes(InOrder(t), quid, locked, r')
  {
    hide Before, After, IsLowerBound, Sorted, Rank, Has;
    Located(t, i, quid);
    FlatReplace(t.items, t.kids, i, kid);
    PassedInside(Before(t.items, t.kids, i), InOrder(t.kids[i]), InOrder(kid), After(t.items, t.kids, i), quid, locked, r, ret);
  }

  lemma PassedInside(b: seq<I>, m: seq<I>, m': seq<I>, a: seq<I>, quid: Key, locked: bool, r: int, ret: int)
    requires Dropped(m, m', r, ret) && Removes(m, quid, locked, r)
    requires Rank(b + m + a, quid) == |b| + Rank(m, quid) && Has(b + m + a, quid) == Has(m, quid)
    requires r != -1 || a == []
    ensures var r' := if r == -1 then -1 else |b| + r;
      Dropped(b + m + a, b + m' + a, r', ret) && Removes(b + m + a, quid, locked, r')
  {
    hide Rank, Has;
    if r != -1 {
      DroppedInside(b, m, m', a, r, ret);
    } else {
      assert b + m + [] == b + m;
    }
  }

  lemma DroppedInside(b: seq<I>, m: seq<I>, m': seq<I>, a: seq<I>, r: nat, ret: int)
    requires Dropped(m, m', r, ret)
    ensures Dropped(b + m + a, b + m' + a, |b| + r, ret)
  {
    SliceInside(b, m, a, r);
    SliceInside(b, m, a, r + 1);
    var p, q := m[..r], m[r + 1..];
    assert (b + p) + (q + a) == b + (p + q) + a;
  }

  /** Not removed below: item i is the next one. */
  lemma DeleteNext(t: T, i: nat, kid: T, after: seq<I>, quid: Key, locked: bool, ret: int)
    requires t.Node? && |t.kids| == |t.items| + 1 && i < |t.items| && Sorted(InOrder(t))
    requires IsLowerBound(t.items, quid, i) && t.items[i].key != quid
    requires Removes(InOrder(t.kids[i]), quid, locked, -1)
    requires after == LeftOf(t, i) + RightOf(t, i) && ret == t.items[i].val
    ensures Dropped(InOrder(t), after, |LeftOf(t, i)|, ret) && Removes(InOrder(t), quid, locked, |LeftOf(t, i)|)
  {
    Located(t, i, quid);
    AroundItem(t, i);
    hide Flat, Before, After, LeftOf, RightOf, IsLowerBound, Sorted, Rank, Has;
    DroppedAround(LeftOf(t, i), t.items[i], RightOf(t, i));
  }

  lemma DroppedAround(a: seq<I>, x: I, b: seq<I>)
    ensures Dropped(a + [x] + b, a + b, |a|, x.val)
  {
    var s := a + [x] + b;
    assert s[..|a|] == a && s[|a| + 1..] == b;
  }

  /** Removed right here. */
  lemma DeleteFound(t: T, i: nat, after: seq<I>, ret: int)
    requires t.Node? && |t.kids| == |t.items| + 1 && i < |t.items| && Sorted(InOrder(t))
    requires after == LeftOf(t, i) + RightOf(t, i) && ret == t.items[i].val
    ensures Dropped(InOrder(t), after, |LeftOf(t, i)|, ret) && Removes(InOrder(t), t.items[i].key, false, |LeftOf(t, i)|)
  {
    ItemAtRank(t, t.items[i].key, i);
    AroundItem(t, i);
    DroppedAround(LeftOf(t, i), t.items[i], RightOf(t, i));
  }

  /** The condition of removal holds for the child, too. */
  lemma RemovableBelow(t: T, i: nat, quid: Key, locked: bool)
    requires t.Node? && |t.kids| == |t.items| + 1 && i <= |t.items| && Sorted(InOrder(t))
    requires IsLowerBound(t.items, quid, i) && Removable(InOrder(t), quid, locked)
    ensures Removable(InOrder(t.kids[i]), quid, locked)
  {
    Descend(t.items, t.kids, quid, i);
    var b, m, a := Before(t.items, t.kids, i), InOrder(t.kids[i]), After(t.items, t.kids, i);
    RankInside(b, m, a, quid);
    hide Flat, Before, After, IsLowerBound, Sorted, Rank;
    assert forall j | 0 <= j < |m| :: (b + m + a)[|b| + j] == m[j];
  }

  /** Where the next separator on the search path for a key is among all items:
      the first key right of where the search went on, from the bottom up. */
  ghost function NextSeparator(t: T, quid: Key): int {
    match t
    case Nil => -1
    case Node(_, items, kids) =>
      var i := Rank(items, quid);
      if |kids| != |items| + 1 || (i < |items| && items[i].key == quid) then -1
      else
        var n := NextSeparator(kids[i], quid);
        if n != -1 then |Before(items, kids, i)| + n else if i < |items| then |LeftOf(t, i)| else -1
  }

  /** What delete_table has done to the subtree t of a store d. */
  ghost predicate DeleteOutcome(d: map<int, Table>, t: T, t': T, quid: Key, ret: int, error: bool, r: int) {
    && Dropped(InOrder(t), InOrder(t'), r, ret) && Removes(InOrder(t), quid, Locked(d, t, quid), r)
    && (error <==> !Has(InOrder(t), quid) || Locked(d, t, quid))
    && (r == -1 ==> t' == t) && (t.Nil? ==> r == -1)
    && (Locked(d, t, quid) ==> r == NextSeparator(t, quid))
  }

  // ----- when the top table is left empty -----

  /** Taking out item r takes the only key of the top table, and no child on both
      sides gives another one. */
  ghost predicate Empties(t: T, r: int) {
    && t.Node? && |t.items| == 1 && |t.kids| == 2
    && r == |InOrder(t.kids[0])| && (t.kids[0].Nil? || t.kids[1].Nil?)
  }

  ghost predicate Counted(t: T, t': T, r: int) {
    t.Node? && 0 < |t.items| ==> t'.Node? && (|t'.items| == 0 <==> Empties(t, r))
  }

  lemma CountedSame(t: T)
    ensures Counted(t, t, -1)
  {
  }

  lemma CountedHere(t: T, t': T, i: nat)
    requires t.Node? && t'.Node? && |t.kids| == |t.items| + 1 && i < |t.items|
    requires |t'.items| == if t.kids[i].Nil? || t.kids[i + 1].Nil? then |t.items| - 1 else |t.items|
    ensures Counted(t, t', |LeftOf(t, i)|)
  {
    AroundItem(t, i);
    if |t.items| == 1 {
      assert Before(t.items, t.kids, 0) == [];
    }
  }

  lemma CountedBelow(d: map<int, Table>, t: T, i: nat, kid: T, kid': T, quid: Key, ret: int, error: bool, r: int)
    requires t.Node? && |t.kids| == |t.items| + 1 && i <= |t.items|
    requires DeleteOutcome(d, t.kids[i], kid, quid, ret, error, r) && r != -1
    ensures Counted(t, Node(t.off, t.items, t.kids[i := kid']), |Before(t.items, t.kids, i)| + r)
  {
    if |t.items| == 1 {
      assert Before(t.items, t.kids, 0) == [];
      LastKidOut(t.items, t.kids);
      FlatCut(t.items, t.kids, 0);
      assert t.items[..0] == [] && t.kids[..1] == [t.kids[0]];
    }
  }

  lemma TopEmptied(t: T, t': T, h: nat, r: int)
    requires Counted(t, t', r) && Shape(t', h, 0, MAX_KEYS) && (t'.Node? <==> t.Node?)
    ensures Shape(t, h, 1, MAX_KEYS) ==> (Shape(t', h, 1, MAX_KEYS) <==> !Empties(t, r))
  {
  }

  lemma DeleteNothing(d: map<int, Table>, quid: Key)
    ensures DeleteOutcome(d, Nil, Nil, quid, 0, true, -1)
  {
  }

  /** A locked key is the one the search finds. */
  lemma LockedHere(d: map<int, Table>, t: T, quid: Key, i: nat)
    requires t.Node? && |t.kids| == |t.items| + 1 && i < |t.items| && t.items[i].key == quid
    requires IsLowerBound(t.items, quid, i) && t.off in d && d[t.off].Ok() && d[t.off].Keys() == t.items
    ensures Locked(d, t, quid) <==> d[t.off].slots[i].meta.syslock || d[t.off].slots[i].meta.freeze
  {
    LowerBoundIsRank(t.items, quid, i);
  }

  lemma LockedBelow(d: map<int, Table>, t: T, quid: Key, i: nat)
    requires t.Node? && |t.kids| == |t.items| + 1 && i <= |t.items| && (i < |t.items| ==> t.items[i].key != quid)
    requires IsLowerBound(t.items, quid, i)
    ensures Locked(d, t, quid) == Locked(d, t.kids[i], quid)
  {
    LowerBoundIsRank(t.items, quid, i);
  }

  lemma LockedRefused(d: map<int, Table>, t: T, quid: Key, i: nat)
    requires t.Node? && |t.kids| == |t.items| + 1 && i < |t.items| && t.items[i].key == quid && Sorted(InOrder(t))
    requires Locked(d, t, quid)
    ensures DeleteOutcome(d, t, t, quid, 0, true, -1)
  {
    ItemAtRank(t, quid, i);
    SortedNode(t.items, t.kids);
    RankStopsBefore(t.items, quid, i);
  }

  lemma FoundOutcome(d: map<int, Table>, t: T, t': T, i: nat)
    requires t.Node? && |t.kids| == |t.items| + 1 && i < |t.items| && Sorted(InOrder(t)) && !Locked(d, t, t.items[i].key)
    requires InOrder(t') == LeftOf(t, i) + RightOf(t, i)
    ensures DeleteOutcome(d, t, t', t.items[i].key, t.items[i].val, false, |LeftOf(t, i)|)
  {
    ItemAtRank(t, t.items[i].key, i);
    DeleteFound(t, i, InOrder(t'), t.items[i].val);
  }

  /** Removed below, or nothing to remove. */
  lemma BelowOutcome(d: map<int, Table>, t: T, i: nat, kid: T, kid': T, quid: Key, ret: int, error: bool, r: int)
    requires t.Node? && |t.kids| == |t.items| + 1 && i <= |t.items| && Sorted(InOrder(t))
    requires IsLowerBound(t.items, quid, i) && (i < |t.items| ==> t.items[i].key != quid)
    requires DeleteOutcome(d, t.kids[i], kid, quid, ret, error, r) && InOrder(kid') == InOrder(kid)
    requires r != -1 || (i == |t.items| && kid' == kid)
    ensures DeleteOutcome(d, t, Node(t.off, t.items, t.kids[i := kid']), quid, ret, error,
                          if r == -1 then -1 else |Before(t.items, t.kids, i)| + r)
  {
    LockedBelow(d, t, quid, i);
    LowerBoundIsRank(t.items, quid, i);
    Located(t, i, quid);
    DeletePassed(t, i, kid', quid, Locked(d, t, quid), r, ret);
    assert t.kids[i := t.kids[i]] == t.kids;
  }

  lemma NextOutcome(d: map<int, Table>, t: T, i: nat, t': T, quid: Key, error: bool)
    requires t.Node? && |t.kids| == |t.items| + 1 && i < |t.items| && Sorted(InOrder(t))
    requires IsLowerBound(t.items, quid, i) && t.items[i].key != quid
    requires DeleteOutcome(d, t.kids[i], t.kids[i], quid, 0, error, -1)
    requires InOrder(t') == LeftOf(t, i) + RightOf(t, i)
    ensures DeleteOutcome(d, t, t', quid, t.items[i].val, error, |LeftOf(t, i)|)
  {
    LockedBelow(d, t, quid, i);
    LowerBoundIsRank(t.items, quid, i);
    Located(t, i, quid);
    DeleteNext(t, i, t.kids[i], InOrder(t'), quid, Locked(d, t, quid), t.items[i].val);
  }

  /** delete_table returns 0 exactly when it has removed nothing. */
  lemma RetTells(d: map<int, Table>, t: T, t': T, quid: Key, ret: int, error: bool, r: int)
    requires DeleteOutcome(d, t, t', quid, ret, error, r) && Removable(InOrder(t), quid, Locked(d, t, quid))
    ensures ret == 0 <==> r == -1
    ensures r == -1 ==> t' == t
    ensures r != -1 ==> t.Node?
  {
    RemovesNonzero(InOrder(t), InOrder(t'), quid, Locked(d, t, quid), r, ret);
  }
}
