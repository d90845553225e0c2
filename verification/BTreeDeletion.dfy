/**
 * Deletion from the secondary index, on values: removing from a leaf, swapping
 * with the predecessor, and repairing an underfull child by rotating an item
 * through the parent or by merging.
 */
module BTreeDeletion {
  import opened Order
  import opened SearchTree
  import opened OrderedTree
  import opened Ownership
  import opened BTreeNode
  import opened BTreeSpec

  /** In search order, and the key is not cut off when it is copied by the key_size
      of an item that holds it; the last item is never copied over. */
  ghost predicate Exact(s: seq<I>, key: Key) {
    InSearchOrder(s) && forall k | 0 <= k < |s| - 1 && s[k].key == key :: |key| <= s[k].val.keySize
  }

  lemma SizedExact(s: seq<I>, key: Key)
    requires InSearchOrder(s) && AllSized(s)
    ensures Exact(s, key)
  {
  }

  lemma ExactInside(a: seq<I>, m: seq<I>, b: seq<I>, key: Key)
    requires Exact(a + m + b, key)
    ensures Exact(m, key)
  {
    OrderAround(a, m, b);
    forall k | 0 <= k < |m| - 1 && m[k].key == key ensures |key| <= m[k].val.keySize {
      assert (a + m + b)[|a| + k] == m[k];
    }
  }

  lemma ExactKid(t: T, i: nat, key: Key)
    requires t.Node? && |t.kids| == |t.items| + 1 && i <= |t.items| && Exact(InOrder(t), key)
    ensures Exact(InOrder(t.kids[i]), key)
  {
    FlatAt(t.items, t.kids, i);
    ExactInside(Before(t.items, t.kids, i), InOrder(t.kids[i]), After(t.items, t.kids, i), key);
  }

  /** An item above the leaves is not the last one. */
  lemma ExactItem(t: T, h: nat, m: int, i: nat, key: Key)
    requires t.Node? && |t.kids| == |t.items| + 1 && i < |t.items| && 1 < h && Shape(t, h, m) && Exact(InOrder(t), key)
    requires t.items[i].key == key
    ensures Strlcpy(key, t.items[i].val.keySize) == key
  {
    FlatCut(t.items, t.kids, i);
    var a, b := Flat(t.items[..i], t.kids[..i + 1]), Flat(t.items[i + 1..], t.kids[i + 1..]);
    FlatNonempty(t, h, m, i);
    assert (a + [t.items[i]] + b)[|a|] == t.items[i];
  }

  lemma FlatNonempty(t: T, h: nat, m: int, i: nat)
    requires t.Node? && |t.kids| == |t.items| + 1 && i < |t.items| && 1 < h && Shape(t, h, m)
    ensures |Flat(t.items[i + 1..], t.kids[i + 1..])| > 0
  {
    var kid := t.kids[i + 1];
    assert Shape(kid, h - 1, INDEX_MSIZE);
    ItemsInFlat(kid.items, kid.kids);
    assert kid.items[0] in InOrder(kid);
    FlatAt(t.items[i + 1..], t.kids[i + 1..], 0);
  }

  // ----- what is left after a deletion -----

  /** The item of this node that the search stops at. */
  predicate Hit(t: T, key: Key) {
    t.Node? && var i := Rank(t.items, key);
    i < |t.items| && t.items[i].key == key
  }

  /** The items left in a subtree, in order: in a leaf the first item with the key
      goes; above, it is replaced by its predecessor, whose place in the leaf
      gets the key, and the search for the key goes on below. */
  ghost function Dropped(t: T, h: nat, key: Key): seq<I>
    decreases h
  {
    if h == 0 || !Shape(t, h, 1) then []
    else
      var i := Rank(t.items, key);
      if h == 1 then InOrder(if Hit(t, key) then LeafWithout(t, i) else t)
      else
        var b := Before(t.items, t.kids, i);
        DownShape(t, h, i);
        if Hit(t, key) then
          var copy := Strlcpy(key, t.items[i].val.keySize);
          b + Dropped(Rekeyed(t.kids[i], copy), h - 1, key)
            + ([LastItem(t.kids[i])] + Flat(t.items[i + 1..], t.kids[i + 1..]))
        else b + Dropped(t.kids[i], h - 1, key) + After(t.items, t.kids, i)
  }

  lemma DownShape(t: T, h: nat, i: nat)
    requires Shape(t, h, 1) && 1 < h && i <= |t.items|
    ensures t.kids[i].Node? && RightSpine(t.kids[i]) && Shape(t.kids[i], h - 1, INDEX_MSIZE) && Shape(t.kids[i], h - 1, 1)
  {
    assert Shape(t.kids[i], h - 1, INDEX_MSIZE);
    ShapeSpine(t.kids[i], h - 1, INDEX_MSIZE);
    ShapeMonotone(t.kids[i], h - 1, INDEX_MSIZE, 1);
  }

  ghost predicate Deleted(t: T, h: nat, after: seq<I>, key: Key)
  {
    Exact(InOrder(t), key) ==> Has(InOrder(t), key) && after == Dropped(t, h, key)
  }

  /** What delete has done to a subtree of height h whose top node has to keep
      at least m items. */
  ghost predicate DeleteOutcome(code: Status, t: T, h: nat, m: int, t': T, key: Key) {
    match code
    case SUCCESS => Shape(t', h, m) && Deleted(t, h, InOrder(t'), key)
    case UNDERFLOW => Starved(t', h, m) && Deleted(t, h, InOrder(t'), key)
    case NOTFOUND => Shape(t', h, m) && (Exact(InOrder(t), key) ==> !Has(InOrder(t), key) && t' == t)
    case _ => false
  }

  /** Well shaped but for one item too few in the top node. */
  ghost predicate Starved(t: T, h: nat, m: int) {
    0 < h && t.Node? && |t.items| == m - 1 && Shape(t, h, m - 1)
  }

  // ----- leaves -----

  lemma LeafKids(t: T, h: nat, m: int)
    requires t.Node? && 0 < h && Shape(t, h, m) && t.kids[0] == Nil && 0 <= m
    ensures h == 1 && forall i | 0 <= i < |t.kids| :: t.kids[i] == Nil
  {
    assert Shape(t.kids[0], h - 1, INDEX_MSIZE);
    forall i | 0 <= i < |t.kids| ensures t.kids[i] == Nil {
      assert Shape(t.kids[i], h - 1, INDEX_MSIZE);
    }
  }

  function LeafWithout(t: T, i: nat): T
    requires t.Node? && i < |t.items| && |t.kids| == |t.items| + 1
  {
    Node(t.off, t.items[..i] + t.items[i + 1..], t.kids[..i + 1] + t.kids[i + 2..])
  }

  lemma LeafDeleted(t: T, h: nat, m: int, i: nat, key: Key)
    requires t.Node? && Shape(t, h, m) && 0 < h && 1 <= m && t.kids[0] == Nil
    requires InSearchOrder(t.items) ==> IsLowerBound(t.items, key, i)
    requires i < |t.items| && t.items[i].key == key
    ensures DeleteOutcome(if |t.items| - 1 >= m then SUCCESS else UNDERFLOW, t, h, m, LeafWithout(t, i), key)
    ensures Offs(LeafWithout(t, i)) == Offs(t)
  {
    LeafKids(t, h, m);
    ShapeMonotone(t, h, m, 1);
    var t' := LeafWithout(t, i);
    FlatLeaf(t.items, t.kids);
    FlatLeaf(t'.items, t'.kids);
    if InSearchOrder(t.items) {
      LowerBoundIsRank(t.items, key, i);
    }
    KidsOffsNil(t.kids);
    KidsOffsNil(t'.kids);
  }

  lemma {:induction false} KidsOffsNil(kids: seq<T>)
    requires forall i | 0 <= i < |kids| :: kids[i] == Nil
    ensures KidsOffs(kids) == multiset{}
  {
    if kids != [] {
      KidsOffsNil(kids[1..]);
    }
  }

  lemma LeafMisses(t: T, h: nat, m: int, i: nat, key: Key)
    requires t.Node? && Shape(t, h, m) && 0 < h && t.kids[0] == Nil && 0 <= m
    requires i <= |t.items| && (InSearchOrder(t.items) ==> IsLowerBound(t.items, key, i))
    requires i < |t.items| ==> t.items[i].key != key
    ensures DeleteOutcome(NOTFOUND, t, h, m, t, key)
  {
    LeafKids(t, h, m);
    FlatLeaf(t.items, t.kids);
    if InSearchOrder(t.items) {
      LowerBoundIsRank(t.items, key, i);
    }
  }

  // ----- passing a deletion up through a node -----

  /** A key that is not in this node is looked for in the child at its rank only. */
  lemma HasInKid(t: T, i: nat, key: Key)
    requires t.Node? && |t.kids| == |t.items| + 1 && i <= |t.items| && InSearchOrder(InOrder(t))
    requires IsLowerBound(t.items, key, i) && (i < |t.items| ==> t.items[i].key != key)
    ensures Has(InOrder(t), key) == Has(InOrder(t.kids[i]), key)
  {
    DescendOrder(t.items, t.kids, key, i);
    HasInside(Before(t.items, t.kids, i), InOrder(t.kids[i]), After(t.items, t.kids, i), key);
  }

  /** Deleted below, in the child the search went down to. */
  lemma ReplacedDeleted(t: T, h: nat, i: nat, kid: T, key: Key)
    requires Shape(t, h, 1) && 1 < h && i <= |t.items|
    requires InSearchOrder(t.items) ==> IsLowerBound(t.items, key, i)
    requires i < |t.items| ==> t.items[i].key != key
    requires Deleted(t.kids[i], h - 1, InOrder(kid), key)
    ensures Deleted(t, h, InOrder(Node(t.off, t.items, t.kids[i := kid])), key)
  {
    if Exact(InOrder(t), key) {
      OrderedItems(t.items, t.kids);
      LowerBoundIsRank(t.items, key, i);
      ExactKid(t, i, key);
      HasInKid(t, i, key);
      FlatReplace(t.items, t.kids, i, kid);
      hide Flat, InOrder, Before, After, Rank;
    }
  }

  // ----- the predecessor swap -----

  /** The rightmost item of a subtree, where it is stored, and the subtree with
      that item's key overwritten. */
  function LastItem(t: T): I
    requires t.Node? && RightSpine(t)
  {
    if t.kids[|t.items|] == Nil then t.items[|t.items| - 1] else LastItem(t.kids[|t.items|])
  }

  function LastOff(t: T): int
    requires t.Node? && RightSpine(t)
  {
    if t.kids[|t.items|] == Nil then t.off else LastOff(t.kids[|t.items|])
  }

  function Rekeyed(t: T, key: Key): T
    requires t.Node? && RightSpine(t)
  {
    var n := |t.items|;
    if t.kids[n] == Nil then Node(t.off, t.items[n - 1 := Item(key, t.items[n - 1].val)], t.kids)
    else Node(t.off, t.items, t.kids[n := Rekeyed(t.kids[n], key)])
  }

  /** Every node along the rightmost branch holds an item. */
  predicate RightSpine(t: T) {
    t.Node? ==> 1 <= |t.items| && |t.kids| == |t.items| + 1 && RightSpine(t.kids[|t.items|])
  }

  lemma {:induction false} ShapeSpine(t: T, h: nat, m: int)
    requires Shape(t, h, m) && 1 <= m
    ensures RightSpine(t)
  {
    if h > 0 {
      ShapeSpine(t.kids[|t.items|], h - 1, INDEX_MSIZE);
    }
  }

  lemma {:induction false} RekeyedInOrder(t: T, key: Key)
    requires t.Node? && RightSpine(t)
    ensures |InOrder(t)| > 0 && InOrder(t)[|InOrder(t)| - 1] == LastItem(t)
    ensures InOrder(Rekeyed(t, key)) == InOrder(t)[..|InOrder(t)| - 1] + [Item(key, LastItem(t).val)]
    decreases t
  {
    hide Flat, Before;
    var n, t' := |t.items|, Rekeyed(t, key);
    LastKidOut(t.items, t.kids);
    LastKidOut(t'.items, t'.kids);
    if t.kids[n] == Nil {
      RekeyedLeaf(t, key);
    } else {
      RekeyedInOrder(t.kids[n], key);
      BeforeLocal(t.items, t.kids, t'.items, t'.kids, n);
      SliceLast(Before(t.items, t.kids, n), InOrder(t.kids[n]), Item(key, LastItem(t).val));
    }
  }

  lemma SliceLast(a: seq<I>, b: seq<I>, x: I)
    requires |b| > 0
    ensures (a + b)[|a + b| - 1] == b[|b| - 1]
    ensures (a + b)[..|a + b| - 1] + [x] == a + (b[..|b| - 1] + [x])
  {
  }

  lemma RekeyedLeaf(t: T, key: Key)
    requires t.Node? && RightSpine(t) && t.kids[|t.items|] == Nil
    ensures var n, t' := |t.items|, Rekeyed(t, key);
      && Before(t.items, t.kids, n) == Flat(t.items[..n - 1], t.kids[..n]) + [t.items[n - 1]]
      && Before(t'.items, t'.kids, n) == Flat(t.items[..n - 1], t.kids[..n]) + [Item(key, t.items[n - 1].val)]
  {
    var n, t' := |t.items|, Rekeyed(t, key);
    assert t'.items[..n - 1] == t.items[..n - 1];
  }

  lemma {:induction false} RekeyedOffs(t: T, key: Key)
    requires t.Node? && RightSpine(t)
    ensures Offs(Rekeyed(t, key)) == Offs(t) && LastOff(t) in Offs(t)
    decreases t
  {
    var n := |t.items|;
    if t.kids[n] != Nil {
      RekeyedOffs(t.kids[n], key);
      KidsOffsReplace(t.kids, n, Rekeyed(t.kids[n], key));
      KidsOffsAt(t.kids, n);
    }
  }

  lemma {:induction false} RekeyedShape(t: T, h: nat, m: int, key: Key)
    requires t.Node? && RightSpine(t) && Shape(t, h, m)
    ensures Shape(Rekeyed(t, key), h, m)
    decreases t
  {
    var n := |t.items|;
    if t.kids[n] != Nil {
      RekeyedShape(t.kids[n], h - 1, INDEX_MSIZE, key);
    }
  }

  /** A node whose item i was exchanged with its predecessor. */
  function Swapped(t: T, i: nat, key: Key): T
    requires t.Node? && i < |t.items| && |t.kids| == |t.items| + 1 && t.kids[i].Node? && RightSpine(t.kids[i])
  {
    Node(t.off, t.items[i := LastItem(t.kids[i])], t.kids[i := Rekeyed(t.kids[i], key)])
  }

  /** The left subtree of an item with the key holds nothing above it, and what
      comes before that subtree lies below the key. */
  lemma LeftBelow(t: T, i: nat)
    requires t.Node? && i < |t.items| && |t.kids| == |t.items| + 1 && InSearchOrder(InOrder(t))
    requires IsLowerBound(t.items, t.items[i].key, i)
    ensures InSearchOrder(InOrder(t.kids[i])) && Has(InOrder(t), t.items[i].key)
    ensures forall x <- InOrder(t.kids[i]) :: !Less(t.items[i].key, x.key)
  {
    hide Flat, InOrder;
    assert InOrder(t) == Flat(t.items, t.kids) by { NodeInOrder(t); }
    var key, b, k, a := t.items[i].key, Before(t.items, t.kids, i), InOrder(t.kids[i]), After(t.items, t.kids, i);
    DescendOrder(t.items, t.kids, key, i);
    OrderAround(b, k, a);
    assert t.items[i] in a;
    HasFirst(k, a, key);
    HasInFront(b, k + a, key);
    assert b + (k + a) == b + k + a;
  }

  /** In search order a key that occurs is found. */
  lemma HasFirst(k: seq<I>, a: seq<I>, key: Key)
    requires InSearchOrder(k + a) && a != [] && a[0].key == key
    ensures Has(k + a, key)
  {
    LessIsStrictTotalOrder();
    var s := k + a;
    assert s[|k|] == a[0];
    RankIsLowerBound(s, key);
    RankAtMost(s, key, |k|);
    assert s[Rank(s, key)..][0] == s[Rank(s, key)];
  }

  lemma {:induction false} RankAtMost(s: seq<I>, key: Key, i: nat)
    requires i < |s| && !Less(s[i].key, key)
    ensures Rank(s, key) <= i
  {
    if i > 0 && Less(s[0].key, key) {
      RankAtMost(s[1..], key, i - 1);
    }
  }

  lemma HasInFront(b: seq<I>, s: seq<I>, key: Key)
    requires AllBelow(b, key) && Has(s, key)
    ensures Has(b + s, key)
  {
    RankAt(b, s, key);
  }

  lemma NodeInOrder(t: T)
    requires t.Node?
    ensures InOrder(t) == Flat(t.items, t.kids)
  {
  }

  /** The key written over the last item of the left subtree is found there. */
  lemma RekeyedExact(t: T, h: nat, i: nat, key: Key)
    requires Shape(t, h, 1) && 1 < h && i < |t.items| && t.items[i].key == key
    requires IsLowerBound(t.items, key, i) && Exact(InOrder(t), key)
    ensures t.kids[i].Node? && RightSpine(t.kids[i])
    ensures Exact(InOrder(Rekeyed(t.kids[i], key)), key) && Has(InOrder(Rekeyed(t.kids[i], key)), key)
  {
    DownShape(t, h, i);
    LeftBelow(t, i);
    ExactKid(t, i, key);
    RekeyedInOrder(t.kids[i], key);
    hide Flat, InOrder, Rekeyed, LastItem, IsLowerBound, Shape, RightSpine, Strlcpy;
    LastRekeyed(InOrder(t.kids[i]), Item(key, LastItem(t.kids[i]).val));
  }

  lemma LastRekeyed(s: seq<I>, fake: I)
    requires Exact(s, fake.key) && |s| > 0 && forall x <- s :: !Less(fake.key, x.key)
    ensures var s' := s[..|s| - 1] + [fake];
      Exact(s', fake.key) && Has(s', fake.key)
  {
    var n := |s| - 1;
    var s' := s[..n] + [fake];
    assert forall k | 0 <= k < n :: s'[k] == s[k] && s[k] in s;
    LessIsStrictTotalOrder();
    HasFirst(s[..n], [fake], fake.key);
  }

  lemma SwappedDeleted(t: T, h: nat, i: nat, kid: T, key: Key, copy: Key)
    requires Shape(t, h, 1) && 1 < h && i < |t.items| && t.kids[i].Node? && RightSpine(t.kids[i])
    requires t.items[i].key == key && (InSearchOrder(t.items) ==> IsLowerBound(t.items, key, i))
    requires copy == Strlcpy(key, t.items[i].val.keySize)
    requires Deleted(Rekeyed(t.kids[i], copy), h - 1, InOrder(kid), key)
    requires Exact(InOrder(t), key) ==> copy == key
    ensures Deleted(t, h, Flat(t.items[i := LastItem(t.kids[i])], t.kids[i := kid]), key)
  {
    if Exact(InOrder(t), key) {
      OrderedItems(t.items, t.kids);
      LowerBoundIsRank(t.items, key, i);
      RekeyedExact(t, h, i, key);
      LeftBelow(t, i);
      SwappedFlat(t, i, kid, LastItem(t.kids[i]));
      hide Flat, InOrder, Has, Before, Rekeyed, LastItem, Rank, Strlcpy, Exact;
      var b, rest := Before(t.items, t.kids, i), Flat(t.items[i + 1..], t.kids[i + 1..]);
      DroppedHit(t, h, i, key, copy);
    }
  }

  lemma DroppedHit(t: T, h: nat, i: nat, key: Key, copy: Key)
    requires Shape(t, h, 1) && 1 < h && i < |t.items| && t.kids[i].Node? && RightSpine(t.kids[i])
    requires t.items[i].key == key && i == Rank(t.items, key) && copy == Strlcpy(key, t.items[i].val.keySize)
    ensures Dropped(t, h, key) == Before(t.items, t.kids, i) + Dropped(Rekeyed(t.kids[i], copy), h - 1, key)
      + ([LastItem(t.kids[i])] + Flat(t.items[i + 1..], t.kids[i + 1..]))
  {
    hide Flat, Before, After, Rekeyed, LastItem, Strlcpy;
  }

  lemma SwappedFlat(t: T, i: nat, kid: T, pred: I)
    requires t.Node? && i < |t.items| && |t.kids| == |t.items| + 1
    ensures Flat(t.items[i := pred], t.kids[i := kid])
         == Before(t.items, t.kids, i) + InOrder(kid) + ([pred] + Flat(t.items[i + 1..], t.kids[i + 1..]))
  {
    var items', kids' := t.items[i := pred], t.kids[i := kid];
    FlatAt(items', kids', i);
    BeforeLocal(t.items, t.kids, items', kids', i);
    assert items'[i + 1..] == t.items[i + 1..] && kids'[i + 1..] == t.kids[i + 1..];
  }

  // ----- repairing an underfull child -----

  /** Neighbouring children and the item between them. */
  datatype Pair = Pair(l: T, sep: I, r: T) {
    predicate Ok() {
      && l.Node? && |l.kids| == |l.items| + 1
      && r.Node? && |r.kids| == |r.items| + 1
    }

    ghost function All(): seq<I> {
      InOrder(l) + [sep] + InOrder(r)
    }

    /** Borrow from the left: its last item and child move right. */
    function RotateRight(): Pair
      requires Ok() && 1 <= |l.items|
    {
      var n := |l.items|;
      Pair(Node(l.off, l.items[..n - 1], l.kids[..n]), l.items[n - 1],
           Node(r.off, [sep] + r.items, [l.kids[n]] + r.kids))
    }

    /** Borrow from the right: its first item and child move left. */
    function RotateLeft(): Pair
      requires Ok() && 1 <= |r.items|
    {
      Pair(Node(l.off, l.items + [sep], l.kids + [r.kids[0]]), r.items[0],
           Node(r.off, r.items[1..], r.kids[1..]))
    }

    function Merged(): T
      requires Ok()
    {
      Node(l.off, l.items + [sep] + r.items, l.kids + r.kids)
    }
  }

  lemma RotateRightKeeps(p: Pair)
    requires p.Ok() && 1 <= |p.l.items|
    ensures p.RotateRight().Ok() && p.RotateRight().All() == p.All()
    ensures Offs(p.RotateRight().l) + Offs(p.RotateRight().r) == Offs(p.l) + Offs(p.r)
  {
    RotateRightOffs(p);
    hide Flat, KidsOffs;
    var n := |p.l.items|;
    FlatCut(p.l.items, p.l.kids, n - 1);
    assert p.l.items[n..] == [] && p.l.kids[n..] == [p.l.kids[n]];
    FlatCons(p.l.kids[n], p.sep, p.r.items, p.r.kids);
  }

  lemma RotateRightOffs(p: Pair)
    requires p.Ok() && 1 <= |p.l.items|
    ensures Offs(p.RotateRight().l) + Offs(p.RotateRight().r) == Offs(p.l) + Offs(p.r)
  {
    var n := |p.l.items|;
    KidsOffsCut(p.l.kids, n);
    assert p.l.kids[n..] == [p.l.kids[n]];
    KidsOffsConcat([p.l.kids[n]], p.r.kids);
  }

  lemma FlatCons(kid: T, x: I, items: seq<I>, kids: seq<T>)
    requires |kids| == |items| + 1
    ensures Flat([], [kid]) == InOrder(kid)
    ensures Flat([x] + items, [kid] + kids) == InOrder(kid) + [x] + Flat(items, kids)
  {
    assert ([x] + items)[1..] == items && ([kid] + kids)[1..] == kids;
  }

  lemma RotateLeftKeeps(p: Pair)
    requires p.Ok() && 1 <= |p.r.items|
    ensures p.RotateLeft().Ok() && p.RotateLeft().All() == p.All()
    ensures Offs(p.RotateLeft().l) + Offs(p.RotateLeft().r) == Offs(p.l) + Offs(p.r)
  {
    var q := p.RotateLeft();
    FlatJoin(p.l.items, p.l.kids, p.sep, [], [p.r.kids[0]]);
    assert p.l.items + [p.sep] + [] == q.l.items;
    assert Flat(p.r.items, p.r.kids) == InOrder(p.r.kids[0]) + [p.r.items[0]] + Flat(p.r.items[1..], p.r.kids[1..]);
    KidsOffsCut(p.r.kids, 1);
    assert p.r.kids[..1] == [p.r.kids[0]];
    KidsOffsConcat(p.l.kids, [p.r.kids[0]]);
  }

  lemma MergedKeeps(p: Pair)
    requires p.Ok()
    ensures InOrder(p.Merged()) == p.All()
    ensures Offs(p.Merged()) + multiset{p.r.off} == Offs(p.l) + Offs(p.r)
  {
    FlatJoin(p.l.items, p.l.kids, p.sep, p.r.items, p.r.kids);
    KidsOffsConcat(p.l.kids, p.r.kids);
  }

  /** Merging straight away, or after the rotation that the borrow-left branch
      has already done in memory, gives the same node. */
  lemma MergeAfterRotation(p: Pair)
    requires p.Ok() && 1 <= |p.l.items|
    ensures p.RotateRight().Merged() == p.Merged()
  {
    var n := |p.l.items|;
    assert p.l.items == p.l.items[..n - 1] + [p.l.items[n - 1]];
    assert p.l.kids == p.l.kids[..n] + [p.l.kids[n]];
  }

  /** A node whose child i has fallen one item below the minimum. */
  ghost predicate Deficient(t: T, h: nat, m: int, i: int) {
    && t.Node? && 1 < h && 1 <= m <= |t.items| <= INDEX_SIZE && |t.kids| == |t.items| + 1
    && 0 <= i <= |t.items| && Starved(t.kids[i], h - 1, INDEX_MSIZE)
    && forall j | 0 <= j < |t.kids| && j != i :: Shape(t.kids[j], h - 1, INDEX_MSIZE)
  }

  /** Same items, and well shaped up to the top node reporting underflow. */
  ghost predicate Repaired(code: Status, t: T, h: nat, m: int, t': T) {
    && InOrder(t') == InOrder(t)
    && (if code == UNDERFLOW then Starved(t', h, m) else code == SUCCESS && Shape(t', h, m))
  }

  function PairAt(t: T, k: nat): Pair
    requires t.Node? && |t.kids| == |t.items| + 1 && k < |t.items|
  {
    Pair(t.kids[k], t.items[k], t.kids[k + 1])
  }

  function WithPair(t: T, k: nat, q: Pair): T
    requires t.Node? && |t.kids| == |t.items| + 1 && k < |t.items|
  {
    Node(t.off, t.items[k := q.sep], t.kids[k := q.l][k + 1 := q.r])
  }

  function WithMerged(t: T, k: nat): T
    requires t.Node? && |t.kids| == |t.items| + 1 && k < |t.items| && PairAt(t, k).Ok()
  {
    Node(t.off, t.items[..k] + t.items[k + 1..], t.kids[..k] + [PairAt(t, k).Merged()] + t.kids[k + 2..])
  }

  lemma DeficientPair(t: T, h: nat, m: int, i: nat, k: nat)
    requires Deficient(t, h, m, i) && k < |t.items| && (k == i || k + 1 == i)
    ensures PairAt(t, k).Ok()
    ensures var l, r := |t.kids[k].items|, |t.kids[k + 1].items|;
      if k == i then l == INDEX_MSIZE - 1 && INDEX_MSIZE <= r <= INDEX_SIZE
      else r == INDEX_MSIZE - 1 && INDEX_MSIZE <= l <= INDEX_SIZE
    ensures var l, r := t.kids[k].kids, t.kids[k + 1].kids;
      && (forall n | 0 <= n < |l| :: Shape(l[n], h - 2, INDEX_MSIZE))
      && (forall n | 0 <= n < |r| :: Shape(r[n], h - 2, INDEX_MSIZE))
  {
    assert k != i ==> Shape(t.kids[k], h - 1, INDEX_MSIZE);
    assert k + 1 != i ==> Shape(t.kids[k + 1], h - 1, INDEX_MSIZE);
  }

  lemma WithPairKeeps(t: T, k: nat, q: Pair)
    requires t.Node? && |t.kids| == |t.items| + 1 && k < |t.items|
    requires q.All() == PairAt(t, k).All()
    requires Offs(q.l) + Offs(q.r) == Offs(t.kids[k]) + Offs(t.kids[k + 1])
    ensures InOrder(WithPair(t, k, q)) == InOrder(t)
    ensures KidsOffs(WithPair(t, k, q).kids) == KidsOffs(t.kids)
  {
    hide Flat, KidsOffs, Offs;
    FlatPair(t.items, t.kids, k, q.l, q.sep, q.r);
    KidsOffsTwo(t.kids, k);
    KidsOffsTwo(WithPair(t, k, q).kids, k);
    assert WithPair(t, k, q).kids[..k] == t.kids[..k] && WithPair(t, k, q).kids[k + 2..] == t.kids[k + 2..];
  }

  lemma KidsOffsTwo(kids: seq<T>, k: nat)
    requires k + 1 < |kids|
    ensures KidsOffs(kids) == KidsOffs(kids[..k]) + (Offs(kids[k]) + Offs(kids[k + 1])) + KidsOffs(kids[k + 2..])
  {
    KidsOffsAt(kids, k);
    KidsOffsAt(kids[k + 1..], 0);
    assert kids[k + 1..][0] == kids[k + 1] && kids[k + 1..][1..] == kids[k + 2..];
    assert kids[k + 1..][..0] == [];
  }

  lemma WithMergedKeeps(t: T, k: nat)
    requires t.Node? && |t.kids| == |t.items| + 1 && k < |t.items| && PairAt(t, k).Ok()
    ensures InOrder(WithMerged(t, k)) == InOrder(t)
    ensures KidsOffs(WithMerged(t, k).kids) + multiset{t.kids[k + 1].off} == KidsOffs(t.kids)
  {
    hide Flat, KidsOffs, Offs;
    MergedKeeps(PairAt(t, k));
    FlatShrink(t.items, t.kids, k, PairAt(t, k).Merged());
    KidsOffsTwo(t.kids, k);
    var kids' := WithMerged(t, k).kids;
    KidsOffsAt(kids', k);
    assert kids'[..k] == t.kids[..k] && kids'[k + 1..] == t.kids[k + 2..];
  }

  lemma RotatedShape(t: T, h: nat, m: int, i: nat, k: nat, q: Pair)
    requires Deficient(t, h, m, i) && k < |t.items|
    requires (k + 1 == i && |t.kids[k].items| > INDEX_MSIZE && PairAt(t, k).Ok() && q == PairAt(t, k).RotateRight())
          || (k == i && |t.kids[k + 1].items| > INDEX_MSIZE && PairAt(t, k).Ok() && q == PairAt(t, k).RotateLeft())
    ensures Shape(WithPair(t, k, q), h, m)
  {
    DeficientPair(t, h, m, i, k);
    assert Shape(q.l, h - 1, INDEX_MSIZE) && Shape(q.r, h - 1, INDEX_MSIZE);
    var kids' := WithPair(t, k, q).kids;
    forall j | 0 <= j < |kids'| ensures Shape(kids'[j], h - 1, INDEX_MSIZE) {
      assert kids'[j] == if j == k then q.l else if j == k + 1 then q.r else t.kids[j];
    }
  }

  lemma MergedShape(t: T, h: nat, m: int, i: nat, k: nat)
    requires Deficient(t, h, m, i) && k < |t.items| && PairAt(t, k).Ok()
    requires (k + 1 == i && |t.kids[k].items| == INDEX_MSIZE) || (k == i && |t.kids[k + 1].items| == INDEX_MSIZE)
    ensures Repaired(if |t.items| - 1 >= m then SUCCESS else UNDERFLOW, t, h, m, WithMerged(t, k))
  {
    DeficientPair(t, h, m, i, k);
    WithMergedKeeps(t, k);
    hide InOrder;
    var kid := PairAt(t, k).Merged();
    assert Shape(kid, h - 1, INDEX_MSIZE);
    var kids' := WithMerged(t, k).kids;
    forall j | 0 <= j < |kids'| ensures Shape(kids'[j], h - 1, INDEX_MSIZE) {
      assert kids'[j] == if j < k then t.kids[j] else if j == k then kid else t.kids[j + 1];
    }
  }

  // ----- the same repairs on disk -----

  /** The two children about to be rewritten are apart from everything else. */
  lemma PairApart(keys: set<int>, o: int, kids: seq<T>, k: nat, q: Pair, rest: multiset<int>, fl: seq<int>)
    requires k + 1 < |kids| && q.l.Node? && q.r.Node?
    requires Offs(q.l) + Offs(q.r) == Offs(kids[k]) + Offs(kids[k + 1])
    requires multiset(keys) == multiset{o} + KidsOffs(kids) + rest + multiset(fl)
    ensures q.l.off in keys && q.r.off in keys && o in keys && q.l.off != q.r.off && q.l.off != o && q.r.off != o
    ensures q.l.off !in KidsOffs(q.l.kids) && q.l.off !in KidsOffs(q.r.kids) && q.l.off !in fl && q.l.off !in rest
    ensures q.r.off !in KidsOffs(q.l.kids) && q.r.off !in KidsOffs(q.r.kids) && q.r.off !in fl && q.r.off !in rest
    ensures o !in KidsOffs(kids) && o !in fl && o !in rest
    ensures forall x | x in KidsOffs(kids[..k]) || x in KidsOffs(kids[k + 2..]) :: x != q.l.off && x != q.r.off
  {
    KidsOffsTwo(kids, k);
    var a, b, l, r := KidsOffs(kids[..k]), KidsOffs(kids[k + 2..]), KidsOffs(q.l.kids), KidsOffs(q.r.kids);
    assert KidsOffs(kids) == a + ((multiset{q.l.off} + l) + (multiset{q.r.off} + r)) + b;
    hide KidsOffs, Offs;
    FiveApart(keys, o, q.l.off, q.r.off, a, b, l, r, rest, multiset(fl));
    OnItsOwn(keys, o, KidsOffs(kids), rest, multiset(fl), multiset{});
  }

  lemma FiveApart(keys: set<int>, o: int, p: int, q: int, a: multiset<int>, b: multiset<int>, l: multiset<int>, r: multiset<int>,
                  rest: multiset<int>, fl: multiset<int>)
    requires multiset(keys) == multiset{o} + (a + ((multiset{p} + l) + (multiset{q} + r)) + b) + rest + fl
    ensures p in keys && q in keys && o in keys && p != q && p != o && q != o
    ensures forall x | x in a || x in b || x in l || x in r || x in rest || x in fl :: x != p && x != q && x != o
  {
    forall x ensures multiset{o}[x] + multiset{p}[x] + multiset{q}[x]
                     + a[x] + b[x] + l[x] + r[x] + rest[x] + fl[x] == multiset(keys)[x] <= 1 {
    }
    assert multiset{o}[o] == 1 && multiset{p}[p] == 1 && multiset{q}[q] == 1;
    assert multiset(keys)[o] == multiset(keys)[p] == multiset(keys)[q] == 1;
  }

  lemma PairBack(d: map<int, NodeV>, d': map<int, NodeV>, ps: seq<int>, kids: seq<T>, k: nat, q: Pair)
    requires k + 1 < |kids| && q.l.Node? && q.r.Node? && ReprKids(d, ps, kids)
    requires kids[k].Node? && kids[k].off == q.l.off && kids[k + 1].Node? && kids[k + 1].off == q.r.off
    requires Repr(d', q.l.off, q.l) && Repr(d', q.r.off, q.r)
    requires forall x | x in d && x != q.l.off && x != q.r.off :: x in d' && d'[x] == d[x]
    requires forall x | x in KidsOffs(kids[..k]) || x in KidsOffs(kids[k + 2..]) :: x != q.l.off && x != q.r.off
    ensures ReprKids(d', ps, kids[k := q.l][k + 1 := q.r])
  {
    var kids' := kids[k := q.l][k + 1 := q.r];
    forall j | 0 <= j < |kids| ensures Repr(d', ps[j], kids'[j]) {
      if j != k && j != k + 1 {
        OtherOffs(kids, k, j);
        ReprFrame(d, d', ps[j], kids[j]);
      }
    }
  }

  lemma OtherOffs(kids: seq<T>, k: nat, j: nat)
    requires k + 1 < |kids| && j < |kids| && j != k && j != k + 1
    ensures forall x | x in Offs(kids[j]) :: x in KidsOffs(kids[..k]) || x in KidsOffs(kids[k + 2..])
  {
    if j < k {
      KidsOffsAt(kids[..k], j);
    } else {
      KidsOffsAt(kids[k + 2..], j - k - 2);
    }
  }

  /** After the right child was freed and the merged left child written. */
  lemma MergeBack(d: map<int, NodeV>, d': map<int, NodeV>, ps: seq<int>, kids: seq<T>, k: nat, kid: T, right: int)
    requires k + 1 < |kids| && kid.Node? && ReprKids(d, ps, kids)
    requires kids[k].Node? && kids[k].off == kid.off && Repr(d', kid.off, kid)
    requires forall x | x in d && x != kid.off && x != right :: x in d' && d'[x] == d[x]
    requires forall x | x in KidsOffs(kids[..k]) || x in KidsOffs(kids[k + 2..]) :: x != kid.off && x != right
    ensures ReprKids(d', ps[..k + 1] + ps[k + 2..], kids[..k] + [kid] + kids[k + 2..])
  {
    var kids', ps' := kids[..k] + [kid] + kids[k + 2..], ps[..k + 1] + ps[k + 2..];
    forall n | 0 <= n < |kids'| ensures Repr(d', ps'[n], kids'[n]) {
      if n != k {
        var j := if n < k then n else n + 1;
        assert kids'[n] == kids[j] && ps'[n] == ps[j];
        OtherOffs(kids, k, j);
        ReprFrame(d, d', ps[j], kids[j]);
      }
    }
  }

  /** The predecessor swap on disk: the leaf that holds the predecessor changes,
      and with it the whole left subtree. */
  lemma {:induction false} RekeyedRepr(d: map<int, NodeV>, p: int, t: T, key: Key, v: NodeV)
    requires t.Node? && RightSpine(t) && Repr(d, p, t) && OnceEach(Offs(t))
    requires LastOff(t) in d && d[LastOff(t)].Ok() && v.Ok() && 1 <= v.cnt
    requires v.cnt == d[LastOff(t)].cnt && v.ptr == d[LastOff(t)].ptr
    requires v.Keys() == d[LastOff(t)].Keys()[v.cnt - 1 := Item(key, d[LastOff(t)].Keys()[v.cnt - 1].val)]
    ensures Repr(d[LastOff(t) := v], p, Rekeyed(t, key))
    decreases t
  {
    var n, q := |t.items|, LastOff(t);
    if t.kids[n] == Nil {
      OnceTop(t);
      ReprKidsFrame(d, d[q := v], d[p].Kids(), t.kids);
    } else {
      RekeyedOffs(t.kids[n], key);
      OnceKid(t, n, q);
      RekeyedRepr(d, d[p].Kids()[n], t.kids[n], key, v);
      KidRewritten(d, d[p].Kids(), t, n, Rekeyed(t.kids[n], key), q, v);
    }
  }

  lemma KidRewritten(d: map<int, NodeV>, ps: seq<int>, t: T, i: nat, kid: T, q: int, v: NodeV)
    requires t.Node? && i < |t.kids| && ReprKids(d, ps, t.kids) && OnceEach(Offs(t)) && q in Offs(t.kids[i])
    requires Repr(d[q := v], ps[i], kid)
    ensures ReprKids(d[q := v], ps, t.kids[i := kid])
  {
    OnceKid(t, i, q);
    forall j | 0 <= j < |t.kids| && j != i ensures Repr(d[q := v], ps[j], t.kids[j]) {
      ReprFrame(d, d[q := v], ps[j], t.kids[j]);
    }
  }

  /** Everything the store needs to know after the swap. */
  lemma SwappedOnDisk(d: map<int, NodeV>, t: T, h: nat, m: int, i: nat, key: Key, pv: NodeV, v: NodeV, rest: multiset<int>, fl: multiset<int>)
    requires t.Node? && Repr(d, t.off, t) && Shape(t, h, m) && 1 < h && i < |t.items|
    requires RightSpine(t.kids[i]) && t.kids[i].Node?
    requires multiset(d.Keys) == Offs(t) + rest + fl
    requires pv.Ok() && pv.Keys() == t.items[i := LastItem(t.kids[i])] && pv.ptr == d[t.off].ptr
    requires var q := LastOff(t.kids[i]);
      && q in d && d[q].Ok() && v.Ok() && 1 <= v.cnt == d[q].cnt && v.ptr == d[q].ptr
      && v.Keys() == d[q].Keys()[v.cnt - 1 := Item(key, d[q].Keys()[v.cnt - 1].val)]
    ensures var q := LastOff(t.kids[i]);
      var d' := d[t.off := pv][q := v];
      && q in d && t.off in d && q != t.off && q !in rest && t.off !in rest && q !in fl && t.off !in fl
      && Repr(d', t.off, Swapped(t, i, key)) && Offs(Swapped(t, i, key)) == Offs(t)
  {
    var q, ps := LastOff(t.kids[i]), d[t.off].Kids();
    var d1 := d[t.off := pv];
    RekeyedOffs(t.kids[i], key);
    SwapApart(d.Keys, t, i, q, rest, fl);
    hide OnceEach, Shape, RightSpine, LastItem;
    ReprKidsFrame(d, d1, ps, t.kids);
    RekeyedRepr(d1, ps[i], t.kids[i], key, v);
    KidRewritten(d1, ps, t, i, Rekeyed(t.kids[i], key), q, v);
    KidsOffsReplace(t.kids, i, Rekeyed(t.kids[i], key));
  }

  lemma SwapApart(keys: set<int>, t: T, i: nat, q: int, rest: multiset<int>, fl: multiset<int>)
    requires t.Node? && i < |t.kids| && q in Offs(t.kids[i])
    requires multiset(keys) == Offs(t) + rest + fl
    ensures OnceEach(Offs(t)) && OnceEach(Offs(t.kids[i])) && t.off !in KidsOffs(t.kids) && q != t.off
    ensures q in keys && t.off in keys && q !in rest && t.off !in rest && q !in fl && t.off !in fl
    ensures Offs(t.kids[i]) <= KidsOffs(t.kids)
  {
    assert multiset(keys) == Offs(t) + (rest + fl);
    PartOnce(keys, Offs(t), rest + fl);
    Apart(keys, Offs(t), rest, fl);
    OnceTop(t);
    OnceKid(t, i, q);
    KidsOffsAt(t.kids, i);
  }

  // ----- steps of the recursion -----

  lemma NothingToDelete(h: nat, m: int, key: Key)
    requires h == 0
    ensures DeleteOutcome(NOTFOUND, Nil, h, m, Nil, key)
  {
  }

  /** Child 0 is null exactly in the leaves. */
  lemma LeafOrNot(d: map<int, NodeV>, t: T, h: nat, m: int)
    requires t.Node? && Repr(d, t.off, t) && Shape(t, h, m) && 0 <= m
    ensures 0 < h && |t.kids| > 0 && (d[t.off].ptr[0] == -1 <==> t.kids[0] == Nil) && (h > 1 <==> t.kids[0] != Nil)
  {
    assert Repr(d, d[t.off].Kids()[0], t.kids[0]) && Shape(t.kids[0], h - 1, INDEX_MSIZE);
  }

  lemma RightKid(d: map<int, NodeV>, t: T, h: nat)
    requires t.Node? && Repr(d, t.off, t) && Shape(t, h, INDEX_MSIZE)
    ensures var n := |t.items|;
      && 1 <= n == d[t.off].cnt && |t.kids| == n + 1
      && (d[t.off].ptr[n] == -1 <==> t.kids[n] == Nil)
      && (t.kids[n] != Nil ==>
            && 1 < h && t.kids[n].Node? && t.kids[n].off == d[t.off].ptr[n]
            && Repr(d, t.kids[n].off, t.kids[n]) && Shape(t.kids[n], h - 1, INDEX_MSIZE))
  {
    var n := |t.items|;
    assert Repr(d, d[t.off].Kids()[n], t.kids[n]) && Shape(t.kids[n], h - 1, INDEX_MSIZE);
  }

  /** What the recursion into child i starts from, swap or not. */
  lemma SwapFacts(d: map<int, NodeV>, t: T, t1: T, h: nat, m: int, i: nat, key: Key, hit: bool)
    requires t.Node? && 1 < h && Shape(t, h, m) && 1 <= m && i <= |t.items|
    requires hit ==> i < |t.items| && t.kids[i].Node? && RightSpine(t.kids[i]) && t1 == Swapped(t, i, key)
    requires !hit ==> t1 == t
    requires Repr(d, t.off, t1)
    ensures t1.Node? && t1.off == t.off && |t1.kids| == |t1.items| + 1 == |t.items| + 1 && i < |t1.kids|
    ensures Shape(t1.kids[i], h - 1, INDEX_MSIZE)
    ensures t.off in d && d[t.off].Ok() && d[t.off].Keys() == t1.items
    ensures Repr(d, d[t.off].Kids()[i], t1.kids[i])
    ensures Offs(t1) == Offs(t1.kids[i]) + Siblings(t1, i)
  {
    assert Shape(t.kids[i], h - 1, INDEX_MSIZE);
    if hit {
      RekeyedShape(t.kids[i], h - 1, INDEX_MSIZE, key);
    }
    SiblingsAndKid(t1, i, t1.kids[i]);
  }

  lemma RootElsewhere(t: T, i: nat, root: int, rest: multiset<int>)
    requires t.Node? && i < |t.kids| && (t.off == root || root in rest)
    ensures root in rest + Siblings(t, i)
  {
  }

  lemma LeafReady(d: map<int, NodeV>, t: T, h: nat, m: int, i: nat, rest: multiset<int>, fl: seq<int>)
    requires t.Node? && 0 < h && Repr(d, t.off, t) && Shape(t, h, m) && 1 <= m && t.kids[0] == Nil && i < |t.items|
    requires multiset(d.Keys) == Offs(t) + rest + multiset(fl)
    ensures |t.kids| == |t.items| + 1 && 1 <= |t.items| && d[t.off].Ok() && d[t.off].Keys() == t.items
    ensures ReprKids(d, d[t.off].Kids()[..i + 1] + d[t.off].Kids()[i + 2..], LeafWithout(t, i).kids)
    ensures t.off in d && t.off !in rest && t.off !in fl && t.off !in KidsOffs(LeafWithout(t, i).kids)
  {
    LeafKids(t, h, m);
    KidsOffsNil(LeafWithout(t, i).kids);
    Apart(d.Keys, Offs(t), rest, multiset(fl));
    assert t.off in Offs(t);
  }

  /** Passing the outcome of the recursion on: the tree below may be deficient. */
  lemma DeletePassed(code: Status, t: T, t1: T, h: nat, m: int, i: nat, kid: T, key: Key, copy: Key, hit: bool)
    requires t.Node? && 1 < h && Shape(t, h, m) && 1 <= m <= INDEX_MSIZE && i <= |t.items| && |t.kids| == |t.items| + 1
    requires InSearchOrder(t.items) ==> IsLowerBound(t.items, key, i)
    requires hit <==> i < |t.items| && t.items[i].key == key
    requires hit ==> t.kids[i].Node? && RightSpine(t.kids[i]) && t1 == Swapped(t, i, copy) && copy == Strlcpy(key, t.items[i].val.keySize)
    requires !hit ==> t1 == t
    requires t1.Node? && i < |t1.kids| && DeleteOutcome(code, t1.kids[i], h - 1, INDEX_MSIZE, kid, key)
    ensures var t2 := Node(t.off, t1.items, t1.kids[i := kid]);
      && (code == UNDERFLOW ==> Deficient(t2, h, m, i) && Deleted(t, h, InOrder(t2), key))
      && (code != UNDERFLOW ==> DeleteOutcome(code, t, h, m, t2, key))
      && Offs(t2) == multiset{t.off} + KidsOffs(t1.kids[i := kid])
  {
    var t2 := Node(t.off, t1.items, t1.kids[i := kid]);
    PassedShape(code, t, t1, h, m, i, kid);
    hide Deficient, Starved;
    if hit {
      PassedSwap(code, t, t1, h, m, i, kid, key, copy);
    } else {
      PassedPlain(code, t, h, m, i, kid, key);
    }
  }

  lemma PassedShape(code: Status, t: T, t1: T, h: nat, m: int, i: nat, kid: T)
    requires t.Node? && 1 < h && Shape(t, h, m) && 1 <= m && i <= |t.items|
    requires t1.Node? && |t1.items| == |t.items| && |t1.kids| == |t.kids|
    requires forall j | 0 <= j < |t.kids| && j != i :: t1.kids[j] == t.kids[j]
    requires if code == UNDERFLOW then Starved(kid, h - 1, INDEX_MSIZE) else Shape(kid, h - 1, INDEX_MSIZE)
    ensures var t2 := Node(t.off, t1.items, t1.kids[i := kid]);
      if code == UNDERFLOW then Deficient(t2, h, m, i) else Shape(t2, h, m)
  {
  }

  lemma PassedSwap(code: Status, t: T, t1: T, h: nat, m: int, i: nat, kid: T, key: Key, copy: Key)
    requires t.Node? && 1 < h && Shape(t, h, m) && 1 <= m && i < |t.items| && |t.kids| == |t.items| + 1 && t.items[i].key == key
    requires InSearchOrder(t.items) ==> IsLowerBound(t.items, key, i)
    requires t.kids[i].Node? && RightSpine(t.kids[i])
    requires t1 == Swapped(t, i, copy) && copy == Strlcpy(key, t.items[i].val.keySize)
    requires DeleteOutcome(code, t1.kids[i], h - 1, INDEX_MSIZE, kid, key)
    ensures var t2 := Node(t.off, t1.items, t1.kids[i := kid]);
      if code == NOTFOUND then !Exact(InOrder(t), key) else Deleted(t, h, InOrder(t2), key)
  {
    ShapeMonotone(t, h, m, 1);
    if Exact(InOrder(t), key) {
      ExactItem(t, h, m, i, key);
      OrderedItems(t.items, t.kids);
    }
    hide Flat, Has, Shape, Starved, Rekeyed, LastItem, Strlcpy, Dropped;
    if code == NOTFOUND {
      if Exact(InOrder(t), key) {
        RekeyedExact(t, h, i, key);
      }
    } else {
      SwappedDeleted(t, h, i, kid, key, copy);
      assert t1.kids[i := kid] == t.kids[i := kid];
    }
  }

  lemma PassedPlain(code: Status, t: T, h: nat, m: int, i: nat, kid: T, key: Key)
    requires t.Node? && 1 < h && Shape(t, h, m) && 1 <= m && i <= |t.items| && |t.kids| == |t.items| + 1
    requires InSearchOrder(t.items) ==> IsLowerBound(t.items, key, i)
    requires i < |t.items| ==> t.items[i].key != key
    requires DeleteOutcome(code, t.kids[i], h - 1, INDEX_MSIZE, kid, key)
    ensures var t2 := Node(t.off, t.items, t.kids[i := kid]);
      if code == NOTFOUND then Exact(InOrder(t), key) ==> !Has(InOrder(t), key) && t2 == t
      else Deleted(t, h, InOrder(t2), key)
  {
    ShapeMonotone(t, h, m, 1);
    hide Shape, Starved, Dropped;
    if code == NOTFOUND {
      if Exact(InOrder(t), key) {
        OrderedItems(t.items, t.kids);
        ExactKid(t, i, key);
        HasInKid(t, i, key);
        assert t.kids[i := t.kids[i]] == t.kids;
      }
    } else {
      ReplacedDeleted(t, h, i, kid, key);
    }
  }

  lemma RepairedDeletes(code: Status, t: T, t2: T, h: nat, m: int, t': T, key: Key)
    requires Repaired(code, t2, h, m, t') && Deleted(t, h, InOrder(t2), key)
    ensures DeleteOutcome(code, t, h, m, t', key)
  {
  }

  lemma DeficientFacts(t: T, h: nat, m: int, i: int)
    requires Deficient(t, h, m, i)
    ensures t.Node? && 1 <= |t.items| <= INDEX_SIZE && |t.kids| == |t.items| + 1 && 0 <= i <= |t.items|
  {
  }

  lemma KidOnDisk(d: map<int, NodeV>, ps: seq<int>, t: T, h: nat, m: int, i: int, j: nat)
    requires Deficient(t, h, m, i) && j <= |t.items| && ReprKids(d, ps, t.kids)
    ensures t.kids[j].Node? && |t.kids[j].kids| == |t.kids[j].items| + 1
    ensures ps[j] == t.kids[j].off && ps[j] in d && d[ps[j]].Ok() && d[ps[j]].Keys() == t.kids[j].items
    ensures ReprKids(d, d[ps[j]].Kids(), t.kids[j].kids)
    ensures j != i ==> INDEX_MSIZE <= |t.kids[j].items|
    ensures j == i ==> |t.kids[j].items| == INDEX_MSIZE - 1
  {
    assert Repr(d, ps[j], t.kids[j]);
    assert j != i ==> Shape(t.kids[j], h - 1, INDEX_MSIZE);
  }

  /** Where the children of the rotated pair are: the child that changed sides
      is now first on the right. */
  lemma RotatedRightRepr(d: map<int, NodeV>, lp: seq<int>, rp: seq<int>, p: Pair)
    requires p.Ok() && 1 <= |p.l.items| && ReprKids(d, lp, p.l.kids) && ReprKids(d, rp, p.r.kids)
    ensures var n := |p.l.items|;
      && ReprKids(d, lp[..n], p.RotateRight().l.kids) && ReprKids(d, [lp[n]] + rp, p.RotateRight().r.kids)
  {
  }

  lemma RotatedLeftRepr(d: map<int, NodeV>, lp: seq<int>, rp: seq<int>, p: Pair)
    requires p.Ok() && 1 <= |p.r.items| && ReprKids(d, lp, p.l.kids) && ReprKids(d, rp, p.r.kids)
    ensures ReprKids(d, lp + [rp[0]], p.RotateLeft().l.kids) && ReprKids(d, rp[1..], p.RotateLeft().r.kids)
  {
  }

  lemma PairOffs(d: map<int, NodeV>, ps: seq<int>, t: T, k: nat)
    requires t.Node? && |t.kids| == |t.items| + 1 && k < |t.items| && PairAt(t, k).Ok() && ReprKids(d, ps, t.kids)
    ensures ps[k] == t.kids[k].off && ps[k + 1] == t.kids[k + 1].off
  {
    assert Repr(d, ps[k], t.kids[k]) && Repr(d, ps[k + 1], t.kids[k + 1]);
  }

  lemma RepairedOk(t: T, h: nat, m: int, t': T)
    requires InOrder(t') == InOrder(t) && Shape(t', h, m)
    ensures Repaired(SUCCESS, t, h, m, t')
  {
  }

  lemma ReprKidsJoin(d: map<int, NodeV>, lp: seq<int>, rp: seq<int>, q: Pair)
    requires q.Ok() && ReprKids(d, lp, q.l.kids) && ReprKids(d, rp, q.r.kids)
    ensures ReprKids(d, lp + rp, q.Merged().kids)
  {
  }

  /** Dropping item k forgets what the rotation put there. */
  lemma DropAt(k: nat, sep: I, items: seq<I>)
    requires k < |items|
    ensures items[k := sep][..k] + items[k := sep][k + 1..] == items[..k] + items[k + 1..]
  {
  }

  /** What merging needs to know about the offsets involved. */
  lemma MergedApart(keys: set<int>, t: T, k: nat, rest: multiset<int>, fl: seq<int>)
    requires t.Node? && |t.kids| == |t.items| + 1 && k < |t.items| && PairAt(t, k).Ok()
    requires multiset(keys) == multiset{t.off} + KidsOffs(t.kids) + rest + multiset(fl)
    ensures var kid, t', left, right := PairAt(t, k).Merged(), WithMerged(t, k), t.kids[k].off, t.kids[k + 1].off;
      && multiset(keys) == (multiset{t.off} + KidsOffs(t'.kids) + rest) + multiset{right} + multiset(fl)
      && multiset(keys) == Offs(t') + rest + multiset([right] + fl)
      && KidsOffs(kid.kids) <= KidsOffs(t'.kids)
      && left in keys && right in keys && t.off in keys
      && left != right && left != t.off && right != t.off
      && left !in KidsOffs(kid.kids) && left !in fl && left !in rest
      && right !in rest && t.off !in rest && t.off !in fl && t.off !in KidsOffs(t'.kids)
      && forall x | x in KidsOffs(t.kids[..k]) || x in KidsOffs(t.kids[k + 2..]) :: x != left && x != right
  {
    var p, t' := PairAt(t, k), WithMerged(t, k);
    PairApart(keys, t.off, t.kids, k, p, rest, fl);
    WithMergedKeeps(t, k);
    KidsOffsConcat(p.l.kids, p.r.kids);
    MergedKidOffs(t'.kids, k, p.Merged());
    hide KidsOffs, InOrder;
    assert multiset([p.r.off] + fl) == multiset{p.r.off} + multiset(fl);
  }

  lemma MergedKidOffs(kids: seq<T>, k: nat, kid: T)
    requires k < |kids| && kids[k] == kid && kid.Node?
    ensures KidsOffs(kid.kids) <= KidsOffs(kids)
  {
    KidsOffsAt(kids, k);
  }

  /** A root without items is only a link to its one child. */
  lemma OnlyKid(d: map<int, NodeV>, p: int, t: T, h: nat)
    requires Starved(t, h, 1) && Repr(d, p, t)
    ensures t.Node? && p != -1 && p in d && d[p].Ok() && |t.kids| == 1 && 0 < h
    ensures Repr(d, d[p].ptr[0], t.kids[0]) && Shape(t.kids[0], h - 1, 1)
    ensures InOrder(t) == InOrder(t.kids[0])
    ensures Offs(t) == multiset{p} + Offs(t.kids[0])
  {
    assert d[p].Kids()[0] == d[p].ptr[0];
    assert Shape(t.kids[0], h - 1, INDEX_MSIZE);
    ShapeMonotone(t.kids[0], h - 1, INDEX_MSIZE, 1);
    assert t.kids == [t.kids[0]];
    assert KidsOffs(t.kids[1..]) == multiset{};
  }

  lemma RootDropped(d: map<int, NodeV>, d': map<int, NodeV>, p: int, q: int, kid: T, fl: seq<int>)
    requires Repr(d, q, kid) && SameOn(d, d', Offs(kid)) && d'.Keys == d.Keys
    requires multiset(d.Keys) == Offs(kid) + multiset{p} + multiset(fl)
    ensures Repr(d', q, kid) && multiset(d'.Keys) == Offs(kid) + multiset([p] + fl)
    ensures if kid.Node? then 0 < q && q in d' && d'[q].Ok() && q != p else q == -1
  {
    ReprFrame(d, d', q, kid);
    assert multiset([p] + fl) == multiset{p} + multiset(fl);
    Apart(d.Keys, Offs(kid), multiset{p}, multiset(fl));
    assert p in multiset{p};
  }
}
