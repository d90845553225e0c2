/**
 * The secondary index with uniqueness off: when an insertion keeps search order.
 * Where a node has room for the item that came up from a split, its place is
 * searched for again, and an equal item left of that place leads the search
 * astray.
 */
module BTreeOrder {
  import opened Order
  import opened SearchTree
  import opened OrderedTree
  import opened BTreeNode
  import opened BTreeSpec
  import opened BTreeInsertion

  /** What comes up out of a subtree: nothing, or an item that has to be taken in. */
  datatype Rise = Stays | Rises(item: I)

  /** What comes up when x is put into t: a full node hands its middle item up. */
  function Riser(t: T, x: I): Rise
    requires Regular(t)
  {
    match t
    case Nil => Rises(x)
    case Node(_, items, kids) =>
      var i := Rank(items, x.key);
      match Riser(kids[i], x)
      case Stays => Stays
      case Rises(up) => if |items| < INDEX_SIZE then Stays else Rises(GrownItems(items, i, up)[INDEX_MSIZE])
  }

  /** Every node has one more child than items, and no more items than fit. */
  predicate Regular(t: T) {
    t.Node? ==> |t.kids| == |t.items| + 1 && |t.items| <= INDEX_SIZE && forall i | 0 <= i < |t.kids| :: Regular(t.kids[i])
  }

  /** On the way down to the place of x, the first node above all the full ones
      has, left of where the search went on, an item equal to the one that
      comes up. */
  predicate Misplaced(t: T, x: I)
    requires Regular(t)
  {
    t.Node? &&
    var i := Rank(t.items, x.key);
    match Riser(t.kids[i], x)
    case Stays => Misplaced(t.kids[i], x)
    case Rises(up) => |t.items| < INDEX_SIZE && i > 0 && t.items[i - 1].key == up.key
  }

  lemma {:induction false} ShapeRegular(t: T, h: nat, m: int)
    requires Shape(t, h, m)
    ensures Regular(t)
    decreases t
  {
    if t.Node? {
      forall i | 0 <= i < |t.kids| ensures Regular(t.kids[i]) {
        ShapeRegular(t.kids[i], h - 1, INDEX_MSIZE);
      }
    }
  }

  // ----- no crowd of equal items right of one -----

  /** The item that lies left of a whole subtree, if there is one. */
  datatype Low = NoLow | Low(key: Key)

  predicate Above(low: Low, key: Key) {
    low.Low? ==> Less(low.key, key)
  }

  function LowOf(items: seq<I>, low: Low, i: nat): Low
    requires i <= |items|
  {
    if i == 0 then low else Low(items[i - 1].key)
  }

  /** In no node more than two items are equal to the one left of the node. */
  predicate Light(t: T, low: Low)
    decreases t
  {
    t.Node? ==>
      && |t.kids| == |t.items| + 1
      && (low.Low? && |t.items| > INDEX_MSIZE ==> t.items[INDEX_MSIZE].key != low.key)
      && forall i | 0 <= i < |t.kids| :: Light(t.kids[i], LowOf(t.items, low, i))
  }

  // ----- what one call of insert does -----

  /** What insert has done to the order of a subtree. */
  ghost predicate OrderOutcome(code: Status, t: T, t': T, up: I, r: T, x: I) {
    Regular(t) && InSearchOrder(InOrder(t)) ==>
      match code
      case SUCCESS => Riser(t, x) == Stays && (InSearchOrder(InOrder(t')) <==> !Misplaced(t, x))
      case INSERTNOTCOMPLETE => Riser(t, x) == Rises(up) && InSearchOrder(InOrder(t') + [up] + InOrder(r))
      case _ => true
  }

  ghost predicate Bounded(t: T, low: Low) {
    low.Low? ==> forall y | y in InOrder(t) :: !Less(y.key, low.key)
  }

  ghost predicate LightOutcome(code: Status, t: T, t': T, up: I, r: T, x: I, low: Low) {
    Regular(t) && InSearchOrder(InOrder(t)) && Light(t, low) && Bounded(t, low) && Above(low, x.key) ==>
      match code
      case SUCCESS => Light(t', low) && !Misplaced(t, x)
      case INSERTNOTCOMPLETE => Light(t', low) && Light(r, Low(up.key)) && (low.Low? ==> up.key != low.key)
      case _ => true
  }

  ghost predicate KeepsLight(code: Status, t: T, t': T, up: I, r: T, x: I) {
    forall low :: LightOutcome(code, t, t', up, r, x, low)
  }

  lemma OrderAtLeaf(x: I)
    ensures OrderOutcome(INSERTNOTCOMPLETE, Nil, Nil, x, Nil, x) && KeepsLight(INSERTNOTCOMPLETE, Nil, Nil, x, Nil, x)
  {
    LessIsStrictTotalOrder();
    assert InOrder<Val>(Nil) + [x] + InOrder<Val>(Nil) == [x];
  }

  /** Nothing is claimed of a key that is there already. */
  lemma OrderNone(t: T, up: I, x: I)
    ensures OrderOutcome(DUPLICATEKEY, t, t, up, Nil, x) && KeepsLight(DUPLICATEKEY, t, t, up, Nil, x)
  {
  }

  /** The search went down at the rank of the key. */
  lemma DownAtRank(t: T, i: nat, x: I)
    requires t.Node? && Regular(t) && InSearchOrder(InOrder(t)) && i <= |t.items|
    requires InSearchOrder(t.items) ==> IsLowerBound(t.items, x.key, i)
    ensures i == Rank(t.items, x.key) && InSearchOrder(t.items) && InSearchOrder(InOrder(t.kids[i])) && Regular(t.kids[i])
    ensures Follows(Before(t.items, t.kids, i), [x]) && Follows([x], After(t.items, t.kids, i))
    ensures i > 0 ==> Less(t.items[i - 1].key, x.key)
    ensures i < |t.items| ==> !Less(t.items[i].key, x.key)
  {
    OrderedNode(t.items, t.kids, i);
    LowerBoundIsRank(t.items, x.key, i);
    Belongs(t.items, t.kids, i, x);
    if i > 0 {
      assert t.items[..i][i - 1] == t.items[i - 1];
    }
    if i < |t.items| {
      assert t.items[i..][0] == t.items[i];
    }
  }

  /** Dealt with below: the child is in order exactly when the node is. */
  lemma OrderPassed(code: Status, t: T, i: nat, kid: T, up: I, r: T, x: I, unique: bool)
    requires t.Node? && i <= |t.items| && code != INSERTNOTCOMPLETE
    requires InSearchOrder(t.items) ==> IsLowerBound(t.items, x.key, i)
    requires |t.kids| == |t.items| + 1
    requires code == SUCCESS ==> Inserted(InOrder(t.kids[i]), InOrder(kid), x, unique)
    requires OrderOutcome(code, t.kids[i], kid, up, r, x)
    ensures OrderOutcome(code, t, Node(t.off, t.items, t.kids[i := kid]), up, r, x)
  {
    if Regular(t) && InSearchOrder(InOrder(t)) && code == SUCCESS {
      DownAtRank(t, i, x);
      FlatAt(t.items, t.kids, i);
      FlatReplace(t.items, t.kids, i, kid);
      OrderReplaced(Before(t.items, t.kids, i), InOrder(t.kids[i]), InOrder(kid), After(t.items, t.kids, i), x);
    }
  }

  /** In the place where the search went down, the halves of a child are in
      order in the node just when they are on their own. */
  lemma OrderGrown(t: T, i: nat, kid: T, up: I, r: T, x: I, unique: bool)
    requires t.Node? && Regular(t) && InSearchOrder(InOrder(t)) && i <= |t.items|
    requires InSearchOrder(t.items) ==> IsLowerBound(t.items, x.key, i)
    requires Inserted(InOrder(t.kids[i]), InOrder(kid) + [up] + InOrder(r), x, unique)
    requires InSearchOrder(InOrder(kid) + [up] + InOrder(r))
    ensures InSearchOrder(Flat(GrownItems(t.items, i, up), GrownKids(t.kids[i := kid], i, r)))
  {
    DownAtRank(t, i, x);
    FlatAt(t.items, t.kids, i);
    FlatGrow(t.items, t.kids, i, kid, up, r);
    GrownKidsInPlace(t.kids, i, kid, r);
    OrderReplaced(Before(t.items, t.kids, i), InOrder(t.kids[i]), InOrder(kid) + [up] + InOrder(r), After(t.items, t.kids, i), x);
  }

  /** Searching again for the item that came up finds the place the insertion
      went down just when that item differs from the one left of that place. */
  lemma ResearchAgreesIff(items: seq<I>, i: nat, up: I, j: nat)
    requires i <= |items| && InSearchOrder(GrownItems(items, i, up))
    requires IsLowerBound(items, up.key, j)
    ensures j == i <==> i == 0 || items[i - 1].key != up.key
    ensures j <= i
  {
    LessIsStrictTotalOrder();
    var g := GrownItems(items, i, up);
    assert g[i] == up;
    assert forall k | 0 <= k < i :: g[k] == items[k];
    assert forall k | i <= k < |items| :: g[k + 1] == items[k];
    LowerBoundIsRank(items, up.key, j);
    PrefixBelow(items, up.key, j);
    if i == 0 || items[i - 1].key != up.key {
      forall k | 0 <= k < i ensures Less(items[k].key, up.key) {
        assert !Less(g[i].key, g[i - 1].key) && (k < i - 1 ==> !Less(g[i - 1].key, g[k].key));
      }
      assert NoneBelow(items[i..], up.key);
      LowerBoundIsRank(items, up.key, i);
    }
  }

  lemma PrefixBelow(items: seq<I>, key: Key, j: nat)
    requires j <= |items| && AllBelow(items[..j], key)
    ensures forall k | 0 <= k < j :: Less(items[k].key, key)
  {
    assert forall k | 0 <= k < j :: items[..j][k] == items[k];
  }

  /** What is above the middle item of two ordered halves is in the right one. */
  lemma InUpperHalf(was: seq<I>, l: seq<I>, up: I, r: seq<I>, x: I)
    requires multiset(l + [up] + r) == multiset(was) + multiset{x} && InSearchOrder(l + [up] + r)
    requires Less(up.key, x.key)
    ensures x in r
  {
    LessIsStrictTotalOrder();
    OrderAround(l, [up], r);
    assert x in multiset(l + [up] + r);
    assert x in l + [up] + r;
    assert up in [up];
  }

  /** Put left of an equal item, the upper half of the child is out of order. */
  lemma OrderMisplaced(items: seq<I>, kids: seq<T>, i: nat, j: nat, up: I, r: T, x: I)
    requires |kids| == |items| + 1 && j < i <= |items|
    requires InSearchOrder(items) && IsLowerBound(items, up.key, j) && items[i - 1].key == up.key
    requires Less(up.key, x.key) && x in InOrder(r)
    ensures !InSearchOrder(Flat(GrownItems(items, j, up), GrownKids(kids, j, r)))
  {
    LessIsStrictTotalOrder();
    var gi, gk := GrownItems(items, j, up), GrownKids(kids, j, r);
    assert gi[j + 1] == items[j] && gk[j + 1] == r;
    assert items[j..][0] == items[j];
    assert j < i - 1 ==> !Less(items[i - 1].key, items[j].key);
    assert items[j].key == up.key;
    FlatAt(gi, gk, j + 1);
    var b, a := Before(gi, gk, j + 1), After(gi, gk, j + 1);
    assert items[j] in a;
    hide Flat, InOrder, Before, After, GrownItems, GrownKids;
    OrderAround(b, InOrder(r), a);
  }

  /** Taking in what came up, in a node with room. */
  lemma OrderTaken(t: T, i: nat, kid: T, j: nat, up: I, r: T, x: I, unique: bool)
    requires t.Node? && |t.kids| == |t.items| + 1 && |t.items| < INDEX_SIZE && i <= |t.items| && j <= |t.items|
    requires InSearchOrder(t.items) ==> IsLowerBound(t.items, x.key, i) && IsLowerBound(t.items, up.key, j)
    requires Inserted(InOrder(t.kids[i]), InOrder(kid) + [up] + InOrder(r), x, unique)
    requires OrderOutcome(INSERTNOTCOMPLETE, t.kids[i], kid, up, r, x)
    ensures OrderOutcome(SUCCESS, t, Node(t.off, GrownItems(t.items, j, up), GrownKids(t.kids[i := kid], j, r)), up, Nil, x)
    ensures Regular(t) && InSearchOrder(InOrder(t)) ==> (j == i <==> i == 0 || t.items[i - 1].key != up.key)
  {
    if Regular(t) && InSearchOrder(InOrder(t)) {
      DownAtRank(t, i, x);
      var k := t.kids[i := kid];
      InOrderOf(t.off, GrownItems(t.items, j, up), GrownKids(k, j, r));
      RiserTaken(t, i, up, x);
      hide Inserted, Follows, Before, After, IsLowerBound, Flat, InOrder, GrownItems, GrownKids, Riser, Misplaced, Regular, InSearchOrder;
      TakenOrder(t, i, kid, j, up, r, x, unique);
    }
  }

  lemma RiserTaken(t: T, i: nat, up: I, x: I)
    requires t.Node? && Regular(t) && |t.items| < INDEX_SIZE && i == Rank(t.items, x.key) && Riser(t.kids[i], x) == Rises(up)
    ensures Riser(t, x) == Stays && (Misplaced(t, x) <==> i > 0 && t.items[i - 1].key == up.key)
  {
  }

  lemma TakenOrder(t: T, i: nat, kid: T, j: nat, up: I, r: T, x: I, unique: bool)
    requires t.Node? && Regular(t) && InSearchOrder(InOrder(t)) && i <= |t.items| && j <= |t.items|
    requires InSearchOrder(t.items) ==> IsLowerBound(t.items, x.key, i) && IsLowerBound(t.items, up.key, j)
    requires Inserted(InOrder(t.kids[i]), InOrder(kid) + [up] + InOrder(r), x, unique)
    requires InSearchOrder(InOrder(kid) + [up] + InOrder(r))
    ensures j == i <==> i == 0 || t.items[i - 1].key != up.key
    ensures InSearchOrder(Flat(GrownItems(t.items, j, up), GrownKids(t.kids[i := kid], j, r))) <==> j == i
  {
    DownAtRank(t, i, x);
    OrderGrown(t, i, kid, up, r, x, unique);
    OrderedItems(GrownItems(t.items, i, up), GrownKids(t.kids[i := kid], i, r));
    hide Flat, GrownKids, Follows, Before, After;
    ResearchAgreesIff(t.items, i, up, j);
    if j != i {
      InUpperHalf(InOrder(t.kids[i]), InOrder(kid), up, InOrder(r), x);
      OrderMisplaced(t.items, t.kids[i := kid], i, j, up, r, x);
    }
  }

  lemma InOrderOf(off: int, items: seq<I>, kids: seq<T>)
    ensures InOrder(Node(off, items, kids)) == Flat(items, kids)
  {
  }

  lemma SplitInOrder(t: T, i: nat, kid: T, up: I, r: T, offnew: int)
    requires t.Node? && |t.kids| == |t.items| + 1 && i <= |t.items| == INDEX_SIZE
    ensures InOrder(SplitLeft(t, i, kid, up, r)) + [GrownItems(t.items, i, up)[INDEX_MSIZE]] + InOrder(SplitRight(t, i, kid, up, r, offnew))
         == Flat(GrownItems(t.items, i, up), GrownKids(t.kids[i := kid], i, r))
  {
    FlatCut(GrownItems(t.items, i, up), GrownKids(t.kids[i := kid], i, r), INDEX_MSIZE);
    hide Flat, GrownItems, GrownKids;
  }

  /** Splitting a full node. */
  lemma OrderSplit(t: T, i: nat, kid: T, up: I, r: T, x: I, unique: bool, offnew: int)
    requires t.Node? && |t.kids| == |t.items| + 1 && i <= |t.items| == INDEX_SIZE
    requires InSearchOrder(t.items) ==> IsLowerBound(t.items, x.key, i)
    requires Inserted(InOrder(t.kids[i]), InOrder(kid) + [up] + InOrder(r), x, unique)
    requires OrderOutcome(INSERTNOTCOMPLETE, t.kids[i], kid, up, r, x)
    ensures OrderOutcome(INSERTNOTCOMPLETE, t, SplitLeft(t, i, kid, up, r), GrownItems(t.items, i, up)[INDEX_MSIZE],
                         SplitRight(t, i, kid, up, r, offnew), x)
  {
    if Regular(t) && InSearchOrder(InOrder(t)) {
      DownAtRank(t, i, x);
      SplitInOrder(t, i, kid, up, r, offnew);
      hide Follows, Before, After, InSearchOrder, IsLowerBound, Flat, InOrder, SplitLeft, SplitRight, GrownKids, Inserted;
      OrderGrown(t, i, kid, up, r, x, unique);
    }
  }

  // ----- and to the crowds -----

  /** The item left of child i, seen from that child. */
  lemma LowBelow(t: T, i: nat, x: I, low: Low)
    requires t.Node? && Regular(t) && InSearchOrder(InOrder(t)) && i <= |t.items|
    requires InSearchOrder(t.items) ==> IsLowerBound(t.items, x.key, i)
    requires Light(t, low) && Bounded(t, low) && Above(low, x.key)
    ensures var low' := LowOf(t.items, low, i);
      Light(t.kids[i], low') && Bounded(t.kids[i], low') && Above(low', x.key)
  {
    DownAtRank(t, i, x);
    OrderedNode(t.items, t.kids, i);
    FlatAt(t.items, t.kids, i);
    assert forall y | y in InOrder(t.kids[i]) :: y in InOrder(t);
    if i > 0 {
      var b := Before(t.items, t.kids, i);
      assert b[|b| - 1] == t.items[i - 1];
      assert t.items[i - 1] in b;
    }
  }

  lemma LightPassed(code: Status, t: T, i: nat, kid: T, up: I, r: T, x: I)
    requires t.Node? && |t.kids| == |t.items| + 1 && i <= |t.items| && code != INSERTNOTCOMPLETE
    requires InSearchOrder(t.items) ==> IsLowerBound(t.items, x.key, i)
    requires OrderOutcome(code, t.kids[i], kid, up, r, x) && KeepsLight(code, t.kids[i], kid, up, r, x)
    ensures KeepsLight(code, t, Node(t.off, t.items, t.kids[i := kid]), up, r, x)
  {
    var t' := Node(t.off, t.items, t.kids[i := kid]);
    forall low ensures LightOutcome(code, t, t', up, r, x, low) {
      if Regular(t) && InSearchOrder(InOrder(t)) && Light(t, low) && Bounded(t, low) && Above(low, x.key) && code == SUCCESS {
        DownAtRank(t, i, x);
        LowBelow(t, i, x, low);
        assert LightOutcome(code, t.kids[i], kid, up, r, x, LowOf(t.items, low, i));
        hide InSearchOrder, InOrder, Flat, Bounded, Follows, Before, After, IsLowerBound, Riser, Rank;
        assert Light(t', low);
      }
    }
  }

  /** With the item that came up in, the middle item of a node is not equal to
      the one left of the node. */
  lemma MiddleDiffers(t: T, i: nat, up: I, low: Low, x: I)
    requires t.Node? && Regular(t) && i <= |t.items| && INDEX_MSIZE <= |t.items|
    requires InSearchOrder(GrownItems(t.items, i, up))
    requires Light(t, low) && Bounded(t, low) && Above(low, x.key) && (i < |t.items| ==> !Less(t.items[i].key, x.key))
    requires LowOf(t.items, low, i).Low? ==> up.key != LowOf(t.items, low, i).key
    ensures low.Low? ==> GrownItems(t.items, i, up)[INDEX_MSIZE].key != low.key
  {
    LessIsStrictTotalOrder();
    ItemsInFlat(t.items, t.kids);
    var g := GrownItems(t.items, i, up);
    if low.Low? {
      assert forall k | 0 <= k < |t.items| :: t.items[k] in InOrder(t);
      if i > INDEX_MSIZE {
        assert g[INDEX_MSIZE] == t.items[INDEX_MSIZE];
      } else if i < INDEX_MSIZE {
        assert g[INDEX_MSIZE] == t.items[INDEX_MSIZE - 1];
        assert g[i + 1] == t.items[i];
        assert i < INDEX_MSIZE - 1 ==> !Less(g[INDEX_MSIZE].key, g[i + 1].key);
      } else {
        assert g[INDEX_MSIZE] == up && g[i - 1] == t.items[i - 1];
        assert !Less(g[i].key, g[i - 1].key);
      }
    }
  }

  lemma GrownLight(t: T, i: nat, kid: T, up: I, r: T, low: Low)
    requires t.Node? && |t.kids| == |t.items| + 1 && i <= |t.items|
    requires Light(t, low) && Light(kid, LowOf(t.items, low, i)) && Light(r, Low(up.key))
    ensures var gi, gk := GrownItems(t.items, i, up), GrownKids(t.kids[i := kid], i, r);
      forall k | 0 <= k < |gk| :: Light(gk[k], LowOf(gi, low, k))
  {
    var gi, gk := GrownItems(t.items, i, up), GrownKids(t.kids[i := kid], i, r);
    forall k | 0 <= k < |gk| ensures Light(gk[k], LowOf(gi, low, k)) {
      if k < i {
        assert gk[k] == t.kids[k] && LowOf(gi, low, k) == LowOf(t.items, low, k);
      } else if k == i {
        assert gk[k] == kid && LowOf(gi, low, k) == LowOf(t.items, low, k);
      } else if k == i + 1 {
        assert gk[k] == r && gi[k - 1] == up;
      } else {
        assert gk[k] == t.kids[k - 1] && gi[k - 1] == t.items[k - 2];
        assert Light(t.kids[k - 1], LowOf(t.items, low, k - 1));
      }
    }
  }

  lemma LightTaken(t: T, i: nat, kid: T, j: nat, up: I, r: T, x: I, unique: bool)
    requires t.Node? && |t.kids| == |t.items| + 1 && |t.items| < INDEX_SIZE && i <= |t.items| && j <= |t.items|
    requires InSearchOrder(t.items) ==> IsLowerBound(t.items, x.key, i) && IsLowerBound(t.items, up.key, j)
    requires Inserted(InOrder(t.kids[i]), InOrder(kid) + [up] + InOrder(r), x, unique)
    requires OrderOutcome(INSERTNOTCOMPLETE, t.kids[i], kid, up, r, x) && KeepsLight(INSERTNOTCOMPLETE, t.kids[i], kid, up, r, x)
    ensures KeepsLight(SUCCESS, t, Node(t.off, GrownItems(t.items, j, up), GrownKids(t.kids[i := kid], j, r)), up, Nil, x)
  {
    var t' := Node(t.off, GrownItems(t.items, j, up), GrownKids(t.kids[i := kid], j, r));
    OrderTaken(t, i, kid, j, up, r, x, unique);
    forall low ensures LightOutcome(SUCCESS, t, t', up, Nil, x, low) {
      if Regular(t) && InSearchOrder(InOrder(t)) && Light(t, low) && Bounded(t, low) && Above(low, x.key) {
        DownAtRank(t, i, x);
        LowBelow(t, i, x, low);
        assert LightOutcome(INSERTNOTCOMPLETE, t.kids[i], kid, up, r, x, LowOf(t.items, low, i));
        OrderGrown(t, i, kid, up, r, x, unique);
        OrderedNode(GrownItems(t.items, i, up), GrownKids(t.kids[i := kid], i, r), 0);
        GrownLight(t, i, kid, up, r, low);
        if INDEX_MSIZE <= |t.items| {
          MiddleDiffers(t, i, up, low, x);
        }
      }
    }
  }

  lemma LightSplit(t: T, i: nat, kid: T, up: I, r: T, x: I, unique: bool, offnew: int)
    requires t.Node? && |t.kids| == |t.items| + 1 && i <= |t.items| == INDEX_SIZE
    requires InSearchOrder(t.items) ==> IsLowerBound(t.items, x.key, i)
    requires Inserted(InOrder(t.kids[i]), InOrder(kid) + [up] + InOrder(r), x, unique)
    requires OrderOutcome(INSERTNOTCOMPLETE, t.kids[i], kid, up, r, x) && KeepsLight(INSERTNOTCOMPLETE, t.kids[i], kid, up, r, x)
    ensures KeepsLight(INSERTNOTCOMPLETE, t, SplitLeft(t, i, kid, up, r), GrownItems(t.items, i, up)[INDEX_MSIZE],
                       SplitRight(t, i, kid, up, r, offnew), x)
  {
    var l, mid, r' := SplitLeft(t, i, kid, up, r), GrownItems(t.items, i, up)[INDEX_MSIZE], SplitRight(t, i, kid, up, r, offnew);
    forall low ensures LightOutcome(INSERTNOTCOMPLETE, t, l, mid, r', x, low) {
      if Regular(t) && InSearchOrder(InOrder(t)) && Light(t, low) && Bounded(t, low) && Above(low, x.key) {
        DownAtRank(t, i, x);
        LowBelow(t, i, x, low);
        assert LightOutcome(INSERTNOTCOMPLETE, t.kids[i], kid, up, r, x, LowOf(t.items, low, i));
        OrderGrown(t, i, kid, up, r, x, unique);
        OrderedNode(GrownItems(t.items, i, up), GrownKids(t.kids[i := kid], i, r), 0);
        GrownLight(t, i, kid, up, r, low);
        MiddleDiffers(t, i, up, low, x);
        HalvesLight(GrownItems(t.items, i, up), GrownKids(t.kids[i := kid], i, r), low, t.off, offnew);
      }
    }
  }

  lemma HalvesLight(gi: seq<I>, gk: seq<T>, low: Low, off: int, offnew: int)
    requires |gi| == INDEX_SIZE + 1 && |gk| == INDEX_SIZE + 2
    requires forall k | 0 <= k < |gk| :: Light(gk[k], LowOf(gi, low, k))
    ensures Light(Node(off, gi[..INDEX_MSIZE], gk[..INDEX_MSIZE + 1]), low)
    ensures Light(Node(offnew, gi[INDEX_MSIZE + 1..], gk[INDEX_MSIZE + 1..]), Low(gi[INDEX_MSIZE].key))
  {
    var l, r := Node(off, gi[..INDEX_MSIZE], gk[..INDEX_MSIZE + 1]), Node(offnew, gi[INDEX_MSIZE + 1..], gk[INDEX_MSIZE + 1..]);
    forall k | 0 <= k < |l.kids| ensures Light(l.kids[k], LowOf(l.items, low, k)) {
      assert Light(gk[k], LowOf(gi, low, k));
    }
    forall k | 0 <= k < |r.kids| ensures Light(r.kids[k], LowOf(r.items, Low(gi[INDEX_MSIZE].key), k)) {
      assert Light(gk[INDEX_MSIZE + 1 + k], LowOf(gi, low, INDEX_MSIZE + 1 + k));
    }
  }

  // ----- both together -----

  ghost predicate Orderly(code: Status, t: T, t': T, up: I, r: T, x: I) {
    OrderOutcome(code, t, t', up, r, x) && KeepsLight(code, t, t', up, r, x)
  }

  lemma OrderlyPassed(code: Status, t: T, h: nat, i: nat, kid: T, up: I, r: T, x: I, unique: bool)
    requires t.Node? && |t.kids| == |t.items| + 1 && i <= |t.items| && code != INSERTNOTCOMPLETE && 0 < h
    requires InSearchOrder(t.items) ==> IsLowerBound(t.items, x.key, i)
    requires InsertOutcome(code, t.kids[i], h - 1, kid, up, r, x, unique) && Orderly(code, t.kids[i], kid, up, r, x)
    ensures Orderly(code, t, Node(t.off, t.items, t.kids[i := kid]), up, r, x)
  {
    hide OrderOutcome, KeepsLight, Inserted;
    OrderPassed(code, t, i, kid, up, r, x, unique);
    LightPassed(code, t, i, kid, up, r, x);
  }

  lemma OrderlyTaken(t: T, h: nat, i: nat, kid: T, j: nat, up: I, r: T, x: I, unique: bool)
    requires t.Node? && |t.kids| == |t.items| + 1 && |t.items| < INDEX_SIZE && i <= |t.items| && j <= |t.items| && 0 < h
    requires InSearchOrder(t.items) ==> IsLowerBound(t.items, x.key, i) && IsLowerBound(t.items, up.key, j)
    requires InsertOutcome(INSERTNOTCOMPLETE, t.kids[i], h - 1, kid, up, r, x, unique)
    requires Orderly(INSERTNOTCOMPLETE, t.kids[i], kid, up, r, x)
    ensures Orderly(SUCCESS, t, Node(t.off, GrownItems(t.items, j, up), GrownKids(t.kids[i := kid], j, r)), up, Nil, x)
  {
    hide OrderOutcome, KeepsLight, Inserted;
    OrderTaken(t, i, kid, j, up, r, x, unique);
    LightTaken(t, i, kid, j, up, r, x, unique);
  }

  lemma OrderlySplit(t: T, h: nat, i: nat, kid: T, up: I, r: T, x: I, unique: bool, offnew: int)
    requires t.Node? && |t.kids| == |t.items| + 1 && i <= |t.items| == INDEX_SIZE && 0 < h
    requires InSearchOrder(t.items) ==> IsLowerBound(t.items, x.key, i)
    requires InsertOutcome(INSERTNOTCOMPLETE, t.kids[i], h - 1, kid, up, r, x, unique)
    requires Orderly(INSERTNOTCOMPLETE, t.kids[i], kid, up, r, x)
    ensures Orderly(INSERTNOTCOMPLETE, t, SplitLeft(t, i, kid, up, r), GrownItems(t.items, i, up)[INDEX_MSIZE],
                    SplitRight(t, i, kid, up, r, offnew), x)
  {
    hide OrderOutcome, KeepsLight, Inserted;
    OrderSplit(t, i, kid, up, r, x, unique, offnew);
    LightSplit(t, i, kid, up, r, x, unique, offnew);
  }

  // ----- the whole tree -----

  /** What btree_insert means for search order. */
  lemma OrderMeaning(t: T, t': T, up: I, r: T, x: I)
    requires Regular(t) && Orderly(SUCCESS, t, t', up, r, x)
    ensures InSearchOrder(InOrder(t)) ==> (InSearchOrder(InOrder(t')) <==> !Misplaced(t, x))
    ensures InSearchOrder(InOrder(t)) && Light(t, NoLow) ==> InSearchOrder(InOrder(t')) && Light(t', NoLow)
  {
    assert LightOutcome(SUCCESS, t, t', up, r, x, NoLow);
  }

  /** ... with a new root above the halves. */
  lemma OrderRoot(t: T, l: T, up: I, r: T, x: I, off: int)
    requires Regular(t) && Orderly(INSERTNOTCOMPLETE, t, l, up, r, x)
    ensures InSearchOrder(InOrder(t)) ==> InSearchOrder(InOrder(l) + [up] + InOrder(r)) && !Misplaced(t, x)
    ensures InSearchOrder(InOrder(t)) && Light(t, NoLow) ==> Light(Node(off, [up], [l, r]), NoLow)
  {
    assert LightOutcome(INSERTNOTCOMPLETE, t, l, up, r, x, NoLow);
    var n := Node(off, [up], [l, r]);
    assert LowOf(n.items, NoLow, 0) == NoLow && LowOf(n.items, NoLow, 1) == Low(up.key);
  }

  // ----- how many copies of a key it takes -----

  function Copies(s: seq<I>, key: Key): nat {
    if s == [] then 0 else (if s[0].key == key then 1 else 0) + Copies(s[1..], key)
  }

  /** How many items have a key not above `key`. */
  function UpTo(s: seq<I>, key: Key): nat {
    if s == [] then 0 else (if Less(key, s[0].key) then 0 else 1) + UpTo(s[1..], key)
  }

  lemma {:induction false} CountsConcat(a: seq<I>, b: seq<I>, key: Key)
    ensures Copies(a + b, key) == Copies(a, key) + Copies(b, key)
    ensures UpTo(a + b, key) == UpTo(a, key) + UpTo(b, key)
    decreases |a|
  {
    if a == [] {
      assert a + b == b;
    } else {
      assert (a + b)[1..] == a[1..] + b;
      CountsConcat(a[1..], b, key);
    }
  }

  lemma {:induction false} UpToAll(s: seq<I>, key: Key)
    requires forall x | x in s :: !Less(x.key, key)
    ensures UpTo(s, key) == Copies(s, key)
    decreases |s|
  {
    if s != [] {
      LessIsStrictTotalOrder();
      assert s[0] in s;
      UpToAll(s[1..], key);
    }
  }

  lemma {:induction false} ItemsUpTo(items: seq<I>, kids: seq<T>, key: Key)
    requires |kids| == |items| + 1
    ensures UpTo(items, key) <= UpTo(Flat(items, kids), key)
  {
    if items != [] {
      var rest := Flat(items[1..], kids[1..]);
      assert Flat(items, kids) == InOrder(kids[0]) + [items[0]] + rest;
      ItemsUpTo(items[1..], kids[1..], key);
      hide Flat, InOrder;
      CountsConcat(InOrder(kids[0]) + [items[0]], rest, key);
      CountsConcat(InOrder(kids[0]), [items[0]], key);
      CountsConcat([items[0]], items[1..], key);
      assert items == [items[0]] + items[1..];
    }
  }

  lemma KidCounts(t: T, i: nat, key: Key)
    requires t.Node? && |t.kids| == |t.items| + 1 && i <= |t.items|
    ensures UpTo(InOrder(t.kids[i]), key) <= UpTo(InOrder(t), key)
    ensures Copies(Before(t.items, t.kids, i), key) + Copies(InOrder(t.kids[i]), key) <= Copies(InOrder(t), key)
  {
    FlatAt(t.items, t.kids, i);
    var b, k, a := Before(t.items, t.kids, i), InOrder(t.kids[i]), After(t.items, t.kids, i);
    CountsConcat(b + k, a, key);
    CountsConcat(b, k, key);
  }

  /** An item that comes up although it is below the new one leaves two behind. */
  lemma {:induction false} RiserCrowd(t: T, x: I, up: I)
    requires Regular(t) && InSearchOrder(InOrder(t)) && Riser(t, x) == Rises(up) && Less(up.key, x.key)
    ensures UpTo(InOrder(t), up.key) >= 3
    decreases t
  {
    LessIsStrictTotalOrder();
    if t.Node? {
      var i := Rank(t.items, x.key);
      var v := Riser(t.kids[i], x).item;
      OrderedItems(t.items, t.kids);
      RankIsLowerBound(t.items, x.key);
      DownAtRank(t, i, x);
      hide InOrder, InSearchOrder, IsLowerBound, Follows, Before, After, UpTo, Less;
      MiddleIs(t.items, i, v, x.key);
      if i > INDEX_MSIZE {
        ItemsCounted(t);
        ThreeUpTo(t.items, up.key);
      } else {
        RiserCrowd(t.kids[i], x, v);
        KidCounts(t, i, up.key);
      }
    }
  }

  /** The middle item of a full node with one more in. */
  lemma MiddleIs(items: seq<I>, i: nat, v: I, key: Key)
    requires |items| == INDEX_SIZE && i <= |items| && InSearchOrder(items) && (i < |items| ==> !Less(items[i].key, key))
    ensures i < INDEX_MSIZE ==> !Less(GrownItems(items, i, v)[INDEX_MSIZE].key, key)
    ensures i >= INDEX_MSIZE ==> GrownItems(items, i, v)[INDEX_MSIZE] == if i > INDEX_MSIZE then items[INDEX_MSIZE] else v
  {
    LessIsStrictTotalOrder();
    if i < INDEX_MSIZE {
      assert GrownItems(items, i, v)[INDEX_MSIZE] == items[INDEX_MSIZE - 1];
      assert i < INDEX_MSIZE - 1 ==> !Less(items[INDEX_MSIZE - 1].key, items[i].key);
    }
  }

  lemma ItemsCounted(t: T)
    requires t.Node? && |t.kids| == |t.items| + 1
    ensures forall key :: UpTo(t.items, key) <= UpTo(InOrder(t), key)
  {
    forall key ensures UpTo(t.items, key) <= UpTo(InOrder(t), key) {
      ItemsUpTo(t.items, t.kids, key);
    }
  }

  lemma ThreeUpTo(items: seq<I>, key: Key)
    requires |items| >= 3 && InSearchOrder(items) && items[2].key == key
    ensures UpTo(items, key) >= 3
  {
    LessIsStrictTotalOrder();
    assert !Less(items[2].key, items[1].key) && !Less(items[2].key, items[0].key);
    var a, b := items[1..], items[1..][1..];
    assert b[0] == items[2];
    assert UpTo(b, key) >= 1;
    assert a[0] == items[1];
    assert UpTo(a, key) >= 2;
  }

  /** Search order is lost only to a key that occurs four times already. */
  lemma {:induction false} FourCopies(t: T, x: I)
    requires Regular(t) && InSearchOrder(InOrder(t)) && Misplaced(t, x)
    ensures exists p :: Less(p, x.key) && Copies(InOrder(t), p) >= 4
    decreases t
  {
    LessIsStrictTotalOrder();
    var i := Rank(t.items, x.key);
    OrderedNode(t.items, t.kids, i);
    RankIsLowerBound(t.items, x.key);
    DownAtRank(t, i, x);
    if Riser(t.kids[i], x).Stays? {
      FourCopies(t.kids[i], x);
      var p :| Less(p, x.key) && Copies(InOrder(t.kids[i]), p) >= 4;
      KidCounts(t, i, p);
    } else {
      var up := Riser(t.kids[i], x).item;
      var b, k := Before(t.items, t.kids, i), InOrder(t.kids[i]);
      RiserCrowd(t.kids[i], x, up);
      assert b[|b| - 1] == t.items[i - 1] && t.items[i - 1] in b;
      UpToAll(k, up.key);
      KidCounts(t, i, up.key);
      CountsConcat(b[..|b| - 1], [t.items[i - 1]], up.key);
      assert b == b[..|b| - 1] + [t.items[i - 1]];
      assert Copies([t.items[i - 1]], up.key) == 1;
    }
  }

  // ----- an index that loses its order -----

  function Leaf(off: int, items: seq<I>): T {
    Node(off, items, seq(|items| + 1, _ => Nil))
  }

  /** Four equal items, three of them in a full leaf right of the fourth. */
  function Crowded(a: I, b: I, c: I): T {
    Node(9, [b], [Leaf(1, [a, a]), Leaf(2, [b, b, b, c])])
  }

  /** A well-shaped index in search order, in which the next c is misplaced. */
  lemma CrowdedLosesOrder(a: I, b: I, c: I)
    requires Less(a.key, b.key) && Less(b.key, c.key)
    ensures var t := Crowded(a, b, c);
      Shape(t, 2, 1) && Regular(t) && InSearchOrder(InOrder(t)) && Misplaced(t, c)
  {
    var t := Crowded(a, b, c);
    CrowdedShape(a, b, c);
    CrowdedOrder(a, b, c);
    CrowdedMisplaced(a, b, c);
  }

  lemma CrowdedShape(a: I, b: I, c: I)
    ensures Shape(Crowded(a, b, c), 2, 1) && Regular(Crowded(a, b, c))
  {
    ShapeRegular(Crowded(a, b, c), 2, 1);
  }

  lemma CrowdedOrder(a: I, b: I, c: I)
    requires Less(a.key, b.key) && Less(b.key, c.key)
    ensures InSearchOrder(InOrder(Crowded(a, b, c)))
  {
    LessIsStrictTotalOrder();
    var l, r := Leaf(1, [a, a]), Leaf(2, [b, b, b, c]);
    FlatLeaf(l.items, l.kids);
    FlatLeaf(r.items, r.kids);
    FlatOne(l, b, r);
    hide Flat;
    assert InOrder(l) + [b] + InOrder(r) == [a, a, b, b, b, b, c];
  }

  lemma CrowdedMisplaced(a: I, b: I, c: I)
    requires Less(a.key, b.key) && Less(b.key, c.key) && Regular(Crowded(a, b, c))
    ensures Misplaced(Crowded(a, b, c), c)
  {
    LessIsStrictTotalOrder();
    var t, r := Crowded(a, b, c), Leaf(2, [b, b, b, c]);
    assert [b][1..] == [];
    assert Rank([b], c.key) == 1;
    assert [b, b, b, c][1..] == [b, b, c] && [b, b, c][1..] == [b, c] && [b, c][1..] == [c];
    assert Rank([b, c], c.key) == 1;
    assert Rank([b, b, c], c.key) == 2;
    assert Rank(r.items, c.key) == 3;
    assert r.kids[3] == Nil && Riser(r.kids[3], c) == Rises(c);
    assert GrownItems(r.items, 3, c)[INDEX_MSIZE] == b;
    assert Riser(r, c) == Rises(b);
  }
}
