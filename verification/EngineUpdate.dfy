/**
 * Changing one slot in place, on values: where the search for a key ends, and
 * what rewriting that slot's data offset or metadata does to the tree.
 */
module EngineUpdate {
  import opened Order
  import opened SearchTree
  import opened Ownership
  import opened EngineTable
  import opened EngineSpec
  import opened EngineTree

  /** The offset of the table in which the search for key down from t ends. */
  function Holder(t: T, key: Key): int
    decreases t
  {
    if t.Nil? then 0
    else
      var i := Rank(t.items, key);
      if i < |t.items| && t.items[i].key == key then t.off
      else if i < |t.kids| then Holder(t.kids[i], key)
      else 0
  }

  /** The tree with another data offset for a key. */
  function Updated(t: T, key: Key, val: int): T
    decreases t
  {
    if t.Nil? then t
    else
      var i := Rank(t.items, key);
      if i < |t.items| && t.items[i].key == key then Node(t.off, t.items[i := Item(key, val)], t.kids)
      else if i < |t.kids| then Node(t.off, t.items, t.kids[i := Updated(t.kids[i], key, val)])
      else t
  }

  /** Slot i of v holds key, with data offset val; the rest of the table is that
      of u, up to metadata. */
  ghost predicate Rewrites(u: Table, v: Table, key: Key, i: int, val: int) {
    && u.Ok() && v.Ok() && v.size == u.size && 0 <= i < u.size
    && v.slots[i].quid == key == u.slots[i].quid && v.slots[i].offset == val
    && (forall j | 0 <= j < |u.slots| :: v.slots[j].child == u.slots[j].child)
    && forall j | 0 <= j < |u.slots| && j != i :: v.slots[j] == u.slots[j]
  }

  /** One step of the search. */
  lemma FindSlotStep(disk: map<int, Table>, t: T, key: Key, i: int)
    requires t.Node? && |t.kids| == |t.items| + 1 && IsLowerBound(t.items, key, i)
    ensures i < |t.items| && t.items[i].key == key && t.off in disk && disk[t.off].Ok() && disk[t.off].Keys() == t.items ==>
      FindSlot(disk, t, key) == Hit(disk[t.off].slots[i]) && Holder(t, key) == t.off
    ensures !(i < |t.items| && t.items[i].key == key) ==>
      FindSlot(disk, t, key) == FindSlot(disk, t.kids[i], key) && Holder(t, key) == Holder(t.kids[i], key)
  {
    LowerBoundIsRank(t.items, key, i);
  }

  lemma {:induction false} HolderInside(disk: map<int, Table>, p: int, t: T, key: Key)
    requires Repr(disk, p, t) && FindSlot(disk, t, key).Hit?
    ensures Holder(t, key) in Offs(t) && Holder(t, key) in disk && disk[Holder(t, key)].Ok()
    decreases t
  {
    var i := Rank(t.items, key);
    if !(i < |t.items| && t.items[i].key == key) {
      HolderInside(disk, disk[p].Kids()[i], t.kids[i], key);
      KidsOffsAt(t.kids, i);
    }
  }

  lemma {:induction false} UpdatedOffs(t: T, key: Key, val: int)
    ensures Offs(Updated(t, key, val)) == Offs(t)
    decreases t
  {
    if t.Node? {
      var i := Rank(t.items, key);
      if !(i < |t.items| && t.items[i].key == key) && i < |t.kids| {
        UpdatedOffs(t.kids[i], key, val);
        SiblingsAndKid(t, i, Updated(t.kids[i], key, val));
      }
    }
  }

  lemma {:induction false} UpdatedShape(t: T, key: Key, val: int, h: nat, lo: int, hi: int)
    requires Shape(t, h, lo, hi)
    ensures Shape(Updated(t, key, val), h, lo, hi)
    decreases t
  {
    if t.Node? {
      var i := Rank(t.items, key);
      if !(i < |t.items| && t.items[i].key == key) && i < |t.kids| {
        UpdatedShape(t.kids[i], key, val, h - 1, 1, MAX_KEYS);
      }
    }
  }

  /** The item under the key gets the new offset, no other item changes. */
  lemma {:induction false} UpdatedInOrder(disk: map<int, Table>, p: int, t: T, key: Key, val: int)
    requires Repr(disk, p, t) && Sorted(InOrder(t)) && Has(InOrder(t), key)
    ensures InOrder(Updated(t, key, val)) == InOrder(t)[Rank(InOrder(t), key) := Item(key, val)]
    decreases t
  {
    SortedNode(t.items, t.kids);
    RankSplits(t.items, key);
    var i, t' := Rank(t.items, key), Updated(t, key, val);
    if i < |t.items| && t.items[i].key == key {
      ItemAtRank(t, key, i);
      AroundItem(t, i);
      AroundItem(t', i);
      assert t'.items[..i] == t.items[..i] && t'.items[i + 1..] == t.items[i + 1..];
      hide Flat, LeftOf, RightOf;
      UpdatedMiddle(LeftOf(t, i), t.items[i], RightOf(t, i), Item(key, val));
    } else {
      Located(t, i, key);
      UpdatedInOrder(disk, disk[p].Kids()[i], t.kids[i], key, val);
      FlatReplace(t.items, t.kids, i, Updated(t.kids[i], key, val));
      hide Flat, Before, After;
      UpdatedWithin(Before(t.items, t.kids, i), InOrder(t.kids[i]), After(t.items, t.kids, i), Rank(InOrder(t.kids[i]), key), Item(key, val));
    }
  }

  lemma UpdatedMiddle(a: seq<I>, x: I, b: seq<I>, y: I)
    ensures a + [y] + b == (a + [x] + b)[|a| := y]
  {
  }

  lemma UpdatedWithin(b: seq<I>, m: seq<I>, a: seq<I>, r: nat, y: I)
    requires r < |m|
    ensures b + m[r := y] + a == (b + m + a)[|b| + r := y]
  {
  }

  lemma UpdatedTop(d: map<int, Table>, t: T, key: Key, i: int, val: int, v: Table)
    requires t.Node? && Repr(d, t.off, t) && OnceEach(Offs(t)) && Sorted(t.items)
    requires Rewrites(d[t.off], v, key, i, val)
    ensures i == Rank(t.items, key) < |t.items| && Repr(d[t.off := v], t.off, Node(t.off, t.items[i := Item(key, val)], t.kids))
  {
    OnceTop(t);
    ReprKidsFrame(d, d[t.off := v], d[t.off].Kids(), t.kids);
    assert d[t.off].Keys()[i].key == key;
    RankStopsBefore(t.items, key, i);
    assert v.Kids() == d[t.off].Kids() && v.Keys() == t.items[i := Item(key, val)];
  }

  /** With the slot rewritten on disk, the store represents the updated tree. */
  lemma {:induction false} UpdatedRepr(d: map<int, Table>, p: int, t: T, key: Key, i: int, val: int, v: Table)
    requires Repr(d, p, t) && FindSlot(d, t, key).Hit? && OnceEach(Offs(t)) && Sorted(InOrder(t))
    requires Holder(t, key) in d && Rewrites(d[Holder(t, key)], v, key, i, val)
    ensures Repr(d[Holder(t, key) := v], p, Updated(t, key, val))
    decreases t
  {
    var q, d', r := Holder(t, key), d[Holder(t, key) := v], Rank(t.items, key);
    SortedNode(t.items, t.kids);
    RankSplits(t.items, key);
    if r < |t.items| && t.items[r].key == key {
      UpdatedTop(d, t, key, i, val, v);
    } else {
      var ps := d[p].Kids();
      HolderInside(d, ps[r], t.kids[r], key);
      OnceKid(t, r, q);
      UpdatedRepr(d, ps[r], t.kids[r], key, i, val, v);
      forall j | 0 <= j < |t.kids| && j != r ensures Repr(d', ps[j], t.kids[j]) {
        ReprFrame(d, d', ps[j], t.kids[j]);
      }
    }
  }

  /** ... and the search finds the new slot under the key, and under every other
      key what it found before. */
  lemma {:induction false} RewrittenFinds(d: map<int, Table>, p: int, t: T, q: int, v: Table, key: Key, i: int, val: int, k: Key)
    requires Repr(d, p, t) && q in d && Rewrites(d[q], v, key, i, val) && k != key
    ensures FindSlot(d[q := v], t, k) == FindSlot(d, t, k)
    decreases t
  {
    if t.Node? {
      var r := Rank(t.items, k);
      if r < |t.items| && t.items[r].key == k {
        assert d[t.off].Keys()[r].key == d[t.off].slots[r].quid;
      } else {
        RewrittenFinds(d, d[p].Kids()[r], t.kids[r], q, v, key, i, val, k);
      }
    }
  }

  lemma {:induction false} RewrittenFound(d: map<int, Table>, p: int, t: T, v: Table, key: Key, i: int, val: int)
    requires Repr(d, p, t) && FindSlot(d, t, key).Hit? && Sorted(InOrder(t))
    requires Holder(t, key) in d && Rewrites(d[Holder(t, key)], v, key, i, val)
    ensures FindSlot(d[Holder(t, key) := v], t, key) == Hit(v.slots[i])
    decreases t
  {
    SortedNode(t.items, t.kids);
    var r := Rank(t.items, key);
    if r < |t.items| && t.items[r].key == key {
      assert d[p].Keys()[i].key == key;
      RankStopsBefore(t.items, key, i);
    } else {
      RewrittenFound(d, d[p].Kids()[r], t.kids[r], v, key, i, val);
    }
  }

  /** Writing the old offset back is no change. */
  lemma {:induction false} UpdatedSame(d: map<int, Table>, p: int, t: T, key: Key, val: int)
    requires Repr(d, p, t) && FindSlot(d, t, key).Hit? && FindSlot(d, t, key).slot.offset == val
    ensures Updated(t, key, val) == t
    decreases t
  {
    var r := Rank(t.items, key);
    if r < |t.items| && t.items[r].key == key {
      assert d[p].Keys()[r] == t.items[r];
    } else {
      UpdatedSame(d, d[p].Kids()[r], t.kids[r], key, val);
    }
  }

  /** Searches go where the keys lead, whatever the offsets. */
  lemma {:induction false} UpdatedFinds(d: map<int, Table>, t: T, key: Key, val: int, k: Key)
    ensures FindSlot(d, Updated(t, key, val), k) == FindSlot(d, t, k)
    decreases t
  {
    if t.Node? {
      var t', i, r := Updated(t, key, val), Rank(t.items, k), Rank(t.items, key);
      SameRank(t.items, t'.items, k);
      if i < |t.kids| {
        UpdatedFinds(d, t.kids[i], key, val, k);
      }
    }
  }

  lemma {:induction false} SameRank(s: seq<I>, s': seq<I>, k: Key)
    requires |s| == |s'| && forall i | 0 <= i < |s| :: s'[i].key == s[i].key
    ensures Rank(s', k) == Rank(s, k)
    decreases |s|
  {
    if s != [] {
      SameRank(s[1..], s'[1..], k);
    }
  }
}
