/**
 * How the tables on disk represent a search tree, and the shape invariant of
 * the key engine: no table is empty or overfull, but leaves need not be at one
 * depth.
 */
module EngineSpec {
  import opened Order
  import opened SearchTree
  import opened EngineTable

  type T = Tree<int>

  type I = Item<int>

  /** The most keys a table holds between operations: at 127 it is split. */
  const MAX_KEYS := TABLE_SIZE - 2

  // ----- representation -----

  ghost predicate Repr(disk: map<int, Table>, p: int, t: T)
    decreases t, 0
  {
    match t
    case Nil => p == 0
    case Node(off, items, kids) =>
      && p == off && 0 < off && off in disk && disk[off].Ok()
      && |kids| == |items| + 1
      && disk[off].Keys() == items
      && ReprKids(disk, disk[off].Kids(), kids)
  }

  ghost predicate ReprKids(disk: map<int, Table>, ps: seq<int>, kids: seq<T>)
    decreases kids, 1
  {
    |ps| == |kids| && forall i | 0 <= i < |kids| :: Repr(disk, ps[i], kids[i])
  }

  ghost predicate SameOn(d: map<int, Table>, d': map<int, Table>, offs: multiset<int>) {
    forall o | o in offs && o in d :: o in d' && d'[o] == d[o]
  }

  lemma {:induction false} ReprFrame(d: map<int, Table>, d': map<int, Table>, p: int, t: T)
    requires Repr(d, p, t) && SameOn(d, d', Offs(t))
    ensures Repr(d', p, t)
    decreases t, 0
  {
    if t.Node? {
      ReprKidsFrame(d, d', d[p].Kids(), t.kids);
      assert t.off in Offs(t);
    }
  }

  lemma {:induction false} ReprKidsFrame(d: map<int, Table>, d': map<int, Table>, ps: seq<int>, kids: seq<T>)
    requires ReprKids(d, ps, kids) && SameOn(d, d', KidsOffs(kids))
    ensures ReprKids(d', ps, kids)
    decreases kids, 1
  {
    forall i | 0 <= i < |kids| ensures Repr(d', ps[i], kids[i]) {
      KidsOffsAt(kids, i);
      ReprFrame(d, d', ps[i], kids[i]);
    }
  }

  /** The free list threaded through the first child of the freed tables. */
  ghost predicate FreeChain(disk: map<int, Table>, head: int, fl: seq<int>)
    decreases fl
  {
    if fl == [] then head == 0
    else head == fl[0] && 0 < head && head in disk && disk[head].Ok() && FreeChain(disk, disk[head].slots[0].child, fl[1..])
  }

  lemma {:induction false} FreeChainFrame(d: map<int, Table>, d': map<int, Table>, head: int, fl: seq<int>)
    requires FreeChain(d, head, fl) && SameOn(d, d', multiset(fl))
    ensures FreeChain(d', head, fl)
    decreases fl
  {
    if fl != [] {
      assert fl == [fl[0]] + fl[1..];
      assert head in multiset(fl);
      FreeChainFrame(d, d', d[head].slots[0].child, fl[1..]);
    }
  }

  // ----- shape -----

  /** At most h tables deep; the top table holds lo to hi keys and every other
      table between one key and MAX_KEYS. */
  ghost predicate Shape(t: T, h: nat, lo: int, hi: int)
    decreases t
  {
    t.Node? ==>
      && 0 < h && lo <= |t.items| <= hi && |t.kids| == |t.items| + 1
      && forall i | 0 <= i < |t.kids| :: Shape(t.kids[i], h - 1, 1, MAX_KEYS)
  }

  lemma {:induction false} ShapeMonotone(t: T, h: nat, lo: int, hi: int, h': nat, lo': int, hi': int)
    requires Shape(t, h, lo, hi) && h <= h' && lo' <= lo && hi <= hi'
    ensures Shape(t, h', lo', hi')
    decreases t
  {
    if t.Node? {
      forall i | 0 <= i < |t.kids| ensures Shape(t.kids[i], h' - 1, 1, MAX_KEYS) {
        ShapeMonotone(t.kids[i], h - 1, 1, MAX_KEYS, h' - 1, 1, MAX_KEYS);
      }
    }
  }

  lemma NilRepr(disk: map<int, Table>, h: nat)
    ensures Repr(disk, 0, Nil) && Offs<int>(Nil) == multiset{} && InOrder<int>(Nil) == [] && Shape(Nil, h, 1, MAX_KEYS)
  {
  }

  /** What a well-shaped subtree says about its top table on disk. */
  lemma NodeFacts(disk: map<int, Table>, p: int, t: T, h: nat, lo: int, hi: int)
    requires Repr(disk, p, t) && Shape(t, h, lo, hi)
    ensures p == 0 <==> t == Nil
    ensures p != 0 ==>
      && t.Node? && t.off == p && 0 < p && p in disk && disk[p].Ok() && disk[p].Keys() == t.items
      && lo <= |t.items| <= hi && |t.kids| == |t.items| + 1 && 0 < h
      && ReprKids(disk, disk[p].Kids(), t.kids)
      && Offs(t) == multiset{p} + KidsOffs(t.kids)
  {
  }

  lemma KidFacts(disk: map<int, Table>, ps: seq<int>, t: T, h: nat, lo: int, hi: int, i: nat)
    requires t.Node? && ReprKids(disk, ps, t.kids) && Shape(t, h, lo, hi) && i < |t.kids|
    ensures 0 < h && |ps| == |t.kids| == |t.items| + 1 && Shape(t.kids[i], h - 1, 1, MAX_KEYS)
    ensures Repr(disk, ps[i], t.kids[i])
    ensures ps[i] == 0 <==> t.kids[i] == Nil
    ensures multiset{t.off} + KidsOffs(t.kids) == Offs(t.kids[i]) + Siblings(t, i)
  {
    SiblingsAndKid(t, i, t.kids[i]);
  }

  /** Back from work on child i: the child may have moved, the others are where
      they were, and the store is accounted for again. */
  lemma StepBack(d: map<int, Table>, d': map<int, Table>, ps: seq<int>, t: T, i: nat, p: int, kid: T, more: multiset<int>,
                 fl: seq<int>, rest: multiset<int>)
    requires t.Node? && ReprKids(d, ps, t.kids) && i < |t.kids| && t.off in d
    requires SameOn(d, d', rest + Siblings(t, i)) && Repr(d', p, kid)
    requires multiset(d'.Keys) == Offs(kid) + more + (rest + Siblings(t, i)) + multiset(fl)
    ensures SameOn(d, d', rest) && t.off in d' && d'[t.off] == d[t.off]
    ensures ReprKids(d', ps[i := p], t.kids[i := kid])
    ensures multiset(d'.Keys) == multiset{t.off} + KidsOffs(t.kids[i := kid]) + more + rest + multiset(fl)
  {
    SiblingsAndKid(t, i, kid);
    SiblingsBack(d, d', ps, t, i, p, kid, rest);
    assert t.off in Siblings(t, i);
    hide Repr, ReprKids, Siblings, Offs, KidsOffs;
  }

  lemma SiblingsBack(d: map<int, Table>, d': map<int, Table>, ps: seq<int>, t: T, i: nat, p: int, kid: T, rest: multiset<int>)
    requires t.Node? && ReprKids(d, ps, t.kids) && i < |t.kids|
    requires SameOn(d, d', rest + Siblings(t, i)) && Repr(d', p, kid)
    ensures ReprKids(d', ps[i := p], t.kids[i := kid])
  {
    forall j | 0 <= j < |t.kids| && j != i ensures Repr(d', ps[j], t.kids[j]) {
      hide Siblings, Offs;
      SiblingOffs(t, i, j);
      ReprFrame(d, d', ps[j], t.kids[j]);
    }
  }

  /** A table written over its old contents, apart from its children. */
  lemma TableWritten(d: map<int, Table>, t: T, v: Table)
    requires t.Node? && t.off in d && 0 < t.off && v.Ok() && v.Keys() == t.items && |t.kids| == |t.items| + 1
    requires ReprKids(d, v.Kids(), t.kids) && t.off !in KidsOffs(t.kids)
    ensures Repr(d[t.off := v], t.off, t) && Offs(t) == multiset{t.off} + KidsOffs(t.kids)
  {
    ReprKidsFrame(d, d[t.off := v], v.Kids(), t.kids);
  }

  // ----- the slot a lookup ends at -----

  datatype Probe = Missing | Hit(slot: Slot)

  /** The slot that the search for `key` down from t finds. */
  ghost function FindSlot(disk: map<int, Table>, t: T, key: Key): Probe
    decreases t
  {
    if t.Nil? then Missing
    else
      var i := Rank(t.items, key);
      if i < |t.items| && t.items[i].key == key then
        if t.off in disk && i < |disk[t.off].slots| then Hit(disk[t.off].slots[i]) else Missing
      else if i < |t.kids| then FindSlot(disk, t.kids[i], key)
      else Missing
  }

  ghost predicate Locked(disk: map<int, Table>, t: T, key: Key) {
    var p := FindSlot(disk, t, key);
    p.Hit? && (p.slot.meta.syslock || p.slot.meta.freeze)
  }

  /** The search down the tree finds exactly the keys the tree holds. */
  lemma {:induction false} FindSlotFinds(disk: map<int, Table>, p: int, t: T, key: Key)
    requires Repr(disk, p, t) && Sorted(InOrder(t))
    ensures FindSlot(disk, t, key).Hit? <==> Has(InOrder(t), key)
    ensures Has(InOrder(t), key) ==>
      FindSlot(disk, t, key).slot.quid == key && FindSlot(disk, t, key).slot.offset == Lookup(InOrder(t), key)
    decreases t
  {
    if t.Node? {
      SortedNode(t.items, t.kids);
      RankSplits(t.items, key);
      var i := Rank(t.items, key);
      if i < |t.items| && t.items[i].key == key {
        ItemAtRank(t, key, i);
        assert disk[t.off].Keys()[i] == t.items[i];
      } else {
        HasBelow(t, key, i);
        FindSlotFinds(disk, disk[p].Kids()[i], t.kids[i], key);
      }
    }
  }

  /** An item of the top table among all items. */
  lemma ItemAtRank(t: T, key: Key, i: nat)
    requires t.Node? && |t.kids| == |t.items| + 1 && i < |t.items| && t.items[i].key == key
    requires Sorted(InOrder(t))
    ensures Has(InOrder(t), key) && Lookup(InOrder(t), key) == t.items[i].val
    ensures Rank(InOrder(t), key) == |Flat(t.items[..i], t.kids[..i + 1])|
  {
    FlatCut(t.items, t.kids, i);
    var a, b := Flat(t.items[..i], t.kids[..i + 1]), Flat(t.items[i + 1..], t.kids[i + 1..]);
    SortedAround(a, t.items[i], b);
    HasAt(a, t.items[i], b);
    assert (a + [t.items[i]] + b)[|a|] == t.items[i];
    RankStopsBefore(InOrder(t), key, |a|);
  }
}
