/**
 * Which metadata the slots of the key engine keep, on values: a slot put into a
 * table is given the metadata of the key being inserted, also when its own key
 * has come up from a table that was split, and a key that takes the place of a
 * removed one takes over its metadata.
 */
module EngineMarks {
  import opened Order
  import opened SearchTree
  import opened EngineTable
  import opened EngineSpec
  import opened EngineTree

  /** Some slot below t holds key k with metadata m. */
  ghost predicate Marked(d: map<int, Table>, t: T, k: Key, m: Meta)
    decreases t, 0
  {
    t.Node? && t.off in d && MarkedUnder(d, d[t.off], t.kids, k, m)
  }

  /** ... or some slot of a table with these children. */
  ghost predicate MarkedUnder(d: map<int, Table>, v: Table, kids: seq<T>, k: Key, m: Meta)
    decreases kids, 1
  {
    v.Ok() && ((k, m) in v.Marks() || exists i | 0 <= i < |kids| :: Marked(d, kids[i], k, m))
  }

  lemma {:induction false} MarkedFrame(d: map<int, Table>, d': map<int, Table>, p: int, t: T, k: Key, m: Meta)
    requires Repr(d, p, t) && SameOn(d, d', Offs(t)) && Marked(d, t, k, m)
    ensures Marked(d', t, k, m)
    decreases t, 0
  {
    assert t.off in Offs(t);
    MarkedKidsFrame(d, d', d[p], d[p].Kids(), t.kids, k, m);
  }

  lemma {:induction false} MarkedKidsFrame(d: map<int, Table>, d': map<int, Table>, v: Table, ps: seq<int>, kids: seq<T>, k: Key, m: Meta)
    requires ReprKids(d, ps, kids) && SameOn(d, d', KidsOffs(kids)) && MarkedUnder(d, v, kids, k, m)
    ensures MarkedUnder(d', v, kids, k, m)
    decreases kids, 1
  {
    if (k, m) !in v.Marks() {
      var i :| 0 <= i < |kids| && Marked(d, kids[i], k, m);
      KidsOffsAt(kids, i);
      MarkedFrame(d, d', ps[i], kids[i], k, m);
    }
  }

  // ----- where the search ends -----

  lemma {:induction false} FoundMarked(d: map<int, Table>, p: int, t: T, k: Key)
    requires Repr(d, p, t) && FindSlot(d, t, k).Hit?
    ensures Marked(d, t, k, FindSlot(d, t, k).slot.meta)
    decreases t
  {
    var i := Rank(t.items, k);
    if i < |t.items| && t.items[i].key == k {
      assert d[p].Keys()[i].key == k;
      assert d[p].Marks()[i] == (k, d[p].slots[i].meta);
    } else {
      FoundMarked(d, d[p].Kids()[i], t.kids[i], k);
    }
  }

  /** The search for a key that is marked ends at its mark. */
  lemma {:induction false} MarkedFound(d: map<int, Table>, p: int, t: T, k: Key, m: Meta)
    requires Repr(d, p, t) && Sorted(InOrder(t)) && Marked(d, t, k, m)
    ensures FindSlot(d, t, k).Hit? && FindSlot(d, t, k).slot.meta == m
    decreases t
  {
    SortedNode(t.items, t.kids);
    if (k, m) in d[p].Marks() {
      var i :| 0 <= i < d[p].size && d[p].Marks()[i] == (k, m);
      assert d[p].Keys()[i].key == k;
      RankStopsBefore(t.items, k, i);
    } else {
      var j :| 0 <= j < |t.kids| && Marked(d, t.kids[j], k, m);
      MarkedFound(d, d[p].Kids()[j], t.kids[j], k, m);
      FindSlotFinds(d, d[p].Kids()[j], t.kids[j], k);
      OnlyKid(t, j, k);
    }
  }

  /** Only the child at the lower bound holds a key that the table does not. */
  lemma OnlyKid(t: T, j: nat, k: Key)
    requires t.Node? && |t.kids| == |t.items| + 1 && j < |t.kids| && Sorted(InOrder(t)) && Has(InOrder(t.kids[j]), k)
    ensures Rank(t.items, k) == j && (j < |t.items| ==> t.items[j].key != k)
  {
    forall n | 0 <= n < |t.items|
      ensures n < j ==> Less(t.items[n].key, k)
      ensures j <= n ==> Less(k, t.items[n].key)
    {
      BesideKid(t, j, n, k);
    }
    LessIsStrictTotalOrder();
    assert IsLowerBound(t.items, k, j);
    LowerBoundIsRank(t.items, k, j);
  }

  lemma BesideKid(t: T, j: nat, n: nat, k: Key)
    requires t.Node? && |t.kids| == |t.items| + 1 && j < |t.kids| && n < |t.items| && Sorted(InOrder(t)) && Has(InOrder(t.kids[j]), k)
    ensures if n < j then Less(t.items[n].key, k) else Less(k, t.items[n].key)
  {
    FlatCut(t.items, t.kids, n);
    var l, r := LeftOf(t, n), RightOf(t, n);
    SortedAround(l, t.items[n], r);
    if n < j {
      InFlat(t.items[n + 1..], t.kids[n + 1..], j - n - 1, k);
    } else {
      InFlat(t.items[..n], t.kids[..n + 1], j, k);
    }
  }

  lemma InFlat(items: seq<I>, kids: seq<T>, j: nat, k: Key)
    requires |kids| == |items| + 1 && j < |kids| && Has(InOrder(kids[j]), k)
    ensures exists i | 0 <= i < |Flat(items, kids)| :: Flat(items, kids)[i].key == k
  {
    FlatAt(items, kids, j);
    var b, m, a := Before(items, kids, j), InOrder(kids[j]), After(items, kids, j);
    hide Flat, Before, After;
    var i := |b| + Rank(m, k);
    assert (b + m + a)[i] == m[Rank(m, k)];
  }

  // ----- insertion -----

  /** Slots keep their metadata, but those of the keys in `up` get m0. */
  ghost predicate MarksStep(d: map<int, Table>, t: T, d': map<int, Table>, t': T, up: set<Key>, m0: Meta) {
    && (forall k, m | Marked(d, t, k, m) && k !in up :: Marked(d', t', k, m))
    && (forall k | k in up :: Marked(d', t', k, m0))
  }

  /** The key that goes up into the middle of a full table: x has come in at i. */
  function Middle(items: seq<I>, i: nat, x: Key): Key
    requires |items| == MAX_KEYS
  {
    if i == PIVOT then x else if i < PIVOT then items[PIVOT - 1].key else items[PIVOT].key
  }

  /** Which key inserting quid hands up out of t, if any: an empty place hands up
      quid itself, a table that had MAX_KEYS keys before it took one in its
      middle one. */
  function HandedUp(t: T, quid: Key): seq<Key>
    decreases t
  {
    if t.Nil? then [quid]
    else
      var i := Rank(t.items, quid);
      if (i < |t.items| && t.items[i].key == quid) || |t.kids| != |t.items| + 1 then []
      else
        var s := HandedUp(t.kids[i], quid);
        if s == [] || |t.items| != MAX_KEYS then [] else [Middle(t.items, i, s[0])]
  }

  /** The keys that the tables of t hand up, one to the next. */
  function Raised(t: T, quid: Key): set<Key>
    decreases t
  {
    RaisedBelow(t, quid) + set k | k in HandedUp(t, quid)
  }

  function RaisedBelow(t: T, quid: Key): set<Key>
    decreases t, 0
  {
    if t.Nil? then {}
    else
      var i := Rank(t.items, quid);
      if (i < |t.items| && t.items[i].key == quid) || |t.kids| != |t.items| + 1 then {}
      else Raised(t.kids[i], quid)
  }

  /** What insert_table has done to the metadata below t. */
  ghost predicate InsertMarks(d: map<int, Table>, t: T, d': map<int, Table>, t': T, quid: Key, exists_: bool, m0: Meta) {
    if exists_ then d' == d
    else
      && t'.Node? && MarksStep(d, t, d', t', RaisedBelow(t, quid), m0)
      && HandedUp(t, quid) == if |t'.items| == MAX_KEYS + 1 then [t'.items[PIVOT].key] else []
  }

  lemma StepOn(d: map<int, Table>, t: T, d1: map<int, Table>, t1: T, up: set<Key>, d2: map<int, Table>, t2: T, up': set<Key>, m0: Meta)
    requires MarksStep(d, t, d1, t1, up, m0) && MarksStep(d1, t1, d2, t2, up', m0)
    ensures MarksStep(d, t, d2, t2, up + up', m0)
  {
    hide Marked;
  }

  /** Marks of a table with one child changed. */
  lemma MarkBeside(d: map<int, Table>, d': map<int, Table>, v: Table, ps: seq<int>, t: T, i: nat, l: T, k: Key, m: Meta)
    requires t.Node? && i < |t.kids| && ReprKids(d, ps, t.kids) && SameOn(d, d', Siblings(t, i)) && MarkedUnder(d, v, t.kids, k, m)
    ensures Marked(d, t.kids[i], k, m) || MarkedUnder(d', v, t.kids[i := l], k, m)
  {
    if (k, m) !in v.Marks() {
      var j :| 0 <= j < |t.kids| && Marked(d, t.kids[j], k, m);
      if j != i {
        SiblingOffs(t, i, j);
        hide Siblings, Offs;
        MarkedFrame(d, d', ps[j], t.kids[j], k, m);
        assert t.kids[i := l][j] == t.kids[j];
      }
    }
  }

  lemma MarkInKid(d: map<int, Table>, v: Table, kids: seq<T>, i: nat, k: Key, m: Meta)
    requires v.Ok() && i < |kids| && Marked(d, kids[i], k, m)
    ensures MarkedUnder(d, v, kids, k, m)
  {
  }

  /** Back from the recursion into child i. */
  lemma KidStep(d: map<int, Table>, d': map<int, Table>, t: T, i: nat, kid: T, up: set<Key>, m0: Meta)
    requires t.Node? && i < |t.kids| && t.off in d && d[t.off].Ok() && ReprKids(d, d[t.off].Kids(), t.kids)
    requires SameOn(d, d', Siblings(t, i)) && t.off in d' && d'[t.off] == d[t.off]
    requires MarksStep(d, t.kids[i], d', kid, up, m0)
    ensures MarksStep(d, t, d', Node(t.off, t.items, t.kids[i := kid]), up, m0)
  {
    var v, t' := d[t.off], Node(t.off, t.items, t.kids[i := kid]);
    forall k, m | Marked(d, t, k, m) && k !in up ensures Marked(d', t', k, m) {
      MarkBeside(d, d', v, v.Kids(), t, i, kid, k, m);
      hide Siblings, Repr, ReprKids, SameOn, Marked;
      if Marked(d, t.kids[i], k, m) {
        MarkInKid(d', v, t'.kids, i, k, m);
      }
      MarkAtTop(d', t', v, k, m);
    }
    forall k | k in up ensures Marked(d', t', k, m0) {
      hide Siblings, Repr, ReprKids, SameOn, Marked;
      MarkInKid(d', v, t'.kids, i, k, m0);
      MarkAtTop(d', t', v, k, m0);
    }
  }

  lemma MarkAtTop(d: map<int, Table>, t: T, v: Table, k: Key, m: Meta)
    requires t.Node? && t.off in d && d[t.off] == v
    ensures MarkedUnder(d, v, t.kids, k, m) <==> Marked(d, t, k, m)
  {
  }

  /** What putting x and the child right of it into a table v has done. */
  ghost predicate MarksTaken(d: map<int, Table>, v: Table, kids: seq<T>, r: T, d': map<int, Table>, t': T, x: Key, m0: Meta) {
    && (forall k, m | MarkedUnder(d, v, kids, k, m) :: Marked(d', t', k, m))
    && (forall k, m | Marked(d, r, k, m) :: Marked(d', t', k, m))
    && Marked(d', t', x, m0)
  }

  lemma TakenIs(d: map<int, Table>, v: Table, ps: seq<int>, t: T, i: nat, l: T, x: I, q: int, r: T, v': Table, m0: Meta)
    requires t.Node? && |t.kids| == |t.items| + 1 && i <= |t.items| && v.Ok() && v'.Ok() && v.size == |t.items|
    requires ReprKids(d, ps, t.kids[i := l]) && Repr(d, q, r)
    requires t.off !in KidsOffs(t.kids[i := l]) && t.off !in Offs(r)
    requires v'.Marks() == v.Marks()[..i] + [(x.key, m0)] + v.Marks()[i..]
    ensures MarksTaken(d, v, t.kids[i := l], r, d[t.off := v'], Grown(t, i, l, x, r), x.key, m0)
  {
    var d', ks, t' := d[t.off := v'], t.kids[i := l], Grown(t, i, l, x, r);
    assert v'.Marks()[i] == (x.key, m0) && t'.off == t.off;
    assert MarkedUnder(d', v', t'.kids, x.key, m0);
    MarkAtTop(d', t', v', x.key, m0);
    forall k, m | MarkedUnder(d, v, ks, k, m) ensures Marked(d', t', k, m) {
      MarkedKidsFrame(d, d', v, ps, ks, k, m);
      hide Repr, ReprKids, Offs, KidsOffs;
      MarkGrown(d', v, t, i, l, x, r, v', k, m, m0);
      MarkAtTop(d', t', v', k, m);
    }
    forall k, m | Marked(d, r, k, m) ensures Marked(d', t', k, m) {
      MarkedFrame(d, d', q, r, k, m);
      MarkInKid(d', v', t'.kids, i + 1, k, m);
      MarkAtTop(d', t', v', k, m);
    }
  }

  lemma MarkGrown(d: map<int, Table>, v: Table, t: T, i: nat, l: T, x: I, r: T, v': Table, k: Key, m: Meta, m0: Meta)
    requires t.Node? && |t.kids| == |t.items| + 1 && i <= |t.items| && v.Ok() && v'.Ok() && v.size == |t.items|
    requires v'.Marks() == v.Marks()[..i] + [(x.key, m0)] + v.Marks()[i..]
    requires MarkedUnder(d, v, t.kids[i := l], k, m)
    ensures MarkedUnder(d, v', Grown(t, i, l, x, r).kids, k, m)
  {
    var ks, ks' := t.kids[i := l], Grown(t, i, l, x, r).kids;
    if (k, m) in v.Marks() {
      var n :| 0 <= n < |v.Marks()| && v.Marks()[n] == (k, m);
      assert v'.Marks()[if n < i then n else n + 1] == (k, m);
    } else {
      var j :| 0 <= j < |ks| && Marked(d, ks[j], k, m);
      assert ks'[if j <= i then j else j + 1] == ks[j];
    }
  }

  /** What splitting t has done: only the slot of the pivot is gone. */
  ghost predicate MarksSplit(d: map<int, Table>, t: T, d': map<int, Table>, l: T, r: T, pivot: Key) {
    forall k, m | Marked(d, t, k, m) && k != pivot :: Marked(d', l, k, m) || Marked(d', r, k, m)
  }

  lemma SplitIs(d: map<int, Table>, d1: map<int, Table>, t: T, right: int, lv: Table, rv: Table)
    requires t.Node? && |t.items| == TABLE_SIZE - 1 && |t.kids| == TABLE_SIZE && Repr(d, t.off, t)
    requires SameOn(d, d1, KidsOffs(t.kids)) && right != t.off
    requires right !in KidsOffs(t.kids) && t.off !in KidsOffs(t.kids)
    requires lv.Ok() && rv.Ok() && lv.Marks() == d[t.off].Marks()[..PIVOT] && rv.Marks() == d[t.off].Marks()[PIVOT + 1..]
    ensures MarksSplit(d, t, d1[right := rv][t.off := lv], LowerHalf(t), UpperHalf(t, right), t.items[PIVOT].key)
  {
    var v, d', l, r := d[t.off], d1[right := rv][t.off := lv], LowerHalf(t), UpperHalf(t, right);
    forall k, m | Marked(d, t, k, m) && k != t.items[PIVOT].key ensures Marked(d', l, k, m) || Marked(d', r, k, m) {
      assert v.Keys()[PIVOT].key == v.Marks()[PIVOT].0;
      if (k, m) !in v.Marks() {
        MarkedKidsFrame(d, d', v, v.Kids(), t.kids, k, m);
      }
      hide Repr, ReprKids, SameOn, KidsOffs;
      MarkInHalf(d', v, t, right, lv, rv, k, m);
      MarkAtTop(d', l, lv, k, m);
      MarkAtTop(d', r, rv, k, m);
    }
  }

  lemma MarkInHalf(d: map<int, Table>, v: Table, t: T, right: int, lv: Table, rv: Table, k: Key, m: Meta)
    requires t.Node? && |t.items| == TABLE_SIZE - 1 && |t.kids| == TABLE_SIZE && v.Ok() && v.size == |t.items|
    requires lv.Ok() && rv.Ok() && lv.Marks() == v.Marks()[..PIVOT] && rv.Marks() == v.Marks()[PIVOT + 1..]
    requires MarkedUnder(d, v, t.kids, k, m) && k != v.Marks()[PIVOT].0
    ensures MarkedUnder(d, lv, LowerHalf(t).kids, k, m) || MarkedUnder(d, rv, UpperHalf(t, right).kids, k, m)
  {
    if (k, m) in v.Marks() {
      var n :| 0 <= n < |v.Marks()| && v.Marks()[n] == (k, m);
      if n < PIVOT {
        assert lv.Marks()[n] == (k, m);
      } else {
        assert rv.Marks()[n - PIVOT - 1] == (k, m);
      }
    } else {
      var j :| 0 <= j < |t.kids| && Marked(d, t.kids[j], k, m);
      if j <= PIVOT {
        MarkInKid(d, lv, LowerHalf(t).kids, j, k, m);
      } else {
        MarkInKid(d, rv, UpperHalf(t, right).kids, j - PIVOT - 1, k, m);
      }
    }
  }

  /** A child split, and its pivot taken in. */
  lemma SplitStep(d: map<int, Table>, t: T, i: nat, kid: T, d1: map<int, Table>, l: T, x: Key, r: T, d2: map<int, Table>, t': T, m0: Meta)
    requires t.Node? && i < |t.kids| && t.off in d && d[t.off].Ok() && ReprKids(d, d[t.off].Kids(), t.kids) && t.kids[i] == kid
    requires SameOn(d, d1, Siblings(t, i))
    requires MarksSplit(d, kid, d1, l, r, x) && MarksTaken(d1, d[t.off], t.kids[i := l], r, d2, t', x, m0)
    ensures MarksStep(d, t, d2, t', {x}, m0)
  {
    var v := d[t.off];
    forall k, m | Marked(d, t, k, m) && k !in {x} ensures Marked(d2, t', k, m) {
      MarkAtTop(d, t, v, k, m);
      MarkBeside(d, d1, v, v.Kids(), t, i, l, k, m);
      hide Marked, Repr, ReprKids, SameOn, Siblings;
      if Marked(d, kid, k, m) && Marked(d1, l, k, m) {
        MarkInKid(d1, v, t.kids[i := l], i, k, m);
      }
    }
  }

  /** A key put where there is no child. */
  lemma LeafStep(d: map<int, Table>, t: T, i: nat, d': map<int, Table>, t': T, quid: Key, m0: Meta)
    requires t.Node? && i < |t.kids| && t.kids[i] == Nil && t.off in d
    requires MarksTaken(d, d[t.off], t.kids, Nil, d', t', quid, m0)
    ensures MarksStep(d, t, d', t', {quid}, m0)
  {
    forall k, m | Marked(d, t, k, m) && k !in {quid} ensures Marked(d', t', k, m) {
      MarkAtTop(d, t, d[t.off], k, m);
      hide Marked, MarkedUnder;
    }
  }

  /** What insert_table does about child i after the recursion: nothing, or it
      takes in the middle key of a child that is full. */
  ghost predicate ChildTaken(d: map<int, Table>, t: T, i: nat, kid: T, d': map<int, Table>, t': T, m0: Meta)
    requires t.Node? && kid.Node? && i < |t.kids| && i <= |t.items|
  {
    var t1 := Node(t.off, t.items, t.kids[i := kid]);
    if |kid.items| <= MAX_KEYS then t' == t1 && d' == d
    else
      && t'.Node? && t'.items == t.items[..i] + [kid.items[PIVOT]] + t.items[i..]
      && MarksStep(d, t1, d', t', {kid.items[PIVOT].key}, m0)
  }

  lemma UnderMarks(d: map<int, Table>, t: T, i: nat, quid: Key, exists_: bool, d1: map<int, Table>, kid: T,
                   d2: map<int, Table>, t': T, m0: Meta)
    requires t.Node? && |t.kids| == |t.items| + 1 && i <= |t.items| <= MAX_KEYS
    requires IsLowerBound(t.items, quid, i) && (i < |t.items| ==> t.items[i].key != quid)
    requires t.off in d && d[t.off].Ok() && ReprKids(d, d[t.off].Kids(), t.kids)
    requires SameOn(d, d1, Siblings(t, i)) && t.off in d1 && d1[t.off] == d[t.off]
    requires kid.Node? && InsertMarks(d, t.kids[i], d1, kid, quid, exists_, m0)
    requires |kid.items| <= MAX_KEYS + 1 && (exists_ ==> kid == t.kids[i] && |kid.items| <= MAX_KEYS)
    requires ChildTaken(d1, t, i, kid, d2, t', m0)
    ensures InsertMarks(d, t, d2, t', quid, exists_, m0)
  {
    hide Repr, ReprKids, Marked, MarkedUnder, MarksStep, Siblings, SameOn, IsLowerBound;
    if !exists_ {
      LowerBoundIsRank(t.items, quid, i);
      var t1, up := Node(t.off, t.items, t.kids[i := kid]), RaisedBelow(t.kids[i], quid);
      KidStep(d, d1, t, i, kid, up, m0);
      HandedOn(t, i, quid, kid, t'.items);
      if |kid.items| > MAX_KEYS {
        StepOn(d, t, d1, t1, up, d2, t', {kid.items[PIVOT].key}, m0);
      } else {
        assert RaisedBelow(t, quid) == up;
      }
    }
  }

  lemma HandedOn(t: T, i: nat, quid: Key, kid: T, items: seq<I>)
    requires t.Node? && |t.kids| == |t.items| + 1 && i == Rank(t.items, quid) <= |t.items| <= MAX_KEYS
    requires (i < |t.items| ==> t.items[i].key != quid) && kid.Node? && |kid.items| <= MAX_KEYS + 1
    requires HandedUp(t.kids[i], quid) == if |kid.items| == MAX_KEYS + 1 then [kid.items[PIVOT].key] else []
    requires items == if |kid.items| <= MAX_KEYS then t.items else t.items[..i] + [kid.items[PIVOT]] + t.items[i..]
    ensures HandedUp(t, quid) == if |items| == MAX_KEYS + 1 then [items[PIVOT].key] else []
    ensures RaisedBelow(t, quid)
         == RaisedBelow(t.kids[i], quid) + if |kid.items| == MAX_KEYS + 1 then {kid.items[PIVOT].key} else {}
  {
  }

  lemma LeafMarks(d: map<int, Table>, t: T, i: nat, quid: Key, x: I, d': map<int, Table>, t': T, m0: Meta)
    requires t.Node? && |t.kids| == |t.items| + 1 && i <= |t.items| <= MAX_KEYS && t.kids[i] == Nil && t.off in d
    requires IsLowerBound(t.items, quid, i) && (i < |t.items| ==> t.items[i].key != quid) && x.key == quid
    requires MarksTaken(d, d[t.off], t.kids, Nil, d', t', quid, m0)
    requires t'.Node? && t'.items == t.items[..i] + [x] + t.items[i..]
    ensures InsertMarks(d, t, d', t', quid, false, m0)
  {
    LowerBoundIsRank(t.items, quid, i);
    LeafStep(d, t, i, d', t', quid, m0);
    hide Marked, MarkedUnder, MarksStep, MarksTaken, IsLowerBound;
    assert HandedUp(t.kids[i], quid) == [quid] && RaisedBelow(t.kids[i], quid) == {};
    assert RaisedBelow(t, quid) == {quid};
    assert |t.items| == MAX_KEYS ==> t'.items[PIVOT].key == Middle(t.items, i, quid);
  }

  // ----- the top table -----

  /** What a new top table over l and r, with the key x, has done. */
  ghost predicate MarksTopped(d: map<int, Table>, l: T, r: T, d': map<int, Table>, t': T, x: Key, m0: Meta) {
    && (forall k, m | Marked(d, l, k, m) :: Marked(d', t', k, m))
    && (forall k, m | Marked(d, r, k, m) :: Marked(d', t', k, m))
    && Marked(d', t', x, m0)
  }

  lemma ToppedIs(d: map<int, Table>, d1: map<int, Table>, p: int, l: T, q: int, r: T, off: int, x: I, v: Table, m0: Meta)
    requires Repr(d, p, l) && Repr(d, q, r) && SameOn(d, d1, Offs(l) + Offs(r)) && off !in Offs(l) && off !in Offs(r)
    requires v.Ok() && v.Marks() == [(x.key, m0)]
    ensures MarksTopped(d, l, r, d1[off := v], Node(off, [x], [l, r]), x.key, m0)
  {
    var d', t' := d1[off := v], Node(off, [x], [l, r]);
    assert v.Marks()[0] == (x.key, m0);
    assert MarkedUnder(d', v, t'.kids, x.key, m0);
    MarkAtTop(d', t', v, x.key, m0);
    forall k, m | Marked(d, l, k, m) ensures Marked(d', t', k, m) {
      MarkedFrame(d, d', p, l, k, m);
      MarkInKid(d', v, t'.kids, 0, k, m);
    }
    forall k, m | Marked(d, r, k, m) ensures Marked(d', t', k, m) {
      MarkedFrame(d, d', q, r, k, m);
      MarkInKid(d', v, t'.kids, 1, k, m);
    }
  }

  lemma SplitTopStep(d: map<int, Table>, t: T, d1: map<int, Table>, l: T, x: Key, r: T, d2: map<int, Table>, t': T, m0: Meta)
    requires MarksSplit(d, t, d1, l, r, x) && MarksTopped(d1, l, r, d2, t', x, m0)
    ensures MarksStep(d, t, d2, t', {x}, m0)
  {
    hide Marked;
  }

  /** What insert_toplevel does about the top table after the recursion. */
  ghost predicate TopTaken(d: map<int, Table>, t: T, d': map<int, Table>, t': T, m0: Meta)
    requires t.Node?
  {
    if |t.items| <= MAX_KEYS then t' == t && d' == d
    else MarksStep(d, t, d', t', {t.items[PIVOT].key}, m0)
  }

  lemma TopMarks(d: map<int, Table>, t: T, d1: map<int, Table>, t1: T, d2: map<int, Table>, t': T, quid: Key, exists_: bool, m0: Meta)
    requires t1.Node? && InsertMarks(d, t, d1, t1, quid, exists_, m0) && TopTaken(d1, t1, d2, t', m0)
    requires |t1.items| <= MAX_KEYS + 1 && (exists_ ==> t1 == t && |t1.items| <= MAX_KEYS)
    ensures if exists_ then d2 == d && t' == t else MarksStep(d, t, d2, t', Raised(t, quid), m0)
  {
    hide Marked, MarkedUnder, MarksStep, RaisedBelow, HandedUp;
    if !exists_ && |t1.items| > MAX_KEYS {
      StepOn(d, t, d1, t1, RaisedBelow(t, quid), d2, t', {t1.items[PIVOT].key}, m0);
      assert Raised(t, quid) == RaisedBelow(t, quid) + {t1.items[PIVOT].key};
    } else if !exists_ {
      assert Raised(t, quid) == RaisedBelow(t, quid);
    }
  }

  // ----- what the searches find -----

  ghost function MetaOf(p: Probe): seq<Meta> {
    if p.Hit? then [p.slot.meta] else []
  }

  /** Of the keys, those in `up` now have the metadata m0, the others what they
      had. */
  ghost predicate Remarked(d: map<int, Table>, t: T, d': map<int, Table>, t': T, keys: set<Key>, up: set<Key>, m0: Meta) {
    forall k | k in keys :: MetaOf(FindSlot(d', t', k)) == if k in up then [m0] else MetaOf(FindSlot(d, t, k))
  }

  lemma StepFinds(d: map<int, Table>, p: int, t: T, d': map<int, Table>, p': int, t': T, up: set<Key>, m0: Meta, k: Key)
    requires Repr(d, p, t) && Repr(d', p', t') && Sorted(InOrder(t')) && MarksStep(d, t, d', t', up, m0)
    requires k in up || FindSlot(d, t, k).Hit?
    ensures MetaOf(FindSlot(d', t', k)) == if k in up then [m0] else MetaOf(FindSlot(d, t, k))
  {
    if k in up {
      MarkedFound(d', p', t', k, m0);
    } else {
      FoundMarked(d, p, t, k);
      MarkedFound(d', p', t', k, FindSlot(d, t, k).slot.meta);
    }
  }

  /** The key that is inserted is one of those that go up. */
  lemma {:induction false} QuidRaised(disk: map<int, Table>, p: int, t: T, quid: Key)
    requires Repr(disk, p, t) && !Has(InOrder(t), quid) && Sorted(InOrder(t))
    ensures quid in Raised(t, quid)
    decreases t
  {
    if t.Node? {
      var i := Rank(t.items, quid);
      if i < |t.items| && t.items[i].key == quid {
        ItemAtRank(t, quid, i);
      } else {
        SortedNode(t.items, t.kids);
        RankSplits(t.items, quid);
        HasBelow(t, quid, i);
        QuidRaised(disk, disk[p].Kids()[i], t.kids[i], quid);
      }
    }
  }

  /** No other key goes up where the search for quid ends in a table with room. */
  lemma RoomBelow(t: T, quid: Key)
    requires t.Node? && |t.kids| == |t.items| + 1 && |t.items| < MAX_KEYS
    requires var i := Rank(t.items, quid); t.kids[i] == Nil && (i < |t.items| ==> t.items[i].key != quid)
    ensures Raised(t, quid) == {quid}
  {
    var i := Rank(t.items, quid);
    assert HandedUp(t.kids[i], quid) == [quid] && Raised(t.kids[i], quid) == {quid};
  }

  /** A single full table hands up its middle key. */
  lemma FullTop(t: T, quid: Key)
    requires t.Node? && |t.kids| == |t.items| + 1 && |t.items| == MAX_KEYS
    requires var i := Rank(t.items, quid); t.kids[i] == Nil && (i < |t.items| ==> t.items[i].key != quid)
    ensures Raised(t, quid) == {quid, Middle(t.items, Rank(t.items, quid), quid)}
  {
    var i := Rank(t.items, quid);
    assert HandedUp(t.kids[i], quid) == [quid] && Raised(t.kids[i], quid) == {quid};
  }

  // ----- removal -----

  /** Every slot keeps its metadata, but those of the keys in `heirs` get m0, and
      that of g is gone. */
  ghost predicate UnderGone(d: map<int, Table>, v: Table, ks: seq<T>, d': map<int, Table>, v': Table, ks': seq<T>, g: Key, heirs: set<Key>, m0: Meta) {
    && (forall k, m | MarkedUnder(d, v, ks, k, m) && k != g && k !in heirs :: MarkedUnder(d', v', ks', k, m))
    && (forall k | k in heirs :: MarkedUnder(d', v', ks', k, m0))
  }

  ghost predicate MarksGone(d: map<int, Table>, t: T, d': map<int, Table>, t': T, g: Key, heirs: set<Key>, m0: Meta) {
    && (forall k, m | Marked(d, t, k, m) && k != g && k !in heirs :: Marked(d', t', k, m))
    && (forall k | k in heirs :: Marked(d', t', k, m0))
  }

  /** When no slot is taken over. */
  const NO_META := ZERO_SLOT.meta

  ghost predicate MarksKept(d: map<int, Table>, t: T, d': map<int, Table>, t': T) {
    forall k, m | Marked(d, t, k, m) :: Marked(d', t', k, m)
  }

  /** An emptied table made way for its only child. */
  lemma JoinedKept(d: map<int, Table>, d': map<int, Table>, p: int, t: T)
    requires Repr(d, p, t) && t.Node? && t.items == [] && |t.kids| == 1 && SameOn(d, d', Offs(t.kids[0]))
    ensures MarksKept(d, t, d', t.kids[0])
  {
    forall k, m | Marked(d, t, k, m) ensures Marked(d', t.kids[0], k, m) {
      assert |d[p].Keys()| == |d[p].Marks()| == 0;
      assert MarkedUnder(d, d[p], t.kids, k, m) && (k, m) !in d[p].Marks();
      var j :| 0 <= j < |t.kids| && Marked(d, t.kids[j], k, m);
      assert j == 0 && Repr(d, d[p].Kids()[j], t.kids[j]);
      MarkedFrame(d, d', d[p].Kids()[0], t.kids[0], k, m);
    }
  }

  lemma KeptSelf(d: map<int, Table>, t: T)
    ensures MarksKept(d, t, d, t)
  {
  }

  lemma GoneThenKept(d: map<int, Table>, t: T, d1: map<int, Table>, t1: T, d2: map<int, Table>, t2: T, g: Key, heirs: set<Key>, m0: Meta)
    requires MarksGone(d, t, d1, t1, g, heirs, m0) && MarksKept(d1, t1, d2, t2)
    ensures MarksGone(d, t, d2, t2, g, heirs, m0)
  {
    hide Marked;
  }

  lemma MarksOnly(d: map<int, Table>, v: Table, v': Table, kids: seq<T>, k: Key, m: Meta)
    requires v.Ok() && v'.Ok() && v'.Marks() == v.Marks() && MarkedUnder(d, v, kids, k, m)
    ensures MarkedUnder(d, v', kids, k, m)
  {
  }

  /** A change in child i of a table in memory. */
  lemma KidGone(d: map<int, Table>, d': map<int, Table>, v: Table, v': Table, t: T, i: nat, kid: T, g: Key, heirs: set<Key>, m0: Meta)
    requires t.Node? && i < |t.kids| && v.Ok() && v'.Ok() && v'.Marks() == v.Marks() && ReprKids(d, v.Kids(), t.kids)
    requires SameOn(d, d', Siblings(t, i)) && MarksGone(d, t.kids[i], d', kid, g, heirs, m0)
    ensures UnderGone(d, v, t.kids, d', v', t.kids[i := kid], g, heirs, m0)
  {
    var ks := t.kids[i := kid];
    forall k, m | MarkedUnder(d, v, t.kids, k, m) && k != g && k !in heirs ensures MarkedUnder(d', v', ks, k, m) {
      MarkBeside(d, d', v, v.Kids(), t, i, kid, k, m);
      hide Siblings, Repr, ReprKids, SameOn, Marked;
      if Marked(d, t.kids[i], k, m) {
        assert ks[i] == kid;
        MarkInKid(d', v', ks, i, k, m);
      } else {
        MarksOnly(d', v, v', ks, k, m);
      }
    }
    forall k | k in heirs ensures MarkedUnder(d', v', ks, k, m0) {
      MarkInKid(d', v', ks, i, k, m0);
    }
  }

  lemma UnderOn(d: map<int, Table>, v: Table, ks: seq<T>, d1: map<int, Table>, v1: Table, k1: seq<T>, d2: map<int, Table>, v2: Table, k2: seq<T>,
                g: Key, h: Key, m0: Meta, m1: Meta)
    requires UnderGone(d, v, ks, d1, v1, k1, h, {}, m1) && UnderGone(d1, v1, k1, d2, v2, k2, g, {h}, m0)
    ensures UnderGone(d, v, ks, d2, v2, k2, g, {h}, m0)
  {
    hide MarkedUnder;
  }

  /** Slot i takes another key over and keeps its metadata. */
  lemma SlotReplaced(d: map<int, Table>, v: Table, v': Table, kids: seq<T>, i: nat, y: Key)
    requires v.Ok() && v'.Ok() && i < v.size && v'.Marks() == v.Marks()[i := (y, v.Marks()[i].1)]
    ensures UnderGone(d, v, kids, d, v', kids, v.Marks()[i].0, {y}, v.Marks()[i].1)
  {
    assert v'.Marks()[i] == (y, v.Marks()[i].1);
    forall k, m | MarkedUnder(d, v, kids, k, m) && k != v.Marks()[i].0 ensures MarkedUnder(d, v', kids, k, m) {
      if (k, m) in v.Marks() {
        var n :| 0 <= n < |v.Marks()| && v.Marks()[n] == (k, m);
        assert v'.Marks()[n] == (k, m);
      }
    }
  }

  /** Slot i is closed, one of the children beside it was missing. */
  lemma SlotClosed(d: map<int, Table>, v: Table, v': Table, t: T, i: nat, kid: T, m0: Meta)
    requires t.Node? && |t.kids| == |t.items| + 1 && i < |t.items| && v.Ok() && v'.Ok() && v.size == |t.items|
    requires (kid == t.kids[i] && t.kids[i + 1] == Nil) || (kid == t.kids[i + 1] && t.kids[i] == Nil)
    requires v'.Marks() == v.Marks()[..i] + v.Marks()[i + 1..]
    ensures UnderGone(d, v, t.kids, d, v', Closed(t, i, kid).kids, v.Marks()[i].0, {}, m0)
  {
    var ks := Closed(t, i, kid).kids;
    forall k, m | MarkedUnder(d, v, t.kids, k, m) && k != v.Marks()[i].0 ensures MarkedUnder(d, v', ks, k, m) {
      if (k, m) in v.Marks() {
        var n :| 0 <= n < |v.Marks()| && v.Marks()[n] == (k, m);
        assert v'.Marks()[if n < i then n else n - 1] == (k, m);
      } else {
        var j :| 0 <= j < |t.kids| && Marked(d, t.kids[j], k, m);
        assert ks[if j < i then j else if j <= i + 1 then i else j - 1] == t.kids[j];
        MarkInKid(d, v', ks, if j < i then j else if j <= i + 1 then i else j - 1, k, m);
      }
    }
  }

  /** A table in memory written. */
  lemma GoneWritten(d: map<int, Table>, t: T, d1: map<int, Table>, v: Table, t': T, g: Key, heirs: set<Key>, m0: Meta)
    requires t.Node? && t'.Node? && t.off in d && v.Ok() && ReprKids(d1, v.Kids(), t'.kids) && t'.off !in KidsOffs(t'.kids)
    requires UnderGone(d, d[t.off], t.kids, d1, v, t'.kids, g, heirs, m0)
    ensures MarksGone(d, t, d1[t'.off := v], t', g, heirs, m0)
  {
    var d' := d1[t'.off := v];
    forall k, m | MarkedUnder(d1, v, t'.kids, k, m) ensures Marked(d', t', k, m) {
      MarkedKidsFrame(d1, d', v, v.Kids(), t'.kids, k, m);
      MarkAtTop(d', t', v, k, m);
    }
    hide MarkedUnder, ReprKids, KidsOffs;
    forall k, m | Marked(d, t, k, m) && k != g && k !in heirs ensures Marked(d', t', k, m) {
      MarkAtTop(d, t, d[t.off], k, m);
    }
  }

  /** Only a neighbour of the item at r can take its slot over. */
  ghost predicate Heirs(s: seq<I>, r: int, heirs: set<Key>) {
    0 <= r < |s| && (heirs == {} || (0 < r && heirs == {s[r - 1].key}) || (r + 1 < |s| && heirs == {s[r + 1].key}))
  }

  lemma HeirsInside(b: seq<I>, s: seq<I>, a: seq<I>, r: int, heirs: set<Key>)
    requires Heirs(s, r, heirs)
    ensures Heirs(b + s + a, |b| + r, heirs) && (b + s + a)[|b| + r] == s[r]
  {
    var all := b + s + a;
    assert forall j | 0 <= j < |s| :: all[|b| + j] == s[j];
  }

  /** What delete_table has done to the metadata below t. */
  ghost predicate DeleteMarks(d: map<int, Table>, t: T, d': map<int, Table>, t': T, r: int, heirs: set<Key>, m0: Meta) {
    if r == -1 then d' == d && t' == t
    else
      && Heirs(InOrder(t), r, heirs) && MarksGone(d, t, d', t', InOrder(t)[r].key, heirs, m0)
      && Marked(d, t, InOrder(t)[r].key, m0)
  }

  lemma GoneFinds(d: map<int, Table>, p: int, t: T, d': map<int, Table>, p': int, t': T, g: Key, heirs: set<Key>, m0: Meta, k: Key)
    requires Repr(d, p, t) && Repr(d', p', t') && Sorted(InOrder(t')) && MarksGone(d, t, d', t', g, heirs, m0)
    requires k in heirs || (FindSlot(d, t, k).Hit? && k != g)
    ensures MetaOf(FindSlot(d', t', k)) == if k in heirs then [m0] else MetaOf(FindSlot(d, t, k))
  {
    if k in heirs {
      MarkedFound(d', p', t', k, m0);
    } else {
      FoundMarked(d, p, t, k);
      MarkedFound(d', p', t', k, FindSlot(d, t, k).slot.meta);
    }
  }
}
