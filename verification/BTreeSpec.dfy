/**
 * How the node graph on disk represents a search tree, the shape invariant of
 * the secondary index.
 */
module BTreeSpec {
  import opened SearchTree
  import opened Ownership
  import opened BTreeNode

  type T = Tree<Val>

  type I = Item<Val>

  // ----- representation -----

  ghost predicate Repr(disk: map<int, NodeV>, p: int, t: T)
    decreases t, 0
  {
    match t
    case Nil => p == -1
    case Node(off, items, kids) =>
      && p == off && 0 < off && off in disk && disk[off].Ok()
      && |kids| == |items| + 1
      && disk[off].Keys() == items
      && ReprKids(disk, disk[off].Kids(), kids)
  }

  ghost predicate ReprKids(disk: map<int, NodeV>, ps: seq<int>, kids: seq<T>)
    decreases kids, 1
  {
    |ps| == |kids| && forall i | 0 <= i < |kids| :: Repr(disk, ps[i], kids[i])
  }

  ghost predicate SameOn(d: map<int, NodeV>, d': map<int, NodeV>, offs: multiset<int>) {
    forall o | o in offs && o in d :: o in d' && d'[o] == d[o]
  }

  ghost predicate SameOnBut(d: map<int, NodeV>, d': map<int, NodeV>, offs: multiset<int>, but: int) {
    forall o | o in offs && o in d && o != but :: o in d' && d'[o] == d[o]
  }

  lemma {:induction false} ReprFrame(d: map<int, NodeV>, d': map<int, NodeV>, p: int, t: T)
    requires Repr(d, p, t) && SameOn(d, d', Offs(t))
    ensures Repr(d', p, t)
    decreases t, 0
  {
    if t.Node? {
      ReprKidsFrame(d, d', d[p].Kids(), t.kids);
      assert t.off in Offs(t);
    }
  }

  lemma {:induction false} ReprKidsFrame(d: map<int, NodeV>, d': map<int, NodeV>, ps: seq<int>, kids: seq<T>)
    requires ReprKids(d, ps, kids) && SameOn(d, d', KidsOffs(kids))
    ensures ReprKids(d', ps, kids)
    decreases kids, 1
  {
    forall i | 0 <= i < |kids| ensures Repr(d', ps[i], kids[i]) {
      KidsOffsAt(kids, i);
      ReprFrame(d, d', ps[i], kids[i]);
    }
  }

  /** The free list threaded through child 0 of the freed nodes. */
  ghost predicate FreeChain(disk: map<int, NodeV>, head: int, fl: seq<int>)
    decreases fl
  {
    if fl == [] then head == -1
    else head == fl[0] && head in disk && disk[head].Ok() && FreeChain(disk, disk[head].ptr[0], fl[1..])
  }

  lemma {:induction false} FreeChainFrame(d: map<int, NodeV>, d': map<int, NodeV>, head: int, fl: seq<int>)
    requires FreeChain(d, head, fl) && SameOn(d, d', multiset(fl))
    ensures FreeChain(d', head, fl)
    decreases fl
  {
    if fl != [] {
      assert fl == [fl[0]] + fl[1..];
      assert head in multiset(fl);
      FreeChainFrame(d, d', d[head].ptr[0], fl[1..]);
    }
  }

  // ----- shape -----

  /** Every path from the root to Nil has h nodes; the top node holds at least
      m items and every other node at least INDEX_MSIZE, none more than INDEX_SIZE. */
  ghost predicate Shape(t: T, h: nat, m: int)
    decreases t
  {
    if h == 0 then t.Nil?
    else
      && t.Node? && m <= |t.items| <= INDEX_SIZE && |t.kids| == |t.items| + 1
      && forall i | 0 <= i < |t.kids| :: Shape(t.kids[i], h - 1, INDEX_MSIZE)
  }

  lemma {:induction false} ShapeMonotone(t: T, h: nat, m: int, m': int)
    requires Shape(t, h, m) && m' <= m
    ensures Shape(t, h, m')
  {
  }

  datatype Status = INSERTNOTCOMPLETE | SUCCESS | DUPLICATEKEY | UNDERFLOW | NOTFOUND

  lemma ReprKidsCut(d: map<int, NodeV>, ps: seq<int>, ks: seq<T>, m: nat)
    requires m <= |ks| && ReprKids(d, ps, ks)
    ensures ReprKids(d, ps[..m], ks[..m]) && ReprKids(d, ps[m..], ks[m..])
  {
  }

  /** Allocation leaves both halves of a node's children in place and apart from
      the two offsets about to be written. */
  lemma HalvesReady(d: map<int, NodeV>, d': map<int, NodeV>, ps: seq<int>, ks: seq<T>, m: nat, offset: int, offnew: int,
                    fl: seq<int>, live: multiset<int>)
    requires m <= |ks| && ReprKids(d, ps, ks) && SameOn(d, d', live)
    requires multiset(d'.Keys) == live + multiset{offnew} + multiset(fl)
    requires offset in live && KidsOffs(ks) <= live && offset !in KidsOffs(ks)
    ensures ReprKids(d', ps[..m], ks[..m]) && ReprKids(d', ps[m..], ks[m..])
    ensures offset in d' && offnew in d' && offset != offnew && offnew !in live
    ensures offset !in KidsOffs(ks[..m]) && offset !in KidsOffs(ks[m..]) && offset !in fl
    ensures offnew !in KidsOffs(ks[..m]) && offnew !in KidsOffs(ks[m..]) && offnew !in fl
  {
    ReprKidsFrame(d, d', ps, ks);
    ReprKidsCut(d', ps, ks, m);
    KidsOffsCut(ks, m);
    HalvesApart(d'.Keys, KidsOffs(ks[..m]), KidsOffs(ks[m..]), offset, offnew, multiset(fl), live);
  }

  lemma HalvesApart(keys: set<int>, l: multiset<int>, r: multiset<int>, offset: int, offnew: int, fl: multiset<int>,
                    live: multiset<int>)
    requires multiset(keys) == live + multiset{offnew} + fl
    requires offset in live && l + r <= live && offset !in l + r
    ensures offset in keys && offnew in keys && offset != offnew && offnew !in live
    ensures offset !in l && offset !in r && offset !in fl && offnew !in l && offnew !in r && offnew !in fl
  {
    Apart(keys, live, multiset{offnew}, fl);
    assert offnew in multiset{offnew};
    assert (l + r)[offset] == l[offset] + r[offset];
    assert (l + r)[offnew] == l[offnew] + r[offnew] <= live[offnew];
  }

  lemma ReprPair(d: map<int, NodeV>, d': map<int, NodeV>, p: int, l: T, q: int, r: T)
    requires Repr(d, p, l) && Repr(d, q, r) && SameOn(d, d', Offs(l) + Offs(r))
    ensures ReprKids(d', [p, q], [l, r])
  {
    ReprFrame(d, d', p, l);
    ReprFrame(d, d', q, r);
  }

  /** A node written over its old contents, apart from its children and the
      free list. */
  lemma NodeWritten(d: map<int, NodeV>, t: T, v: NodeV, head: int, fl: seq<int>)
    requires t.Node? && t.off in d && 0 < t.off && v.Ok() && v.Keys() == t.items && |t.kids| == |t.items| + 1
    requires ReprKids(d, v.Kids(), t.kids) && FreeChain(d, head, fl)
    requires t.off !in KidsOffs(t.kids) && t.off !in fl
    ensures Repr(d[t.off := v], t.off, t) && FreeChain(d[t.off := v], head, fl)
  {
    ReprKidsFrame(d, d[t.off := v], v.Kids(), t.kids);
    FreeChainFrame(d, d[t.off := v], head, fl);
  }

  /** Back from the recursion into child i: the other children are where they
      were, and the store is accounted for again. */
  lemma StepBack(d: map<int, NodeV>, d': map<int, NodeV>, t: T, i: nat, kid: T, r: T, fl: seq<int>, rest: multiset<int>)
    requires t.Node? && Repr(d, t.off, t) && i < |t.kids|
    requires SameOn(d, d', rest + Siblings(t, i)) && Repr(d', d[t.off].Kids()[i], kid)
    requires multiset(d'.Keys) == Offs(kid) + Offs(r) + (rest + Siblings(t, i)) + multiset(fl)
    ensures SameOn(d, d', rest) && t.off in d' && d'[t.off] == d[t.off]
    ensures ReprKids(d', d[t.off].Kids(), t.kids[i := kid])
    ensures multiset(d'.Keys) == multiset{t.off} + KidsOffs(t.kids[i := kid]) + Offs(r) + rest + multiset(fl)
  {
    SiblingsAndKid(t, i, kid);
    var ps := d[t.off].Kids();
    forall j | 0 <= j < |t.kids| && j != i ensures Repr(d', ps[j], t.kids[j]) {
      SiblingOffs(t, i, j);
      ReprFrame(d, d', ps[j], t.kids[j]);
    }
  }

  lemma NilRepr(disk: map<int, NodeV>)
    ensures Repr(disk, -1, Nil) && Offs<Val>(Nil) == multiset{}
  {
  }

  lemma NodeRepr(disk: map<int, NodeV>, t: T)
    requires t.Node? && 0 < t.off && t.off in disk && disk[t.off].Ok() && disk[t.off].Keys() == t.items
    requires |t.kids| == |t.items| + 1 && ReprKids(disk, disk[t.off].Kids(), t.kids)
    ensures Repr(disk, t.off, t)
  {
  }

  /** What a well-shaped subtree says about its top node on disk. */
  lemma NodeFacts(disk: map<int, NodeV>, p: int, t: T, h: nat, m: int)
    requires Repr(disk, p, t) && Shape(t, h, m)
    ensures p == -1 <==> t == Nil
    ensures p == -1 <==> h == 0
    ensures p != -1 ==>
      && t.Node? && t.off == p && 0 < p && p in disk && disk[p].Ok() && disk[p].Keys() == t.items
      && m <= |t.items| <= INDEX_SIZE && |t.kids| == |t.items| + 1
      && ReprKids(disk, disk[p].Kids(), t.kids)
  {
  }

  lemma KidFacts(disk: map<int, NodeV>, t: T, h: nat, m: int, i: nat)
    requires t.Node? && Repr(disk, t.off, t) && Shape(t, h, m) && i < |t.kids|
    ensures 0 < h && Shape(t.kids[i], h - 1, INDEX_MSIZE)
    ensures Repr(disk, disk[t.off].Kids()[i], t.kids[i])
    ensures Offs(t) == Offs(t.kids[i]) + Siblings(t, i)
  {
    SiblingsAndKid(t, i, t.kids[i]);
  }

  lemma ReprKidsInsert(d: map<int, NodeV>, ps: seq<int>, kids: seq<T>, j: nat, p: int, r: T)
    requires ReprKids(d, ps, kids) && Repr(d, p, r) && j <= |kids|
    ensures ReprKids(d, ps[..j] + [p] + ps[j..], kids[..j] + [r] + kids[j..])
  {
    var ps', kids' := ps[..j] + [p] + ps[j..], kids[..j] + [r] + kids[j..];
    forall k | 0 <= k < |kids'| ensures Repr(d, ps'[k], kids'[k]) {
      if k < j {
        assert ps'[k] == ps[k] && kids'[k] == kids[k];
      } else if k > j {
        assert ps'[k] == ps[k - 1] && kids'[k] == kids[k - 1];
      }
    }
  }

  lemma {:induction false} FlatLeaf(items: seq<I>, kids: seq<T>)
    requires |kids| == |items| + 1 && forall i | 0 <= i < |kids| :: kids[i] == Nil
    ensures Flat(items, kids) == items
  {
    if items != [] {
      FlatLeaf(items[1..], kids[1..]);
      assert items == [items[0]] + items[1..];
    }
  }
}
