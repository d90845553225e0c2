/**
 * Multiway search trees as values: the meaning of the node graphs that the
 * secondary index and the key engine keep on disk. A tree node remembers the
 * disk offset it is stored at; Nil stands for the null child pointer.
 *
 * What a tree means is its in-order item sequence. Searching, inserting and
 * removing are specified on that sequence (Rank, Put, Del).
 */
module SearchTree {
  import opened Order
  import opened Ownership

  datatype Item<V> = Item(key: Key, val: V)

  datatype Tree<V> = Nil | Node(off: int, items: seq<Item<V>>, kids: seq<Tree<V>>)

  // ----- sequences of items -----

  ghost predicate Sorted<V>(s: seq<Item<V>>) {
    forall i, j | 0 <= i < j < |s| :: Less(s[i].key, s[j].key)
  }

  /** Sorted, with equal keys allowed. */
  ghost predicate InSearchOrder<V>(s: seq<Item<V>>) {
    forall i, j | 0 <= i < j < |s| :: !Less(s[j].key, s[i].key)
  }

  ghost predicate AllBelow<V>(s: seq<Item<V>>, key: Key) {
    forall i | 0 <= i < |s| :: Less(s[i].key, key)
  }

  ghost predicate NoneBelow<V>(s: seq<Item<V>>, key: Key) {
    forall i | 0 <= i < |s| :: !Less(s[i].key, key)
  }

  /** How many leading items have a key below `key`. */
  function Rank<V>(s: seq<Item<V>>, key: Key): (r: nat)
    ensures r <= |s|
  {
    if s == [] || !Less(s[0].key, key) then 0 else 1 + Rank(s[1..], key)
  }

  predicate Has<V>(s: seq<Item<V>>, key: Key) {
    var r := Rank(s, key);
    r < |s| && s[r].key == key
  }

  /** The value stored under a present key. */
  function Lookup<V>(s: seq<Item<V>>, key: Key): V
    requires Has(s, key)
  {
    s[Rank(s, key)].val
  }

  function Put<V>(s: seq<Item<V>>, x: Item<V>): seq<Item<V>> {
    var r := Rank(s, x.key);
    s[..r] + [x] + s[r..]
  }

  function Del<V>(s: seq<Item<V>>, key: Key): seq<Item<V>>
    requires Has(s, key)
  {
    var r := Rank(s, key);
    s[..r] + s[r + 1..]
  }

  lemma {:induction false} RankAt<V>(a: seq<Item<V>>, b: seq<Item<V>>, key: Key)
    requires AllBelow(a, key)
    ensures Rank(a + b, key) == |a| + Rank(b, key)
  {
    if a == [] {
      assert a + b == b;
    } else {
      assert (a + b)[1..] == a[1..] + b;
      RankAt(a[1..], b, key);
    }
  }

  lemma {:induction false} RankStops<V>(m: seq<Item<V>>, b: seq<Item<V>>, key: Key)
    requires NoneBelow(b, key)
    ensures Rank(m + b, key) == Rank(m, key)
  {
    if m == [] {
      assert m + b == b;
    } else {
      assert (m + b)[1..] == m[1..] + b;
      RankStops(m[1..], b, key);
    }
  }

  /** Where a segment m of a sequence is the only place `key` can go, the
      specification functions act on m alone. */
  lemma RankInside<V>(a: seq<Item<V>>, m: seq<Item<V>>, b: seq<Item<V>>, key: Key)
    requires AllBelow(a, key) && NoneBelow(b, key)
    ensures Rank(a + m + b, key) == |a| + Rank(m, key)
  {
    assert a + m + b == a + (m + b);
    RankAt(a, m + b, key);
    RankStops(m, b, key);
  }

  lemma SliceInside<T>(a: seq<T>, m: seq<T>, b: seq<T>, i: nat)
    requires i <= |m|
    ensures (a + m + b)[..|a| + i] == a + m[..i]
    ensures (a + m + b)[|a| + i..] == m[i..] + b
  {
  }

  lemma Regroup<T>(b: seq<T>, l: seq<T>, m: seq<T>, r: seq<T>, a: seq<T>)
    ensures b + l + m + (r + a) == b + (l + m + r) + a
    ensures b + l + (m + (r + a)) == b + (l + m + r) + a
  {
  }

  lemma PutInside<V>(a: seq<Item<V>>, m: seq<Item<V>>, b: seq<Item<V>>, x: Item<V>)
    requires AllBelow(a, x.key) && NoneBelow(b, x.key)
    ensures Put(a + m + b, x) == a + Put(m, x) + b
  {
    RankInside(a, m, b, x.key);
    var r := Rank(m, x.key);
    SliceInside(a, m, b, r);
    Regroup(a, m[..r], [x], m[r..], b);
  }

  lemma HasInside<V>(a: seq<Item<V>>, m: seq<Item<V>>, b: seq<Item<V>>, key: Key)
    requires AllBelow(a, key) && NoneBelow(b, key)
    requires b == [] || b[0].key != key
    ensures Has(a + m + b, key) == Has(m, key)
    ensures Has(m, key) ==> Lookup(a + m + b, key) == Lookup(m, key)
  {
    RankInside(a, m, b, key);
    SliceInside(a, m, b, Rank(m, key));
    assert forall i | 0 <= i < |m| :: (a + m + b)[|a| + i] == m[i];
    assert forall i | 0 <= i < |b| :: (a + m + b)[|a| + |m| + i] == b[i];
  }

  /** A present key splits a sorted sequence in one way only. */
  lemma HasAt<V>(a: seq<Item<V>>, x: Item<V>, b: seq<Item<V>>)
    requires AllBelow(a, x.key)
    ensures Has(a + [x] + b, x.key)
    ensures Lookup(a + [x] + b, x.key) == x.val
    ensures Del(a + [x] + b, x.key) == a + b
  {
    LessIsStrictTotalOrder();
    RankAt(a, [x] + b, x.key);
    var s := a + [x] + b;
    assert s == a + ([x] + b);
    assert s[..|a|] == a && s[|a| + 1..] == b;
  }

  lemma {:induction false} RankSplits<V>(s: seq<Item<V>>, key: Key)
    requires Sorted(s)
    ensures AllBelow(s[..Rank(s, key)], key)
    ensures NoneBelow(s[Rank(s, key)..], key)
  {
    LessIsStrictTotalOrder();
    if s != [] && Less(s[0].key, key) {
      RankSplits(s[1..], key);
      var r := Rank(s, key);
      assert s[1..][r - 1..] == s[r..];
      assert s[..r] == [s[0]] + s[1..][..r - 1];
    }
  }

  lemma RankStopsBefore<V>(s: seq<Item<V>>, key: Key, i: nat)
    requires Sorted(s) && i < |s| && s[i].key == key
    ensures Rank(s, key) == i
  {
    LessIsStrictTotalOrder();
    assert s == s[..i] + s[i..];
    RankAt(s[..i], s[i..], key);
  }

  /** Has is membership, on sorted sequences. */
  lemma HasIffMember<V>(s: seq<Item<V>>, key: Key)
    requires Sorted(s)
    ensures Has(s, key) <==> exists i :: 0 <= i < |s| && s[i].key == key
  {
    if i :| 0 <= i < |s| && s[i].key == key {
      RankStopsBefore(s, key, i);
    }
  }

  lemma PutSorted<V>(s: seq<Item<V>>, x: Item<V>)
    requires Sorted(s) && !Has(s, x.key)
    ensures Sorted(Put(s, x))
  {
    LessIsStrictTotalOrder();
    RankSplits(s, x.key);
    var r := Rank(s, x.key);
    var t := Put(s, x);
    forall i, j | 0 <= i < j < |t| ensures Less(t[i].key, t[j].key) {
      if i == r {
        assert r < |s| && !Less(s[r..][0].key, x.key) && s[r].key != x.key;
        assert t[j] == s[j - 1];
      } else if j == r {
        assert t[i] == s[..r][i];
      }
    }
  }

  lemma DelSorted<V>(s: seq<Item<V>>, key: Key)
    requires Sorted(s) && Has(s, key)
    ensures Sorted(Del(s, key)) && !Has(Del(s, key), key)
  {
    LessIsStrictTotalOrder();
    var d := Del(s, key);
    var r := Rank(s, key);
    assert forall i | 0 <= i < |d| :: d[i] == s[if i < r then i else i + 1];
    HasIffMember(d, key);
  }

  // ----- the key -> value map -----

  ghost function ToMap<V>(s: seq<Item<V>>): map<Key, V> {
    if s == [] then map[] else ToMap(s[..|s| - 1])[s[|s| - 1].key := s[|s| - 1].val]
  }

  lemma RankOfPrefix<V>(s: seq<Item<V>>, n: nat, key: Key)
    requires Sorted(s) && n < |s|
    ensures Has(s[..n], key) ==> Has(s, key) && Lookup(s, key) == Lookup(s[..n], key)
  {
    if Has(s[..n], key) {
      RankStopsBefore(s, key, Rank(s[..n], key));
    }
  }

  lemma {:induction false} ToMapLooksUp<V>(s: seq<Item<V>>, key: Key)
    requires Sorted(s)
    ensures key in ToMap(s) <==> Has(s, key)
    ensures Has(s, key) ==> ToMap(s)[key] == Lookup(s, key)
  {
    if s != [] {
      var n := |s| - 1;
      ToMapLooksUp(s[..n], key);
      RankOfPrefix(s, n, key);
      if s[n].key == key {
        RankStopsBefore(s, key, n);
      } else if Has(s, key) {
        var r := Rank(s, key);
        assert s[..n][r] == s[r];
        RankStopsBefore(s[..n], key, r);
      }
    }
  }

  /** Put is map update and Del is map removal. */
  lemma PutIsUpdate<V>(s: seq<Item<V>>, x: Item<V>)
    requires Sorted(s) && !Has(s, x.key)
    ensures ToMap(Put(s, x)) == ToMap(s)[x.key := x.val]
  {
    PutSorted(s, x);
    var t := Put(s, x);
    forall k ensures (k in ToMap(t) <==> k in ToMap(s) || k == x.key)
      ensures k in ToMap(t) ==> ToMap(t)[k] == if k == x.key then x.val else ToMap(s)[k]
    {
      ToMapLooksUp(s, k);
      ToMapLooksUp(t, k);
      PutLooksUp(s, x, k);
    }
  }

  lemma PutIndex<V>(s: seq<Item<V>>, x: Item<V>, i: nat)
    requires i < |s|
    ensures |Put(s, x)| == |s| + 1 && Put(s, x)[Rank(s, x.key)] == x
    ensures Put(s, x)[if i < Rank(s, x.key) then i else i + 1] == s[i]
  {
  }

  lemma PutLooksUp<V>(s: seq<Item<V>>, x: Item<V>, k: Key)
    requires Sorted(s) && !Has(s, x.key)
    ensures Has(Put(s, x), k) <==> Has(s, k) || k == x.key
    ensures Has(Put(s, x), k) ==> Lookup(Put(s, x), k) == if k == x.key then x.val else Lookup(s, k)
  {
    PutSorted(s, x);
    var t := Put(s, x);
    var r := Rank(s, x.key);
    if k == x.key {
      RankStopsBefore(t, k, r);
    } else if Has(s, k) {
      var i := Rank(s, k);
      PutIndex(s, x, i);
      RankStopsBefore(t, k, if i < r then i else i + 1);
    } else if Has(t, k) {
      var j := Rank(t, k);
      var i := if j < r then j else j - 1;
      PutIndex(s, x, i);
      RankStopsBefore(s, k, i);
    }
  }

  lemma DelIsRemoval<V>(s: seq<Item<V>>, key: Key)
    requires Sorted(s) && Has(s, key)
    ensures ToMap(Del(s, key)) == ToMap(s) - {key}
  {
    DelSorted(s, key);
    var d := Del(s, key);
    var m, m' := ToMap(d), ToMap(s);
    forall k ensures (k in m <==> k in m' && k != key) && (k in m ==> m[k] == m'[k]) {
      ToMapLooksUp(s, k);
      ToMapLooksUp(d, k);
      DelLooksUp(s, key, k);
    }
    assert m == m' - {key};
  }

  lemma DelLooksUp<V>(s: seq<Item<V>>, key: Key, k: Key)
    requires Sorted(s) && Has(s, key)
    ensures Has(Del(s, key), k) <==> Has(s, k) && k != key
    ensures Has(Del(s, key), k) ==> Lookup(Del(s, key), k) == Lookup(s, k)
  {
    DelSorted(s, key);
    LessIsStrictTotalOrder();
    var d := Del(s, key);
    var r := Rank(s, key);
    HasIffMember(s, k);
    HasIffMember(d, k);
    assert |d| == |s| - 1 && r < |s| && s[r].key == key && forall i | 0 <= i < |d| :: d[i] == s[if i < r then i else i + 1];
    hide Del;
    if Has(s, k) && k != key {
      var i := Rank(s, k);
      assert d[if i < r then i else i - 1] == s[i];
      RankStopsBefore(d, k, if i < r then i else i - 1);
    }
  }

  // ----- what a tree holds -----

  /** The items of a tree from left to right. */
  ghost function InOrder<V>(t: Tree<V>): seq<Item<V>>
    decreases t, 0
  {
    match t
    case Nil => []
    case Node(_, items, kids) => Flat(items, kids)
  }

  /** Children and items interleaved: kid, item, kid, ..., item, kid. */
  ghost function Flat<V>(items: seq<Item<V>>, kids: seq<Tree<V>>): seq<Item<V>>
    decreases kids, 1
  {
    if kids == [] then items
    else if items == [] then InOrder(kids[0])
    else InOrder(kids[0]) + [items[0]] + Flat(items[1..], kids[1..])
  }

  ghost function KidsItems<V>(kids: seq<Tree<V>>): multiset<Item<V>> {
    if kids == [] then multiset{} else multiset(InOrder(kids[0])) + KidsItems(kids[1..])
  }

  /** The disk offsets a tree occupies, with multiplicity. */
  ghost function Offs<V>(t: Tree<V>): multiset<int>
    decreases t, 0
  {
    match t
    case Nil => multiset{}
    case Node(off, _, kids) => multiset{off} + KidsOffs(kids)
  }

  ghost function KidsOffs<V>(kids: seq<Tree<V>>): multiset<int>
    decreases kids, 1
  {
    if kids == [] then multiset{} else Offs(kids[0]) + KidsOffs(kids[1..])
  }

  lemma {:induction false} KidsItemsConcat<V>(a: seq<Tree<V>>, b: seq<Tree<V>>)
    ensures KidsItems(a + b) == KidsItems(a) + KidsItems(b)
  {
    if a == [] {
      assert a + b == b;
    } else {
      assert (a + b)[1..] == a[1..] + b;
      KidsItemsConcat(a[1..], b);
    }
  }

  lemma {:induction false} KidsOffsConcat<V>(a: seq<Tree<V>>, b: seq<Tree<V>>)
    ensures KidsOffs(a + b) == KidsOffs(a) + KidsOffs(b)
  {
    if a == [] {
      assert a + b == b;
    } else {
      assert (a + b)[1..] == a[1..] + b;
      KidsOffsConcat(a[1..], b);
    }
  }

  lemma KidsOffsCut<V>(kids: seq<Tree<V>>, i: nat)
    requires i <= |kids|
    ensures KidsOffs(kids) == KidsOffs(kids[..i]) + KidsOffs(kids[i..])
  {
    var a, b := kids[..i], kids[i..];
    assert kids == a + b;
    KidsOffsConcat(a, b);
  }

  lemma {:induction false} FlatItems<V>(items: seq<Item<V>>, kids: seq<Tree<V>>)
    requires |kids| == |items| + 1
    ensures multiset(Flat(items, kids)) == multiset(items) + KidsItems(kids)
  {
    if items == [] {
      assert KidsItems(kids[1..]) == multiset{};
    } else {
      FlatItems(items[1..], kids[1..]);
      assert items == [items[0]] + items[1..];
    }
  }

  lemma FlatOne<V>(l: Tree<V>, up: Item<V>, r: Tree<V>)
    ensures Flat([up], [l, r]) == InOrder(l) + [up] + InOrder(r)
  {
    assert [up][1..] == [] && [l, r][1..] == [r];
    assert Flat([], [r]) == InOrder(r);
  }

  // ----- taking a node apart around one of its children -----

  /** Everything left of child i. */
  ghost function Before<V>(items: seq<Item<V>>, kids: seq<Tree<V>>, i: nat): seq<Item<V>>
    requires |kids| == |items| + 1 && i <= |items|
  {
    if i == 0 then [] else Flat(items[..i - 1], kids[..i]) + [items[i - 1]]
  }

  /** Everything right of child i. */
  ghost function After<V>(items: seq<Item<V>>, kids: seq<Tree<V>>, i: nat): seq<Item<V>>
    requires |kids| == |items| + 1 && i <= |items|
  {
    if i == |items| then [] else [items[i]] + Flat(items[i + 1..], kids[i + 1..])
  }

  /** Two nodes laid side by side around a separator. */
  lemma {:induction false} FlatJoin<V>(li: seq<Item<V>>, lk: seq<Tree<V>>, sep: Item<V>,
                                       ri: seq<Item<V>>, rk: seq<Tree<V>>)
    requires |lk| == |li| + 1 && |rk| == |ri| + 1
    ensures Flat(li + [sep] + ri, lk + rk) == Flat(li, lk) + [sep] + Flat(ri, rk)
  {
    var items, kids := li + [sep] + ri, lk + rk;
    if li == [] {
      assert items[1..] == ri && kids[1..] == rk;
    } else {
      FlatJoin(li[1..], lk[1..], sep, ri, rk);
      assert items[1..] == li[1..] + [sep] + ri && kids[1..] == lk[1..] + rk;
    }
  }

  lemma FlatCut<V>(items: seq<Item<V>>, kids: seq<Tree<V>>, i: nat)
    requires |kids| == |items| + 1 && i < |items|
    ensures Flat(items, kids) == Flat(items[..i], kids[..i + 1]) + [items[i]] + Flat(items[i + 1..], kids[i + 1..])
  {
    var li, ri, lk, rk := items[..i], items[i + 1..], kids[..i + 1], kids[i + 1..];
    assert items == li + [items[i]] + ri && kids == lk + rk;
    FlatJoin(li, lk, items[i], ri, rk);
  }

  lemma FlatTail<V>(items: seq<Item<V>>, kids: seq<Tree<V>>, i: nat)
    requires |kids| == |items| + 1 && i <= |items|
    ensures Flat(items[i..], kids[i..]) == InOrder(kids[i]) + After(items, kids, i)
  {
    if i < |items| {
      assert items[i..][1..] == items[i + 1..] && kids[i..][1..] == kids[i + 1..];
    }
  }

  lemma Assoc<T>(a: seq<T>, b: seq<T>, c: seq<T>)
    ensures a + (b + c) == a + b + c
  {
  }

  lemma FlatFrom<V>(items: seq<Item<V>>, kids: seq<Tree<V>>, i: nat)
    requires |kids| == |items| + 1 && i <= |items|
    ensures Flat(items, kids) == Before(items, kids, i) + Flat(items[i..], kids[i..])
  {
    hide Flat;
    if i > 0 {
      FlatCut(items, kids, i - 1);
    } else {
      assert items[0..] == items && kids[0..] == kids;
    }
  }

  lemma FlatAt<V>(items: seq<Item<V>>, kids: seq<Tree<V>>, i: nat)
    requires |kids| == |items| + 1 && i <= |items|
    ensures Flat(items, kids) == Before(items, kids, i) + InOrder(kids[i]) + After(items, kids, i)
  {
    hide Flat, InOrder, Before, After;
    FlatFrom(items, kids, i);
    FlatTail(items, kids, i);
    Assoc(Before(items, kids, i), InOrder(kids[i]), After(items, kids, i));
  }

  lemma LastKidOut<V>(items: seq<Item<V>>, kids: seq<Tree<V>>)
    requires |kids| == |items| + 1
    ensures Flat(items, kids) == Before(items, kids, |items|) + InOrder(kids[|items|])
  {
    FlatAt(items, kids, |items|);
  }

  lemma FlatReplace<V>(items: seq<Item<V>>, kids: seq<Tree<V>>, i: nat, kid: Tree<V>)
    requires |kids| == |items| + 1 && i <= |items|
    ensures Flat(items, kids[i := kid]) == Before(items, kids, i) + InOrder(kid) + After(items, kids, i)
  {
    hide Flat, InOrder;
    var kids' := kids[i := kid];
    FlatAt(items, kids', i);
    assert kids'[..i] == kids[..i] && kids'[i + 1..] == kids[i + 1..];
  }

  lemma BeforeLocal<V>(items: seq<Item<V>>, kids: seq<Tree<V>>, items': seq<Item<V>>, kids': seq<Tree<V>>, i: nat)
    requires |kids| == |items| + 1 && |kids'| == |items'| + 1 && i <= |items| && i <= |items'|
    requires items[..i] == items'[..i] && kids[..i] == kids'[..i]
    ensures Before(items, kids, i) == Before(items', kids', i)
  {
    if i > 0 {
      assert items[..i - 1] == items[..i][..i - 1] && items'[..i - 1] == items'[..i][..i - 1];
      assert items[i - 1] == items[..i][i - 1] && items'[i - 1] == items'[..i][i - 1];
    }
  }

  /** Child i gives way to two children around a new separator. */
  lemma FlatGrow<V>(items: seq<Item<V>>, kids: seq<Tree<V>>, i: nat, l: Tree<V>, up: Item<V>, r: Tree<V>)
    requires |kids| == |items| + 1 && i <= |items|
    ensures Flat(items[..i] + [up] + items[i..], kids[..i] + [l, r] + kids[i + 1..])
         == Before(items, kids, i) + (InOrder(l) + [up] + InOrder(r)) + After(items, kids, i)
  {
    var items', kids' := items[..i] + [up] + items[i..], kids[..i] + [l, r] + kids[i + 1..];
    FlatAt(items', kids', i);
    BeforeLocal(items, kids, items', kids', i);
    assert items'[i + 1..] == items[i..] && kids'[i + 1..] == [r] + kids[i + 1..];
    assert After(items', kids', i) == [up] + Flat(items[i..], [r] + kids[i + 1..]);
    FlatFirst(items, kids, i, r);
    Regroup(Before(items, kids, i), InOrder(l), [up], InOrder(r), After(items, kids, i));
  }

  lemma FlatFirst<V>(items: seq<Item<V>>, kids: seq<Tree<V>>, i: nat, r: Tree<V>)
    requires |kids| == |items| + 1 && i <= |items|
    ensures Flat(items[i..], [r] + kids[i + 1..]) == InOrder(r) + After(items, kids, i)
  {
    var rk := [r] + kids[i + 1..];
    assert rk[1..] == kids[i + 1..];
    if i < |items| {
      assert items[i..][1..] == items[i + 1..];
    }
  }

  /** A node with children i and i+1 and their separator exchanged. */
  lemma FlatTwo<V>(items: seq<Item<V>>, kids: seq<Tree<V>>, i: nat, l: Tree<V>, sep: Item<V>, r: Tree<V>)
    requires |kids| == |items| + 1 && i < |items|
    ensures Flat(items[i := sep], kids[i := l][i + 1 := r])
         == Before(items, kids, i) + (InOrder(l) + [sep] + InOrder(r)) + After(items, kids, i + 1)
  {
    var items', kids' := items[i := sep], kids[i := l][i + 1 := r];
    hide Flat, Before, InOrder;
    FlatAt(items', kids', i);
    BeforeLocal(items, kids, items', kids', i);
    assert items'[i + 1..] == items[i + 1..] && kids'[i + 1..] == [r] + kids[i + 2..];
    assert After(items', kids', i) == [sep] + Flat(items[i + 1..], [r] + kids[i + 2..]);
    FlatFirst(items, kids, i + 1, r);
    Regroup(Before(items, kids, i), InOrder(l), [sep], InOrder(r), After(items, kids, i + 1));
  }

  /** Children i and i+1 with their separator give way to another pair. */
  lemma FlatPair<V>(items: seq<Item<V>>, kids: seq<Tree<V>>, i: nat, l: Tree<V>, sep: Item<V>, r: Tree<V>)
    requires |kids| == |items| + 1 && i < |items|
    requires InOrder(l) + [sep] + InOrder(r) == InOrder(kids[i]) + [items[i]] + InOrder(kids[i + 1])
    ensures Flat(items[i := sep], kids[i := l][i + 1 := r]) == Flat(items, kids)
  {
    hide Flat, Before, After;
    FlatTwo(items, kids, i, l, sep, r);
    FlatTwo(items, kids, i, kids[i], items[i], kids[i + 1]);
    assert items[i := items[i]] == items && kids[i := kids[i]][i + 1 := kids[i + 1]] == kids;
  }

  /** Children i and i+1 with their separator give way to one child. */
  lemma FlatShrink<V>(items: seq<Item<V>>, kids: seq<Tree<V>>, i: nat, kid: Tree<V>)
    requires |kids| == |items| + 1 && i < |items|
    requires InOrder(kid) == InOrder(kids[i]) + [items[i]] + InOrder(kids[i + 1])
    ensures Flat(items[..i] + items[i + 1..], kids[..i] + [kid] + kids[i + 2..]) == Flat(items, kids)
  {
    var items', kids' := items[..i] + items[i + 1..], kids[..i] + [kid] + kids[i + 2..];
    FlatTwo(items, kids, i, kids[i], items[i], kids[i + 1]);
    assert items[i := items[i]] == items && kids[i := kids[i]][i + 1 := kids[i + 1]] == kids;
    FlatAt(items', kids', i);
    BeforeLocal(items, kids, items', kids', i);
    assert items'[i..] == items[i + 1..] && kids'[i + 1..] == kids[i + 2..];
    FlatFirst(items, kids, i + 1, kid);
    FlatFirst(items', kids', i, kid);
    assert After(items', kids', i) == After(items, kids, i + 1) by {
      assert i < |items'| ==> items'[i] == items[i + 1] && items'[i + 1..] == items[i + 2..] && kids'[i + 1..] == kids[i + 2..];
    }
  }

  // ----- offsets through the same steps -----

  lemma KidsOffsAt<V>(kids: seq<Tree<V>>, i: nat)
    requires i < |kids|
    ensures KidsOffs(kids) == KidsOffs(kids[..i]) + Offs(kids[i]) + KidsOffs(kids[i + 1..])
  {
    assert kids == kids[..i] + kids[i..];
    KidsOffsConcat(kids[..i], kids[i..]);
    assert kids[i..][1..] == kids[i + 1..];
  }

  lemma KidsOffsReplace<V>(kids: seq<Tree<V>>, i: nat, kid: Tree<V>)
    requires i < |kids|
    ensures KidsOffs(kids[i := kid]) == KidsOffs(kids) - Offs(kids[i]) + Offs(kid)
  {
    KidsOffsAt(kids, i);
    KidsOffsAt(kids[i := kid], i);
    assert kids[i := kid][..i] == kids[..i] && kids[i := kid][i + 1..] == kids[i + 1..];
  }

  lemma KidsOffsPair<V>(l: Tree<V>, r: Tree<V>)
    ensures KidsOffs([l, r]) == Offs(l) + Offs(r)
  {
    assert [l, r][1..] == [r];
    assert KidsOffs([r]) == Offs(r) + KidsOffs([r][1..]);
  }

  // ----- searching a sorted node -----

  lemma SortedParts<V>(a: seq<Item<V>>, m: seq<Item<V>>, b: seq<Item<V>>)
    requires Sorted(a + m + b)
    ensures Sorted(a) && Sorted(m) && Sorted(b)
  {
    var s := a + m + b;
    assert forall i | 0 <= i < |a| :: s[i] == a[i];
    assert forall i | 0 <= i < |m| :: s[|a| + i] == m[i];
    assert forall i | 0 <= i < |b| :: s[|a| + |m| + i] == b[i];
  }

  lemma SortedAround<V>(a: seq<Item<V>>, x: Item<V>, b: seq<Item<V>>)
    requires Sorted(a + [x] + b)
    ensures AllBelow(a, x.key)
    ensures forall i | 0 <= i < |b| :: Less(x.key, b[i].key)
  {
    var s := a + [x] + b;
    assert s[|a|] == x;
    assert forall i | 0 <= i < |a| :: s[i] == a[i];
    assert forall i | 0 <= i < |b| :: s[|a| + 1 + i] == b[i];
  }

  /** In a sorted node the items are sorted, and so is every child. */
  lemma {:induction false} SortedNode<V>(items: seq<Item<V>>, kids: seq<Tree<V>>)
    requires |kids| == |items| + 1 && Sorted(Flat(items, kids))
    ensures Sorted(items)
    ensures forall i | 0 <= i <= |items| :: Sorted(InOrder(kids[i]))
  {
    if items != [] {
      var rest := Flat(items[1..], kids[1..]);
      SortedParts(InOrder(kids[0]), [items[0]], rest);
      SortedAround(InOrder(kids[0]), items[0], rest);
      SortedNode(items[1..], kids[1..]);
      ItemsInFlat(items[1..], kids[1..]);
      forall j | 1 <= j < |items| ensures Less(items[0].key, items[j].key) {
        assert items[1..][j - 1] in rest;
      }
      assert items == [items[0]] + items[1..] && kids == [kids[0]] + kids[1..];
    }
  }

  lemma ItemsInFlat<V>(items: seq<Item<V>>, kids: seq<Tree<V>>)
    requires |kids| == |items| + 1
    ensures forall i | 0 <= i < |items| :: items[i] in Flat(items, kids)
  {
    FlatItems(items, kids);
    forall i | 0 <= i < |items| ensures items[i] in Flat(items, kids) {
      assert items[i] in multiset(items);
      assert items[i] in multiset(Flat(items, kids));
    }
  }

  /** `i` is the number of items of a sorted array whose key is below `key`. */
  ghost predicate IsLowerBound<V>(items: seq<Item<V>>, key: Key, i: int) {
    0 <= i <= |items| && AllBelow(items[..i], key) && NoneBelow(items[i..], key)
  }

  lemma LowerBoundIsRank<V>(items: seq<Item<V>>, key: Key, i: int)
    requires IsLowerBound(items, key, i)
    ensures i == Rank(items, key)
  {
    assert items == items[..i] + items[i..];
    RankAt(items[..i], items[i..], key);
  }

  lemma BeforeBelow<V>(items: seq<Item<V>>, kids: seq<Tree<V>>, key: Key, i: nat)
    requires |kids| == |items| + 1 && i <= |items| && AllBelow(items[..i], key)
    requires Sorted(Before(items, kids, i))
    ensures AllBelow(Before(items, kids, i), key)
  {
    LessIsStrictTotalOrder();
    if i > 0 {
      var b := Before(items, kids, i);
      assert b[|b| - 1] == items[i - 1] == items[..i][i - 1];
    }
  }

  lemma AfterNotBelow<V>(items: seq<Item<V>>, kids: seq<Tree<V>>, key: Key, i: nat)
    requires |kids| == |items| + 1 && i <= |items| && NoneBelow(items[i..], key)
    requires Sorted(After(items, kids, i))
    ensures NoneBelow(After(items, kids, i), key)
  {
    LessIsStrictTotalOrder();
    if i < |items| {
      assert After(items, kids, i)[0] == items[i] == items[i..][0];
    }
  }

  /** The child at the lower bound is the only place where `key` can be,
      apart from the item at the lower bound itself. */
  lemma Descend<V>(items: seq<Item<V>>, kids: seq<Tree<V>>, key: Key, i: nat)
    requires |kids| == |items| + 1 && Sorted(Flat(items, kids)) && IsLowerBound(items, key, i)
    ensures Flat(items, kids) == Before(items, kids, i) + InOrder(kids[i]) + After(items, kids, i)
    ensures AllBelow(Before(items, kids, i), key) && NoneBelow(After(items, kids, i), key)
    ensures Sorted(InOrder(kids[i]))
  {
    FlatAt(items, kids, i);
    SortedParts(Before(items, kids, i), InOrder(kids[i]), After(items, kids, i));
    BeforeBelow(items, kids, key, i);
    AfterNotBelow(items, kids, key, i);
  }

  // ----- a subtree and the rest of its node -----

  /** The offsets of a subtree outside its child i. */
  ghost function Siblings<V>(t: Tree<V>, i: nat): multiset<int>
    requires t.Node? && i < |t.kids|
  {
    multiset{t.off} + KidsOffs(t.kids[..i]) + KidsOffs(t.kids[i + 1..])
  }

  lemma SiblingsAndKid<V>(t: Tree<V>, i: nat, kid: Tree<V>)
    requires t.Node? && i < |t.kids|
    ensures Offs(t) == Offs(t.kids[i]) + Siblings(t, i)
    ensures multiset{t.off} + KidsOffs(t.kids[i := kid]) == Offs(kid) + Siblings(t, i)
  {
    KidsOffsAt(t.kids, i);
    KidsOffsAt(t.kids[i := kid], i);
    assert t.kids[i := kid][..i] == t.kids[..i] && t.kids[i := kid][i + 1..] == t.kids[i + 1..];
  }

  lemma SiblingOffs<V>(t: Tree<V>, i: nat, j: nat)
    requires t.Node? && i < |t.kids| && j < |t.kids| && i != j
    ensures Offs(t.kids[j]) <= Siblings(t, i)
  {
    if j < i {
      KidsOffsAt(t.kids[..i], j);
    } else {
      KidsOffsAt(t.kids[i + 1..], j - i - 1);
    }
  }

  lemma HasBelow<V>(t: Tree<V>, key: Key, i: nat)
    requires t.Node? && |t.kids| == |t.items| + 1 && i <= |t.items|
    requires Sorted(Flat(t.items, t.kids)) && IsLowerBound(t.items, key, i)
    requires i < |t.items| ==> t.items[i].key != key
    ensures Has(InOrder(t), key) == Has(InOrder(t.kids[i]), key)
    ensures Has(InOrder(t), key) ==> Lookup(InOrder(t), key) == Lookup(InOrder(t.kids[i]), key)
  {
    Descend(t.items, t.kids, key, i);
    HasInside(Before(t.items, t.kids, i), InOrder(t.kids[i]), After(t.items, t.kids, i), key);
  }

  lemma OnceTop<V>(t: Tree<V>)
    requires t.Node? && OnceEach(Offs(t))
    ensures t.off !in KidsOffs(t.kids)
  {
    assert Offs(t)[t.off] == 1 + KidsOffs(t.kids)[t.off];
  }

  /** An offset of child i is nowhere else in the tree. */
  lemma OnceKid<V>(t: Tree<V>, i: nat, q: int)
    requires t.Node? && i < |t.kids| && OnceEach(Offs(t)) && q in Offs(t.kids[i])
    ensures OnceEach(Offs(t.kids[i])) && q != t.off
    ensures forall j | 0 <= j < |t.kids| && j != i :: q !in Offs(t.kids[j])
  {
    SiblingsAndKid(t, i, t.kids[i]);
    forall o ensures Offs(t.kids[i])[o] <= 1 {
      assert Offs(t)[o] == Offs(t.kids[i])[o] + Siblings(t, i)[o];
    }
    assert Offs(t)[q] == Offs(t.kids[i])[q] + Siblings(t, i)[q];
    forall j | 0 <= j < |t.kids| && j != i ensures q !in Offs(t.kids[j]) {
      SiblingOffs(t, i, j);
    }
  }
}
