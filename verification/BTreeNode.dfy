/**
 * Nodes of the secondary index (node_t, src/btree.h): fixed arrays of four
 * items and five child offsets, of which a prefix is in use.
 */
module BTreeNode {
  import opened Order
  import opened SearchTree

  const INDEX_SIZE := 4
  const INDEX_MSIZE := INDEX_SIZE / 2

  /** The payload of item_t: its key_size and valset fields. */
  datatype Val = Val(keySize: nat, valset: int)

  /** sizeof(item_t.key). */
  const KEY_FIELD: nat := 64

  /** strlcpy(dst, key, n + 1): at most n characters. */
  function Strlcpy(key: Key, n: nat): Key {
    if |key| <= n then key else key[..n]
  }

  /** An item whose key is copied by its key_size. */
  function Copied(x: Item<Val>): Item<Val> {
    Item(Strlcpy(x.key, x.val.keySize), x.val)
  }

  /** The key fits into its field, and key_size is its length: copying by
      key_size copies all of it. */
  predicate Sized(x: Item<Val>) {
    |x.key| < KEY_FIELD && x.val.keySize == |x.key|
  }

  predicate AllSized(s: seq<Item<Val>>) {
    forall i | 0 <= i < |s| :: Sized(s[i])
  }

  const ZERO_ITEM: Item<Val> := Item("", Val(0, 0))

  /** A node as stored on disk. */
  datatype NodeV = NodeV(cnt: int, items: seq<Item<Val>>, ptr: seq<int>) {
    predicate Ok() {
      |items| == INDEX_SIZE && |ptr| == INDEX_SIZE + 1 && 0 <= cnt <= INDEX_SIZE
    }

    function Keys(): seq<Item<Val>>
      requires Ok()
    {
      items[..cnt]
    }

    function Kids(): seq<int>
      requires Ok()
    {
      ptr[..cnt + 1]
    }
  }

  const ZERO_NODE := NodeV(0, seq(INDEX_SIZE, _ => ZERO_ITEM), seq(INDEX_SIZE + 1, _ => 0))

  /** get: binary search for the first of n items whose key is not below `key`. */
  method Get(key: Key, kv: array<Item<Val>>, n: int) returns (r: int)
    requires 1 <= n <= kv.Length
    ensures 0 <= r <= n
    ensures Sorted(kv[..n]) || InSearchOrder(kv[..n]) ==> IsLowerBound(kv[..n], key, r)
  {
    LessIsStrictTotalOrder();
    if Compare(key, kv[0].key) <= 0 {
      CompareAntisymmetric(key, kv[0].key);
      assert kv[..n][0] == kv[0];
      return 0;
    }
    if Compare(key, kv[n - 1].key) > 0 {
      CompareAntisymmetric(key, kv[n - 1].key);
      assert kv[..n][n - 1] == kv[n - 1];
      return n;
    }
    CompareAntisymmetric(key, kv[0].key);
    CompareAntisymmetric(key, kv[n - 1].key);
    var left, right := 0, n - 1;
    while right - left > 1
      invariant 0 <= left < right <= n - 1
      invariant Less(kv[left].key, key) && !Less(kv[right].key, key)
    {
      var i := (right + left) / 2;
      CompareAntisymmetric(key, kv[i].key);
      if Compare(key, kv[i].key) <= 0 {
        right := i;
      } else {
        left := i;
      }
    }
    assert kv[..n][left] == kv[left] && kv[..n][right] == kv[right];
    return right;
  }

  /** A node in memory. */
  class NodeBuf {
    var cnt: int
    const items: array<Item<Val>>
    const ptr: array<int>

    ghost predicate Valid()
      reads this
    {
      items.Length == INDEX_SIZE && ptr.Length == INDEX_SIZE + 1 && 0 <= cnt <= INDEX_SIZE
    }

    function Value(): NodeV
      reads this, items, ptr
    {
      NodeV(cnt, items[..], ptr[..])
    }

    function Keys(): seq<Item<Val>>
      requires Valid()
      reads this, items
    {
      items[..cnt]
    }

    function Kids(): seq<int>
      requires Valid()
      reads this, ptr
    {
      ptr[..cnt + 1]
    }

    constructor (v: NodeV)
      requires v.Ok()
      ensures Valid() && Value() == v && Keys() == v.Keys() && Kids() == v.Kids()
      ensures fresh(items) && fresh(ptr)
    {
      cnt := v.cnt;
      items := new Item<Val>[INDEX_SIZE](i requires 0 <= i < INDEX_SIZE => v.items[i]);
      ptr := new int[INDEX_SIZE + 1](i requires 0 <= i < INDEX_SIZE + 1 => v.ptr[i]);
    }

    /** Where the search for a key stops in this node, and whether it is there. */
    method Find(key: Key) returns (i: int, hit: bool)
      requires Valid() && 1 <= cnt
      ensures 0 <= i <= |Keys()|
      ensures Sorted(Keys()) || InSearchOrder(Keys()) ==> IsLowerBound(Keys(), key, i)
      ensures hit <==> i < |Keys()| && Keys()[i].key == key
    {
      i := Get(key, items, cnt);
      hit := i < cnt && key == items[i].key;
    }

    /** Shift items i..n-1 and the children right of them up by one. */
    method MakeRoom(i: int, n: int)
      requires Valid() && 0 <= i <= n < INDEX_SIZE
      modifies items, ptr
      ensures forall k | 0 <= k < INDEX_SIZE && !(i < k <= n) :: items[k] == old(items[k])
      ensures forall k | i < k <= n :: items[k] == old(items[k - 1])
      ensures forall k | 0 <= k <= INDEX_SIZE && !(i + 1 < k <= n + 1) :: ptr[k] == old(ptr[k])
      ensures forall k | i + 1 < k <= n + 1 :: ptr[k] == old(ptr[k - 1])
    {
      var j := n;
      while j > i
        invariant i <= j <= n
        invariant forall k | 0 <= k < INDEX_SIZE && !(j < k <= n) :: items[k] == old(items[k])
        invariant forall k | j < k <= n :: items[k] == old(items[k - 1])
        invariant forall k | 0 <= k <= INDEX_SIZE && !(j + 1 < k <= n + 1) :: ptr[k] == old(ptr[k])
        invariant forall k | j + 1 < k <= n + 1 :: ptr[k] == old(ptr[k - 1])
      {
        items[j] := items[j - 1];
        ptr[j + 1] := ptr[j];
        j := j - 1;
      }
    }

    /** Make room at i and store an item with the child right of it. */
    method InsertAt(i: int, x: Item<Val>, right: int)
      requires Valid() && cnt < INDEX_SIZE && 0 <= i <= cnt && Sized(x)
      modifies this, items, ptr
      ensures Valid() && cnt == old(cnt) + 1
      ensures Keys() == old(Keys())[..i] + [x] + old(Keys())[i..]
      ensures Kids() == old(Kids())[..i + 1] + [right] + old(Kids())[i + 1..]
    {
      assert Copied(x) == x;
      hide Copied, Sized;
      MakeRoom(i, cnt);
      items[i] := Copied(x);
      ptr[i + 1] := right;
      cnt := cnt + 1;
    }

    /** Insert into a full node: the fifth item and sixth child that no longer
        fit are returned. */
    method InsertFull(i: int, x: Item<Val>, right: int) returns (last: Item<Val>, lastPtr: int)
      requires Valid() && cnt == INDEX_SIZE && 0 <= i <= INDEX_SIZE && Sized(x)
      modifies items, ptr
      ensures Valid() && cnt == INDEX_SIZE
      ensures Keys() + [last] == old(Keys())[..i] + [x] + old(Keys())[i..]
      ensures Kids() + [lastPtr] == old(Kids())[..i + 1] + [right] + old(Kids())[i + 1..]
    {
      if i == INDEX_SIZE {
        return x, right;
      }
      last, lastPtr := items[INDEX_SIZE - 1], ptr[INDEX_SIZE];
      ghost var ks, ps := Keys()[..i] + [x] + Keys()[i..], Kids()[..i + 1] + [right] + Kids()[i + 1..];
      assert Copied(x) == x;
      MakeRoom(i, INDEX_SIZE - 1);
      items[i] := Copied(x);
      ptr[i + 1] := right;
      assert forall k | 0 <= k < INDEX_SIZE :: items[k] == ks[k];
      assert forall k | 0 <= k <= INDEX_SIZE :: ptr[k] == ps[k];
    }

    /** Split a full node that overflowed by one item and one child: the upper
        half moves to a new node and the middle item goes up. */
    method Halve(last: Item<Val>, lastPtr: int) returns (mid: Item<Val>, right: NodeBuf)
      requires Valid() && cnt == INDEX_SIZE && Sized(last)
      modifies this
      ensures Valid() && right.Valid() && fresh(right) && fresh(right.items) && fresh(right.ptr)
      ensures var all, ps := old(Keys()) + [last], old(Kids()) + [lastPtr];
        && Keys() == all[..INDEX_MSIZE] && Kids() == ps[..INDEX_MSIZE + 1]
        && mid == all[INDEX_MSIZE]
        && right.Keys() == all[INDEX_MSIZE + 1..] && right.Kids() == ps[INDEX_MSIZE + 1..]
    {
      mid := items[INDEX_MSIZE];
      cnt := INDEX_MSIZE;
      right := new NodeBuf(ZERO_NODE);
      right.cnt := INDEX_MSIZE;
      var j := 0;
      while j < INDEX_MSIZE - 1
        modifies right.items, right.ptr
        invariant 0 <= j <= INDEX_MSIZE - 1
        invariant forall k | 0 <= k < j :: right.items[k] == items[k + INDEX_MSIZE + 1]
        invariant forall k | 0 <= k < j :: right.ptr[k] == ptr[k + INDEX_MSIZE + 1]
      {
        right.items[j] := items[j + INDEX_MSIZE + 1];
        right.ptr[j] := ptr[j + INDEX_MSIZE + 1];
        j := j + 1;
      }
      right.ptr[INDEX_MSIZE - 1] := ptr[INDEX_SIZE];
      right.items[INDEX_MSIZE - 1] := Copied(last);
      right.ptr[INDEX_MSIZE] := lastPtr;
    }

    /** Shift the items right of i, and their right children, down by one. */
    method CloseGap(i: int)
      requires Valid() && 0 <= i <= cnt
      modifies items, ptr
      ensures forall k | 0 <= k < i :: items[k] == old(items[k])
      ensures forall k | i <= k < cnt - 1 :: items[k] == old(items[k + 1])
      ensures forall k | 0 <= k <= i :: ptr[k] == old(ptr[k])
      ensures forall k | i < k < cnt :: ptr[k] == old(ptr[k + 1])
    {
      var j := i + 1;
      while j < cnt
        invariant i + 1 <= j && (i < cnt ==> j <= cnt)
        invariant forall k | 0 <= k < i :: items[k] == old(items[k])
        invariant forall k | i <= k < j - 1 && k < cnt :: items[k] == old(items[k + 1])
        invariant forall k | j <= k < cnt :: items[k] == old(items[k])
        invariant forall k | 0 <= k <= i :: ptr[k] == old(ptr[k])
        invariant forall k | i < k < j && k <= cnt :: ptr[k] == old(ptr[k + 1])
        invariant forall k | j <= k <= cnt :: ptr[k] == old(ptr[k])
      {
        items[j - 1] := items[j];
        ptr[j] := ptr[j + 1];
        j := j + 1;
      }
    }

    /** Remove item i and the child right of it; i == cnt drops the last of both. */
    method RemoveAt(i: int)
      requires Valid() && 1 <= cnt && 0 <= i <= cnt
      modifies this, items, ptr
      ensures Valid() && cnt == old(cnt) - 1
      ensures i < old(cnt) ==> Keys() == old(Keys())[..i] + old(Keys())[i + 1..]
      ensures i < old(cnt) ==> Kids() == old(Kids())[..i + 1] + old(Kids())[i + 2..]
      ensures i == old(cnt) ==> Keys() == old(Keys())[..i - 1] && Kids() == old(Kids())[..i]
    {
      ghost var ks, ps, n := Keys(), Kids(), cnt;
      CloseGap(i);
      cnt := cnt - 1;
      if i < n {
        assert forall k | 0 <= k < n - 1 :: items[k] == (ks[..i] + ks[i + 1..])[k];
        assert forall k | 0 <= k < n :: ptr[k] == (ps[..i + 1] + ps[i + 2..])[k];
      } else {
        assert forall k | 0 <= k < n - 1 :: items[k] == ks[k];
        assert forall k | 0 <= k < n :: ptr[k] == ps[k];
      }
    }

    /** Receive an item and a child at the front. */
    method PushFront(x: Item<Val>, left: int)
      requires Valid() && cnt < INDEX_SIZE
      modifies this, items, ptr
      ensures Valid() && cnt == old(cnt) + 1
      ensures Keys() == [x] + old(Keys()) && Kids() == [left] + old(Kids())
    {
      ptr[cnt + 1] := ptr[cnt];
      var j := cnt;
      while j > 0
        invariant 0 <= j <= cnt == old(cnt)
        invariant forall k | 0 <= k < j :: items[k] == old(items[k])
        invariant forall k | j < k <= cnt :: items[k] == old(items[k - 1])
        invariant forall k | 0 <= k < j :: ptr[k] == old(ptr[k])
        invariant forall k | j < k <= cnt + 1 :: ptr[k] == old(ptr[k - 1])
      {
        items[j] := items[j - 1];
        ptr[j] := ptr[j - 1];
        j := j - 1;
      }
      cnt := cnt + 1;
      items[0] := x;
      ptr[0] := left;
    }

    /** Give away the first item and the first child. */
    method PopFront()
      requires Valid() && 1 <= cnt
      modifies this, items, ptr
      ensures Valid() && cnt == old(cnt) - 1
      ensures Keys() == old(Keys())[1..] && Kids() == old(Kids())[1..]
    {
      cnt := cnt - 1;
      var j := 0;
      while j < cnt
        invariant 0 <= j <= cnt == old(cnt) - 1
        invariant forall k | 0 <= k < j :: items[k] == old(items[k + 1]) && ptr[k] == old(ptr[k + 1])
        invariant forall k | j <= k < INDEX_SIZE :: items[k] == old(items[k])
        invariant forall k | j <= k <= INDEX_SIZE :: ptr[k] == old(ptr[k])
      {
        ptr[j] := ptr[j + 1];
        items[j] := items[j + 1];
        j := j + 1;
      }
      ptr[cnt] := ptr[cnt + 1];
    }

    /** Take over all of the right neighbour, separator in between: this node
        holds one item below the minimum, the neighbour exactly the minimum. */
    method Absorb(x: Item<Val>, right: NodeBuf)
      requires Valid() && right.Valid() && right != this
      requires right.items != items && right.ptr != ptr
      requires cnt == INDEX_MSIZE - 1 && right.cnt == INDEX_MSIZE
      modifies this, items, ptr
      ensures Valid() && cnt == INDEX_SIZE
      ensures Keys() == old(Keys()) + [x] + right.Keys()
      ensures Kids() == old(Kids()) + right.Kids()
    {
      items[INDEX_MSIZE - 1] := x;
      ptr[INDEX_MSIZE] := right.ptr[0];
      var j := 0;
      while j < INDEX_MSIZE
        invariant 0 <= j <= INDEX_MSIZE
        invariant items[0] == old(items[0]) && items[1] == x && cnt == old(cnt)
        invariant ptr[0] == old(ptr[0]) && ptr[1] == old(ptr[1])
        invariant forall k | 0 <= k < j :: items[INDEX_MSIZE + k] == right.items[k]
        invariant forall k | 0 <= k <= j :: ptr[INDEX_MSIZE + k] == right.ptr[k]
      {
        items[INDEX_MSIZE + j] := right.items[j];
        ptr[INDEX_MSIZE + j + 1] := right.ptr[j + 1];
        j := j + 1;
      }
      cnt := INDEX_SIZE;
    }
  }

  /** Three buffers that share no storage. */
  ghost predicate Separate(a: NodeBuf, b: NodeBuf, c: NodeBuf) {
    && a != b && a != c && b != c
    && a.items != b.items && a.items != c.items && b.items != c.items
    && a.ptr != b.ptr && a.ptr != c.ptr && b.ptr != c.ptr
  }

  /** Move the last item of l up into node and node's item down into r. */
  method RotateIntoRight(node: NodeBuf, i: int, l: NodeBuf, r: NodeBuf)
    requires Separate(node, l, r) && node.Valid() && l.Valid() && r.Valid()
    requires 0 < i <= node.cnt && 1 <= l.cnt && r.cnt < INDEX_SIZE
    modifies node.items, l, r, r.items, r.ptr
    ensures node.Valid() && l.Valid() && r.Valid() && node.Kids() == old(node.Kids())
    ensures node.Keys() == old(node.Keys())[i - 1 := old(l.Keys())[|old(l.Keys())| - 1]]
    ensures l.cnt == old(l.cnt) - 1 && l.Keys() == old(l.Keys())[..l.cnt] && l.Kids() == old(l.Kids())[..l.cnt + 1]
    ensures r.cnt == old(r.cnt) + 1 && r.Keys() == [old(node.Keys())[i - 1]] + old(r.Keys())
    ensures r.Kids() == [old(l.Kids())[old(l.cnt)]] + old(r.Kids())
  {
    r.PushFront(node.items[i - 1], l.ptr[l.cnt]);
    node.items[i - 1] := l.items[l.cnt - 1];
    l.cnt := l.cnt - 1;
  }

  /** Move the first item of r up into node and node's item down into l. */
  method RotateIntoLeft(node: NodeBuf, i: int, l: NodeBuf, r: NodeBuf)
    requires Separate(node, l, r) && node.Valid() && l.Valid() && r.Valid()
    requires 0 <= i < node.cnt && l.cnt == INDEX_MSIZE - 1 && 1 <= r.cnt
    modifies node.items, l, l.items, l.ptr, r, r.items, r.ptr
    ensures node.Valid() && l.Valid() && r.Valid() && node.Kids() == old(node.Kids())
    ensures node.Keys() == old(node.Keys())[i := old(r.Keys())[0]]
    ensures l.Keys() == old(l.Keys()) + [old(node.Keys())[i]] && l.Kids() == old(l.Kids()) + [old(r.Kids())[0]]
    ensures r.Keys() == old(r.Keys())[1..] && r.Kids() == old(r.Kids())[1..]
  {
    l.items[INDEX_MSIZE - 1] := node.items[i];
    l.ptr[INDEX_MSIZE] := r.ptr[0];
    node.items[i] := r.items[0];
    l.cnt := l.cnt + 1;
    r.PopFront();
  }

  /** Merge r into l around item k of node, and drop that item and the pointer
      to r: k is i, or i - 1 when i is the last child. */
  method JoinInto(node: NodeBuf, i: int, k: int, l: NodeBuf, r: NodeBuf)
    requires Separate(node, l, r) && node.Valid() && l.Valid() && r.Valid()
    requires 0 <= k < node.cnt && (k == i || k + 1 == i == node.cnt)
    requires l.cnt == INDEX_MSIZE - 1 && r.cnt == INDEX_MSIZE
    modifies node, node.items, node.ptr, l, l.items, l.ptr
    ensures node.Valid() && l.Valid() && node.cnt == old(node.cnt) - 1
    ensures l.Keys() == old(l.Keys()) + [old(node.Keys())[k]] + old(r.Keys()) && l.Kids() == old(l.Kids()) + old(r.Kids())
    ensures node.Keys() == old(node.Keys())[..k] + old(node.Keys())[k + 1..]
    ensures node.Kids() == old(node.Kids())[..k + 1] + old(node.Kids())[k + 2..]
  {
    l.Absorb(node.items[k], r);
    node.RemoveAt(i);
  }
}
