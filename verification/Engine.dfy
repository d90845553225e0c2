/**
 * The key engine (src/engine.c): a multiway tree of tables that maps quids to
 * the offsets of their data blocks.
 */
module Engine {
  import opened Order
  import opened SearchTree
  import opened Ownership
  import opened EngineTable
  import opened EngineSpec
  import opened EngineTree
  import opened EngineMarks
  import opened EngineUpdate
  import opened EngineStore
  import opened EngineHeap
  import opened Pages

  /** No table overlaps a data block. */
  ghost predicate Spread(tables: set<int>, b: map<int, Blob>) {
    forall o, p | o in tables && p in b :: o + TABLE_BYTES <= p || p + BLOB_INFO + b[p].len <= o
  }

  /** What insertion below has done to the data blocks. */
  ghost predicate DataStep(b: map<int, Blob>, live: set<int>, b': map<int, Blob>, live': set<int>, data: Bytes, ret: int, exists_: bool) {
    if exists_ then b' == b && live' == live else Stored(b, live, b', live', data, ret)
  }

  /** Every data offset in use is that of a live block, and no two keys share one. */
  ghost predicate DataOwned(s: seq<I>, live: set<int>) {
    && (forall i | 0 <= i < |s| && s[i].val != 0 :: s[i].val in live)
    && forall i, j | 0 <= i < j < |s| && s[i].val != 0 :: s[i].val != s[j].val
  }

  ghost function DataMap(m: map<Key, int>, b: map<int, Blob>): map<Key, Bytes> {
    map k | k in m && m[k] in b :: b[m[k]].data
  }

  /** sizeof(struct _engine_super) and sizeof(struct _engine_dbsuper). */
  const SUPER_SIZE: nat := 20
  const DBSUPER_SIZE: nat := 12

  class Engine {
    const pager: Pager
    const store: TableStore
    const heap: Heap
    var top: int
    var zeroSize: int       // base->stats.zero_size
    ghost var tree: T
    ghost var height: nat

    /** The store and the heap share the first page without overlap. */
    ghost predicate Ground()
      reads store, store.cache, store.bufs, store.arrs, pager, heap, heap.dbcache
    {
      && store.pager == pager && heap.pager == pager
      && store.Valid() && heap.Valid() && heap.top <= pager.offset && Spread(store.disk.Keys, heap.blobs)
    }

    /** Between operations: the tree is well shaped and in search order, every
        table chunk ever allocated is either one of its tables or free, once, and
        every key with data has a block of its own. */
    ghost predicate Valid()
      reads `top, `tree, `height, store, store.cache, store.bufs, store.arrs, pager, heap, heap.dbcache
    {
      && Rooted() && Sorted(Contents())
      && DataOwned(Contents(), heap.live)
    }

    /** The part of the invariant that concerns the tables. */
    ghost predicate Rooted()
      reads `top, `tree, `height, store, store.cache, store.bufs, store.arrs, pager, heap, heap.dbcache
    {
      && Ground()
      && Repr(store.disk, top, tree) && Shape(tree, height, 0, MAX_KEYS)
      && multiset(store.disk.Keys) == Offs(tree) + multiset(store.free)
    }

    /** No table is empty, not even the top one. */
    ghost predicate Trim()
      reads `tree, `height
    {
      Shape(tree, height, 1, MAX_KEYS)
    }

    /** The engine as a map from quid to stored bytes. */
    ghost function Data(): map<Key, Bytes>
      reads `tree, heap
    {
      DataMap(Map(), heap.blobs)
    }

    ghost function Contents(): seq<I>
      reads `tree
    {
      InOrder(tree)
    }

    /** The engine as a map from quid to data offset. */
    ghost function Map(): map<Key, int>
      reads `tree
    {
      ToMap(Contents())
    }

    /** engine_create on an empty page. */
    constructor (pager: Pager)
      requires pager.Valid() && pager.Fits(SUPER_SIZE + DBSUPER_SIZE)
      modifies pager
      ensures Valid() && Trim() && Contents() == [] && heap.blobs == map[] && this.pager == pager && zeroSize == 0
      ensures pager.offset == old(pager.offset) + SUPER_SIZE + DBSUPER_SIZE
    {
      var _ := pager.Alloc(SUPER_SIZE);
      var _ := pager.Alloc(DBSUPER_SIZE);
      this.pager := pager;
      store := new TableStore(pager);
      heap := new Heap(pager);
      top, zeroSize, tree, height := 0, 0, Nil, 0;
    }

    // ----- data blocks and table chunks -----

    /** The byte belongs to the table or the data block at an offset, in use,
        free or waiting to be reused. */
    ghost predicate Occupies(at: int, byte: int)
      reads store, heap
    {
      || (at in store.disk && at <= byte < at + TABLE_BYTES)
      || (at in heap.blobs && at <= byte < at + BLOB_INFO + heap.blobs[at].len)
    }

    /** No byte belongs to two tables, to two data blocks, or to one of each. */
    lemma NoByteTwice(at: int, at': int, byte: int)
      requires Valid() && Occupies(at, byte) && Occupies(at', byte)
      ensures at == at' && !(at in store.disk && at in heap.blobs)
      ensures 0 < byte < pager.offset
    {
      hide TableStore.CacheOk, FreeChain, Repr, Shape, Sorted, InOrder, Offs, DataOwned, Offered;
    }

    lemma BlocksKnown()
      requires Ground()
      ensures InUse(heap.blobs, heap.live) && 0 !in heap.blobs
    {
    }

    /** insert_data, next to the tables. */
    method AddData(data: Bytes) returns (ret: int)
      requires Ground() && pager.Fits(BLOB_INFO + |data|)
      modifies pager, heap, heap.dbcache
      ensures Ground() && Stored(old(heap.blobs), old(heap.live), heap.blobs, heap.live, data, ret)
      ensures pager.Fits(0) && old(pager.offset) <= pager.offset <= old(pager.offset) + BLOB_INFO + |data|
    {
      hide Heap.Valid, TableStore.CacheOk, FreeChain, Stored;
      ghost var b, live, at := heap.blobs, heap.live, pager.offset;
      ret := heap.InsertData(data);
      SpreadStored(store.disk, at, b, live, heap.blobs, heap.live, data, ret);
      DiskOkMonotone(store.disk, at, pager.offset);
    }

    /** alloc_table_chunk, next to the data blocks. */
    method AddTable(ghost live: multiset<int>) returns (offset: int)
      requires Ground() && pager.Fits(TABLE_BYTES) && multiset(store.disk.Keys) == live + multiset(store.free)
      modifies store, store.cache, pager
      ensures Ground() && multiset(store.disk.Keys) == live + multiset{offset} + multiset(store.free)
      ensures SameOn(old(store.disk), store.disk, live) && offset in store.disk && 0 < offset && offset !in live && offset !in store.free
      ensures pager.Fits(0) && old(pager.offset) <= pager.offset <= old(pager.offset) + TABLE_BYTES
      ensures store.bufs <= old(store.bufs) && store.arrs <= old(store.arrs)
    {
      hide Heap.Valid, TableStore.CacheOk, FreeChain, SameOn;
      ghost var keys, at := store.disk.Keys, pager.offset;
      offset := store.AllocTableChunk(live);
      assert Spread(store.disk.Keys, heap.blobs) by {
        BlobsBelow(heap);
      }
    }

    // ----- insertion -----

    /** put_table on a table whose contents have not changed. */
    method PutBack(table: TableBuf, offset: int)
      requires Ground() && store.Owned(table) && offset in store.disk && offset != 0
      requires table.Valid() && table.Value() == store.disk[offset]
      modifies store`bufs, store`arrs, store.cache
      ensures Ground()
      ensures store.bufs <= old(store.bufs) + {table} && store.arrs <= old(store.arrs) + {table.slots}
    {
      hide TableStore.Valid, Heap.Valid, Spread, TableBuf.Value;
      store.PutTable(table, offset);
    }

    /** flush_table. */
    method Flush(table: TableBuf, offset: int)
      requires Ground() && store.Owned(table) && offset in store.disk && offset !in store.free && table.Valid()
      modifies store`disk, store`bufs, store`arrs, store.cache
      ensures Ground() && store.disk == old(store.disk)[offset := table.Value()] && store.disk.Keys == old(store.disk).Keys
      ensures store.bufs <= old(store.bufs) + {table} && store.arrs <= old(store.arrs) + {table.slots}
    {
      hide TableStore.Valid, Heap.Valid, Spread, TableBuf.Value;
      ghost var d := store.disk;
      store.FlushTable(table, offset);
      assert store.disk.Keys == d.Keys;
    }

    /** get_table. */
    method Take(offset: int) returns (table: TableBuf)
      requires Ground() && offset in store.disk
      modifies store`bufs, store`arrs, store.cache
      ensures Ground() && store.Owned(table)
      ensures table.Valid() && table.Value() == store.disk[offset]
      ensures store.bufs <= old(store.bufs) && store.arrs <= old(store.arrs)
      ensures (table in old(store.bufs) || fresh(table)) && (table.slots in old(store.arrs) || fresh(table.slots))
    {
      hide TableStore.Valid, Heap.Valid, Spread, TableBuf.Value;
      table := store.GetTable(offset);
    }

    /** insert_toplevel: the tree grows at the top when its top table was split. */
    method InsertToplevel(quid: Key, meta: Meta, data: Bytes) returns (ret: int, exists_: bool)
      requires Valid() && pager.Fits((height + 1) * TABLE_BYTES + BLOB_INFO + |data|)
      modifies `top, `tree, `height, store, store.cache, store.bufs, store.arrs, pager, heap, heap.dbcache
      ensures Valid()
      ensures exists_ <==> quid in old(Map())
      ensures exists_ ==> Contents() == old(Contents()) && ret == old(Map())[quid] && Data() == old(Data())
      ensures !exists_ ==> Contents() == Put(old(Contents()), Item(quid, ret)) && Map() == old(Map())[quid := ret]
      ensures !exists_ ==> (ret != 0 <==> data != []) && Data() == if data == [] then old(Data()) else old(Data())[quid := data]
      ensures exists_ ==> store.disk == old(store.disk) && tree == old(tree)
      ensures !exists_ ==> MetaOf(FindSlot(store.disk, tree, quid)) == [meta]
      ensures !exists_ ==>
        Remarked(old(store.disk), old(tree), store.disk, tree, Map().Keys, Raised(old(tree), quid), meta)
      ensures old(Trim()) ==> Trim()
      ensures fresh(store.bufs - old(store.bufs)) && fresh(store.arrs - old(store.arrs))
    {
      hide Ground, Repr, ReprKids, Shape, Offs, KidsOffs, InOrder, Sorted, InsertOutcome, DataStep, Stored, ToMap, Put, Has, Lookup, DataOwned,
           MarksStep, Raised, Remarked, FindSlot, MetaOf;
      ghost var before, b, live, d, t, p := Contents(), heap.blobs, heap.live, store.disk, tree, top;
      BlocksKnown();
      ret, exists_ := InsertTop(quid, meta, data);
      BlocksKnown();
      InsertMeaning(before, Contents(), b, live, heap.blobs, heap.live, quid, data, ret, exists_);
      if !exists_ {
        QuidRaised(d, p, t, quid);
        InsertedMetas(d, p, t, store.disk, top, tree, quid, ret, meta);
      }
    }

    method InsertTop(quid: Key, meta: Meta, data: Bytes) returns (ret: int, exists_: bool)
      requires Valid() && pager.Fits((height + 1) * TABLE_BYTES + BLOB_INFO + |data|)
      modifies `top, `tree, `height, store, store.cache, store.bufs, store.arrs, pager, heap, heap.dbcache
      ensures Rooted() && DataStep(old(heap.blobs), old(heap.live), heap.blobs, heap.live, data, ret, exists_)
      ensures if exists_ then Has(old(Contents()), quid) && Contents() == old(Contents()) && ret == Lookup(old(Contents()), quid)
              else !Has(old(Contents()), quid) && Contents() == Put(old(Contents()), Item(quid, ret))
      ensures old(Trim()) ==> Trim()
      ensures if exists_ then store.disk == old(store.disk) && tree == old(tree)
              else MarksStep(old(store.disk), old(tree), store.disk, tree, Raised(old(tree), quid), meta)
      ensures fresh(store.bufs - old(store.bufs)) && fresh(store.arrs - old(store.arrs))
    {
      hide Ground, Repr, ReprKids, Shape, Offs, KidsOffs, InOrder, Sorted, InsertOutcome, DataStep, Stored, Put, Has, Lookup, DataOwned,
           Marked, MarkedUnder, MarksStep, MarksTopped, InsertMarks, TopTaken, Raised;
      NodeFacts(store.disk, top, tree, height, 0, MAX_KEYS);
      if top != 0 {
        ghost var t', t, lo := tree, tree, if Trim() then 1 else 0;
        ret, exists_, t' := InsertTable(top, quid, meta, data, tree, height, lo, multiset{});
        RootStep(t, t', quid, ret, exists_);
        TopRoom(t, t', height, lo, quid, ret, exists_);
        ghost var d := store.disk;
        SplitTop(meta, t', lo);
        TopMarks(old(store.disk), t, d, t', store.disk, tree, quid, exists_, meta);
      } else {
        exists_ := false;
        ret := AddData(data);
        NilRepr(store.disk, 0);
        InsertHere(quid, ret);
        DataStepNew(old(heap.blobs), old(heap.live), heap.blobs, heap.live, data, ret);
        FirstMarks(old(store.disk), quid);
        NewTop(Item(quid, ret), meta, 0, Nil, Nil, 0);
        FirstStep(old(store.disk), store.disk, tree, quid, meta);
      }
    }

    /** The part of insert_toplevel that splits the top table when it is full. */
    method SplitTop(meta: Meta, ghost t: T, ghost lo: int)
      requires Ground() && Repr(store.disk, top, t) && t.Node? && Shape(t, height, lo, MAX_KEYS + 1) && 0 <= lo <= 1
      requires multiset(store.disk.Keys) == Offs(t) + multiset(store.free)
      requires pager.Fits(2 * TABLE_BYTES)
      modifies `top, `tree, `height, store, store.cache, store.bufs, store.arrs, pager
      ensures Rooted() && Contents() == InOrder(t) && Shape(tree, height, lo, MAX_KEYS)
      ensures TopTaken(old(store.disk), t, store.disk, tree, meta)
      ensures fresh(store.bufs - old(store.bufs)) && fresh(store.arrs - old(store.arrs))
    {
      hide Ground, Repr, ReprKids, Shape, Offs, KidsOffs, InOrder, TopTaken;
      NodeFacts(store.disk, top, t, height, lo, MAX_KEYS + 1);
      var table := Take(top);
      ReplaceTop(table, meta, t, lo);
    }

    method ReplaceTop(table: TableBuf, meta: Meta, ghost t: T, ghost lo: int)
      requires Ground() && Repr(store.disk, top, t) && t.Node? && Shape(t, height, lo, MAX_KEYS + 1) && 0 <= lo <= 1
      requires store.Owned(table) && table.Valid() && top in store.disk && table.Value() == store.disk[top]
      requires multiset(store.disk.Keys) == Offs(t) + multiset(store.free)
      requires pager.Fits(2 * TABLE_BYTES)
      modifies `top, `tree, `height, store, store.cache, pager, table
      ensures Rooted() && Contents() == InOrder(t) && Shape(tree, height, lo, MAX_KEYS)
      ensures TopTaken(old(store.disk), t, store.disk, tree, meta)
      ensures fresh(store.bufs - old(store.bufs) - {table}) && fresh(store.arrs - old(store.arrs) - {table.slots})
    {
      hide Ground, Repr, ReprKids, Shape, Offs, KidsOffs, InOrder, Marked, MarkedUnder, MarksStep, MarksSplit, MarksTopped;
      NodeFacts(store.disk, top, t, height, lo, MAX_KEYS + 1);
      assert table.Keys() == t.items;
      if table.size < TABLE_SIZE - 1 {
        PutBack(table, top);
        RootTight(t, height, lo);
        tree := t;
      } else {
        var pivot, right;
        ghost var l, r;
        pivot, right, l, r := SplitTable(top, table, t, height, lo, multiset{});
        ghost var d := store.disk;
        NewTop(pivot, meta, right, l, r, height);
        SplitTopStep(old(store.disk), t, d, l, pivot.key, r, store.disk, tree, meta);
        RootLoose(tree, height, 1, lo);
      }
    }

    /** The part of insert_toplevel that creates a new top table. */
    method NewTop(x: I, meta: Meta, right: int, ghost l: T, ghost r: T, ghost h: nat)
      requires Ground() && Repr(store.disk, top, l) && Repr(store.disk, right, r)
      requires multiset(store.disk.Keys) == Offs(l) + Offs(r) + multiset(store.free)
      requires Shape(l, h, 1, MAX_KEYS) && Shape(r, h, 1, MAX_KEYS) && pager.Fits(TABLE_BYTES)
      modifies `top, `tree, `height, store, store.cache, pager
      ensures Rooted() && Trim() && Contents() == InOrder(l) + [x] + InOrder(r)
      ensures MarksTopped(old(store.disk), l, r, store.disk, tree, x.key, meta)
      ensures fresh(store.bufs - old(store.bufs)) && fresh(store.arrs - old(store.arrs))
    {
      hide Ground, Repr, ReprKids, Shape, Offs, KidsOffs, InOrder, SameOn, Marked, MarkedUnder, MarksTopped;
      ghost var live, d := Offs(l) + Offs(r), store.disk;
      var table := new TableBuf.Top(x.key, meta, x.val, top, right);
      KidsOffsPair(l, r);
      var offset := AddTable(live);
      ReprPair(d, store.disk, top, l, right, r);
      ToppedIs(d, store.disk, top, l, right, r, offset, x, table.Value(), meta);
      top, tree, height := offset, Node(offset, [x], [l, r]), h + 1;
      RootGrown(offset, l, x, r, h);
      RootLoose(tree, height, 1, 0);
      d := store.disk;
      Flush(table, offset);
      TableWritten(d, tree, table.Value());
    }

    /** The head of every engine routine: load a table and search it. */
    method FindIn(tableOffset: int, quid: Key, ghost t: T, ghost h: nat, ghost lo: int) returns (table: TableBuf, i: int, hit: bool)
      requires Ground() && Repr(store.disk, tableOffset, t) && Shape(t, h, lo, MAX_KEYS) && t.Node? && Sorted(InOrder(t))
      modifies store`bufs, store`arrs, store.cache
      ensures Ground() && store.Owned(table)
      ensures store.bufs <= old(store.bufs) && store.arrs <= old(store.arrs)
      ensures (table in old(store.bufs) || fresh(table)) && (table.slots in old(store.arrs) || fresh(table.slots))
      ensures table.Valid() && table.Value() == store.disk[tableOffset]
      ensures table.Keys() == t.items && ReprKids(store.disk, table.Kids(), t.kids)
      ensures 0 <= i <= |t.items| && IsLowerBound(t.items, quid, i)
      ensures hit <==> i < |t.items| && t.items[i].key == quid
      ensures hit ==> i < table.slots.Length && table.slots[i].offset == t.items[i].val
      ensures !hit ==> Searched(table, t, h, lo, i, quid)
      ensures Sorted(InOrder(t.kids[i]))
    {
      hide Ground, Repr, ReprKids, Shape, InOrder, Sorted, IsLowerBound;
      NodeFacts(store.disk, tableOffset, t, h, lo, MAX_KEYS);
      SortedTop(t);
      table := Take(tableOffset);
      i, hit := table.Find(quid);
      LowerBoundRange(table.Keys(), quid, i);
      assert i < table.size ==> table.Keys()[i].key == table.slots[i].quid;
    }

    /** insert_table: put a key into the subtree at table_offset. The top table of
        the subtree may be left full, for the caller to split. */
    method InsertTable(tableOffset: int, quid: Key, meta: Meta, data: Bytes, ghost t: T, ghost h: nat, ghost lo: int, ghost rest: multiset<int>)
      returns (ret: int, exists_: bool, ghost t': T)
      requires Ground() && Repr(store.disk, tableOffset, t) && Shape(t, h, lo, MAX_KEYS) && t.Node? && Sorted(InOrder(t))
      requires multiset(store.disk.Keys) == Offs(t) + rest + multiset(store.free)
      requires pager.Fits(h * TABLE_BYTES + BLOB_INFO + |data|)
      modifies store, store.cache, store.bufs, store.arrs, pager, heap, heap.dbcache
      ensures Ground() && SameOn(old(store.disk), store.disk, rest)
      ensures multiset(store.disk.Keys) == Offs(t') + rest + multiset(store.free)
      ensures Repr(store.disk, tableOffset, t') && t'.Node? && Shape(t', h, lo, MAX_KEYS + 1)
      ensures InsertOutcome(t, t', quid, ret, exists_) && InsertMarks(old(store.disk), t, store.disk, t', quid, exists_, meta)
      ensures DataStep(old(heap.blobs), old(heap.live), heap.blobs, heap.live, data, ret, exists_)
      ensures pager.Fits(0) && old(pager.offset) <= pager.offset
      ensures pager.offset + TABLE_BYTES <= old(pager.offset) + h * TABLE_BYTES + BLOB_INFO + |data|
      ensures fresh(store.bufs - old(store.bufs)) && fresh(store.arrs - old(store.arrs))
      decreases h, 1
    {
      hide *;
      NodeFacts(store.disk, tableOffset, t, h, lo, MAX_KEYS);
      var table, i, hit := FindIn(tableOffset, quid, t, h, lo);
      if hit {
        ret, exists_, t' := table.slots[i].offset, true, t;
        InsertFound(t, quid, i);
        ShapeMonotone(t, h, lo, MAX_KEYS, h, lo, MAX_KEYS + 1);
        PutBack(table, tableOffset);
        SameOnSelf(store.disk, rest);
        MarksNone(store.disk, t, quid, meta);
        DataStepNone(heap.blobs, heap.live, data, ret);
        pager.FitsLess(h * TABLE_BYTES + BLOB_INFO + |data|, 0);
        return;
      }
      ret, exists_, t' := InsertUnder(tableOffset, table, i, quid, meta, data, t, h, lo, rest);
    }

    /** The part of insert_table after an unsuccessful search in the table itself. */
    method InsertUnder(tableOffset: int, table: TableBuf, i: int, quid: Key, meta: Meta, data: Bytes,
                       ghost t: T, ghost h: nat, ghost lo: int, ghost rest: multiset<int>)
      returns (ret: int, exists_: bool, ghost t': T)
      requires Ground() && Searched(table, t, h, lo, i, quid) && t.off == tableOffset && Sorted(InOrder(t.kids[i]))
      requires store.Owned(table) && 0 < tableOffset
      requires tableOffset in store.disk && table.Value() == store.disk[tableOffset] && ReprKids(store.disk, table.Kids(), t.kids)
      requires multiset(store.disk.Keys) == multiset{tableOffset} + KidsOffs(t.kids) + rest + multiset(store.free)
      requires pager.Fits(h * TABLE_BYTES + BLOB_INFO + |data|)
      modifies store, store.cache, store.bufs, store.arrs, pager, heap, heap.dbcache, table, table.slots
      ensures Ground() && SameOn(old(store.disk), store.disk, rest)
      ensures multiset(store.disk.Keys) == Offs(t') + rest + multiset(store.free)
      ensures Repr(store.disk, tableOffset, t') && t'.Node? && Shape(t', h, lo, MAX_KEYS + 1)
      ensures InsertOutcome(t, t', quid, ret, exists_) && InsertMarks(old(store.disk), t, store.disk, t', quid, exists_, meta)
      ensures DataStep(old(heap.blobs), old(heap.live), heap.blobs, heap.live, data, ret, exists_)
      ensures pager.Fits(0) && old(pager.offset) <= pager.offset
      ensures pager.offset + TABLE_BYTES <= old(pager.offset) + h * TABLE_BYTES + BLOB_INFO + |data|
      ensures fresh(store.bufs - old(store.bufs) - {table}) && fresh(store.arrs - old(store.arrs) - {table.slots})
      decreases h, 0
    {
      hide Ground, Repr, ReprKids, Shape, Offs, KidsOffs, Siblings, InOrder, Sorted, Spread, InsertOutcome, DataStep, IsLowerBound, Stored, Grown, Searched,
           InsertMarks, ChildTaken, Marked, MarkedUnder, MarksStep, MarksTaken;
      SearchedFacts(table, t, h, lo, i, quid);
      ghost var d := store.disk;
      var left := table.slots[i].child;
      ghost var ps := table.Kids();
      assert ps[i] == left && ps[i := left] == ps;
      KidFacts(store.disk, ps, t, h, lo, MAX_KEYS, i);
      if left != 0 {
        ghost var kid;
        ret, exists_, kid := InsertTable(left, quid, meta, data, t.kids[i], h - 1, 1, rest + Siblings(t, i));
        StepBack(d, store.disk, ps, t, i, left, kid, multiset{}, store.free, rest);
        ghost var d1 := store.disk;
        t' := CheckChild(tableOffset, table, i, left, quid, meta, ret, exists_, t, h, lo, kid, rest);
        KidRoom(t, h, lo, i, kid, quid, ret, exists_);
        SameOnPart(d, d1, rest, Siblings(t, i));
        UnderMarks(d, t, i, quid, exists_, d1, kid, store.disk, t', meta);
      } else {
        ret, exists_, t' := InsertLeaf(tableOffset, table, i, quid, meta, data, t, h, lo, rest);
      }
    }

    /** The part of insert_table that stores the data where there is no child. */
    method InsertLeaf(tableOffset: int, table: TableBuf, i: int, quid: Key, meta: Meta, data: Bytes,
                      ghost t: T, ghost h: nat, ghost lo: int, ghost rest: multiset<int>)
      returns (ret: int, exists_: bool, ghost t': T)
      requires Ground() && Searched(table, t, h, lo, i, quid) && t.off == tableOffset && tableOffset in store.disk
      requires store.Owned(table) && 0 < tableOffset && table.Value() == store.disk[tableOffset]
      requires t.kids[i] == Nil && ReprKids(store.disk, table.Kids(), t.kids)
      requires multiset(store.disk.Keys) == multiset{tableOffset} + KidsOffs(t.kids) + rest + multiset(store.free)
      requires pager.Fits(BLOB_INFO + |data|)
      modifies store, store.cache, store.bufs, store.arrs, pager, heap, heap.dbcache, table, table.slots
      ensures Ground() && SameOn(old(store.disk), store.disk, rest)
      ensures multiset(store.disk.Keys) == Offs(t') + rest + multiset(store.free)
      ensures Repr(store.disk, tableOffset, t') && t'.Node? && Shape(t', h, lo, MAX_KEYS + 1)
      ensures InsertOutcome(t, t', quid, ret, exists_) && InsertMarks(old(store.disk), t, store.disk, t', quid, exists_, meta)
      ensures DataStep(old(heap.blobs), old(heap.live), heap.blobs, heap.live, data, ret, exists_)
      ensures pager.Fits(0) && old(pager.offset) <= pager.offset <= old(pager.offset) + BLOB_INFO + |data|
      ensures fresh(store.bufs - old(store.bufs) - {table}) && fresh(store.arrs - old(store.arrs) - {table.slots})
    {
      hide Ground, Repr, ReprKids, Shape, Offs, KidsOffs, Siblings, InOrder, Sorted, Spread, InsertOutcome, DataStep, IsLowerBound, Stored, Grown, Searched,
           InsertMarks, ChildTaken, Marked, MarkedUnder, MarksStep, MarksTaken;
      SearchedFacts(table, t, h, lo, i, quid);
      NilRepr(store.disk, h - 1);
      exists_ := false;
      ret := AddData(data);
      var x := Item(quid, ret);
      assert t.kids[i := Nil] == t.kids;
      assert table.Kids()[i] == 0 by {
        NilKid(store.disk, table.Kids(), t.kids, i);
      }
      TakeIn(tableOffset, table, i, x, meta, 0, 0, t, Nil, Nil, rest);
      t' := Grown(t, i, Nil, x, Nil);
      LeafOutcome(t, h, lo, i, quid, ret);
      GrownTop(t, i, Nil, x, Nil);
      LeafMarks(old(store.disk), t, i, quid, x, store.disk, t', meta);
      DataStepNew(old(heap.blobs), old(heap.live), heap.blobs, heap.live, data, ret);
    }

    /** The part of insert_table after the recursion into child i. */
    method CheckChild(tableOffset: int, table: TableBuf, i: int, left: int, quid: Key, meta: Meta, ret: int, exists_: bool,
                      ghost t: T, ghost h: nat, ghost lo: int, ghost kid: T, ghost rest: multiset<int>)
      returns (ghost t': T)
      requires Ground() && Searched(table, t, h, lo, i, quid) && t.off == tableOffset && 1 < h
      requires store.Owned(table) && 0 < tableOffset
      requires tableOffset in store.disk && table.Value() == store.disk[tableOffset]
      requires left != 0 && table.Kids()[i] == left && ReprKids(store.disk, table.Kids(), t.kids[i := kid])
      requires kid.Node? && Shape(kid, h - 1, 1, MAX_KEYS + 1) && InsertOutcome(t.kids[i], kid, quid, ret, exists_)
      requires multiset(store.disk.Keys) == multiset{tableOffset} + KidsOffs(t.kids[i := kid]) + rest + multiset(store.free)
      requires pager.Fits(TABLE_BYTES)
      modifies store, store.cache, store.bufs, store.arrs, pager, table, table.slots
      ensures Ground() && SameOn(old(store.disk), store.disk, rest)
      ensures multiset(store.disk.Keys) == Offs(t') + rest + multiset(store.free)
      ensures Repr(store.disk, tableOffset, t') && t'.Node? && Shape(t', h, lo, MAX_KEYS + 1)
      ensures InsertOutcome(t, t', quid, ret, exists_) && ChildTaken(old(store.disk), t, i, kid, store.disk, t', meta)
      ensures pager.Fits(0) && old(pager.offset) <= pager.offset <= old(pager.offset) + TABLE_BYTES
      ensures fresh(store.bufs - old(store.bufs) - {table}) && fresh(store.arrs - old(store.arrs) - {table.slots})
    {
      hide Ground, Repr, ReprKids, Shape, Offs, KidsOffs, Siblings, InOrder, Sorted, Spread, InsertOutcome, DataStep, IsLowerBound, Stored, Grown, Searched, SameOn, ChildTaken;
      SearchedFacts(table, t, h, lo, i, quid);
      UnderTop(store.disk, table.Kids(), t, i, kid, h, left);
      var child := Take(left);
      t' := AfterChild(tableOffset, table, i, left, child, quid, meta, ret, exists_, t, h, lo, kid, rest);
    }

    /** Look at child i after the recursion, and split it when it is full. */
    method AfterChild(tableOffset: int, table: TableBuf, i: int, left: int, child: TableBuf, quid: Key, meta: Meta, ret: int, exists_: bool,
                      ghost t: T, ghost h: nat, ghost lo: int, ghost kid: T, ghost rest: multiset<int>)
      returns (ghost t': T)
      requires Ground() && Searched(table, t, h, lo, i, quid) && t.off == tableOffset && 1 < h
      requires Separate(store, table, child) && 0 < tableOffset && Repr(store.disk, left, kid)
      requires left in store.disk && child.Valid() && child.Value() == store.disk[left] && child.Keys() == kid.items
      requires tableOffset in store.disk && table.Value() == store.disk[tableOffset]
      requires left != 0 && table.Kids()[i] == left && ReprKids(store.disk, table.Kids(), t.kids[i := kid])
      requires kid.Node? && Shape(kid, h - 1, 1, MAX_KEYS + 1) && InsertOutcome(t.kids[i], kid, quid, ret, exists_)
      requires multiset(store.disk.Keys) == multiset{tableOffset} + KidsOffs(t.kids[i := kid]) + rest + multiset(store.free)
      requires pager.Fits(TABLE_BYTES)
      modifies store, store.cache, pager, table, table.slots, child
      ensures Ground() && SameOn(old(store.disk), store.disk, rest)
      ensures multiset(store.disk.Keys) == Offs(t') + rest + multiset(store.free)
      ensures Repr(store.disk, tableOffset, t') && t'.Node? && Shape(t', h, lo, MAX_KEYS + 1)
      ensures InsertOutcome(t, t', quid, ret, exists_) && ChildTaken(old(store.disk), t, i, kid, store.disk, t', meta)
      ensures pager.Fits(0) && old(pager.offset) <= pager.offset <= old(pager.offset) + TABLE_BYTES
      ensures fresh(store.bufs - old(store.bufs) - {table, child}) && fresh(store.arrs - old(store.arrs) - {table.slots, child.slots})
    {
      hide Ground, Repr, ReprKids, Shape, Offs, KidsOffs, Siblings, InOrder, Sorted, Spread, InsertOutcome, DataStep, IsLowerBound, Stored, Grown, Searched, SameOn,
           Marked, MarkedUnder, MarksStep;
      SearchedFacts(table, t, h, lo, i, quid);
      ghost var t1 := Node(tableOffset, t.items, t.kids[i := kid]);
      if child.size < TABLE_SIZE - 1 {
        PutBack(table, tableOffset);
        PutBack(child, left);
        SameOnSelf(store.disk, rest);
        t' := t1;
        UnsplitOutcome(store.disk, t, h, lo, i, kid, quid, ret, exists_);
      } else {
        FullIsNew(t, h, lo, i, kid, quid, ret, exists_);
        t' := SplitChild(tableOffset, table, i, left, child, meta, t, h, lo, kid, rest);
        GrownOutcome(t, h, lo, i, kid, t', quid, ret);
      }
    }

    /** The part of insert_table that splits child i and takes in its pivot. */
    method SplitChild(tableOffset: int, table: TableBuf, i: int, left: int, child: TableBuf, meta: Meta,
                      ghost t: T, ghost h: nat, ghost lo: int, ghost kid: T, ghost rest: multiset<int>)
      returns (ghost t': T)
      requires Ground() && t.Node? && t.off == tableOffset && 1 < h && |t.kids| == |t.items| + 1 && 0 <= i <= |t.items| <= MAX_KEYS
      requires Separate(store, table, child) && table.Valid() && table.Keys() == t.items
      requires tableOffset in store.disk && 0 < tableOffset && table.Value() == store.disk[tableOffset]
      requires table.Kids()[i] == left && ReprKids(store.disk, table.Kids(), t.kids[i := kid]) && Repr(store.disk, left, kid)
      requires child.Valid() && left in store.disk && child.Value() == store.disk[left] && child.size == TABLE_SIZE - 1
      requires kid.Node? && Shape(kid, h - 1, 1, MAX_KEYS + 1)
      requires multiset(store.disk.Keys) == multiset{tableOffset} + KidsOffs(t.kids[i := kid]) + rest + multiset(store.free)
      requires pager.Fits(TABLE_BYTES)
      modifies store, store.cache, pager, table, table.slots, child
      ensures Ground() && SameOn(old(store.disk), store.disk, rest)
      ensures multiset(store.disk.Keys) == Offs(t') + rest + multiset(store.free)
      ensures Repr(store.disk, tableOffset, t') && GrownFrom(t, t', h, i, kid) && |kid.items| == MAX_KEYS + 1
      ensures ChildTaken(old(store.disk), t, i, kid, store.disk, t', meta)
      ensures pager.Fits(0) && old(pager.offset) <= pager.offset <= old(pager.offset) + TABLE_BYTES
      ensures fresh(store.bufs - old(store.bufs) - {table, child}) && fresh(store.arrs - old(store.arrs) - {table.slots, child.slots})
    {
      hide Ground, Repr, ReprKids, Shape, Offs, KidsOffs, Siblings, InOrder, Sorted, Grown,
           Marked, MarkedUnder, MarksStep, MarksTaken, MarksSplit;
      ghost var t1, ps, d := Node(tableOffset, t.items, t.kids[i := kid]), table.Kids(), store.disk;
      SiblingsAndKid(t1, i, kid);
      assert t1.kids[i := kid] == t1.kids;
      var pivot, right;
      ghost var l, r;
      pivot, right, l, r := SplitTable(left, child, kid, h - 1, 1, rest + Siblings(t1, i));
      StepBack(d, store.disk, ps, t1, i, left, l, Offs(r), store.free, rest);
      assert ps[i := left] == ps && t1.kids[i := l] == t.kids[i := l];
      ghost var d1 := store.disk;
      TakeIn(tableOffset, table, i, pivot, meta, left, right, t, l, r, rest);
      t' := Grown(t, i, l, pivot, r);
      assert GrownInto(t, t', h, i, kid, l, pivot, r);
      GrownTop(t, i, l, pivot, r);
      SameOnPart(d, d1, rest, Siblings(t1, i));
      SplitStep(d, t1, i, kid, d1, l, pivot.key, r, store.disk, t', meta);
    }

    /** split_table, and flush_table on the lower half: the pivot and the new
        upper half are handed up. */
    method SplitTable(tableOffset: int, table: TableBuf, ghost t: T, ghost h: nat, ghost lo: int, ghost rest: multiset<int>)
      returns (pivot: I, right: int, ghost l: T, ghost r: T)
      requires Ground() && Repr(store.disk, tableOffset, t) && t.Node? && Shape(t, h, lo, MAX_KEYS + 1)
      requires store.Owned(table) && table.Valid() && table.size == TABLE_SIZE - 1
      requires tableOffset in store.disk && table.Value() == store.disk[tableOffset]
      requires multiset(store.disk.Keys) == Offs(t) + rest + multiset(store.free) && pager.Fits(TABLE_BYTES)
      modifies store, store.cache, pager, table
      ensures Ground() && SameOn(old(store.disk), store.disk, rest)
      ensures multiset(store.disk.Keys) == Offs(l) + Offs(r) + rest + multiset(store.free)
      ensures l.Node? && Repr(store.disk, tableOffset, l) && Repr(store.disk, right, r)
      ensures Shape(l, h, 1, MAX_KEYS) && Shape(r, h, 1, MAX_KEYS)
      ensures InOrder(t) == InOrder(l) + [pivot] + InOrder(r)
      ensures |t.items| == MAX_KEYS + 1 && pivot == t.items[PIVOT] && MarksSplit(old(store.disk), t, store.disk, l, r, pivot.key)
      ensures pager.Fits(0) && old(pager.offset) <= pager.offset <= old(pager.offset) + TABLE_BYTES
      ensures fresh(store.bufs - old(store.bufs) - {table}) && fresh(store.arrs - old(store.arrs) - {table.slots})
    {
      hide Ground, Repr, ReprKids, Shape, Offs, KidsOffs, Siblings, InOrder, Sorted, InsertOutcome, DataStep, IsLowerBound, Stored, Grown, Pager.Valid, Heap.Valid, TableStore.Valid, Table.Keys, Table.Kids, Table.Marks,
           Marked, MarkedUnder, MarksSplit;
      NodeFacts(store.disk, tableOffset, t, h, lo, MAX_KEYS + 1);
      ghost var ps, live := table.Kids(), Offs(t) + rest;
      var upper;
      pivot, upper := table.Halve();
      ghost var d0 := store.disk;
      right := AddTable(live);
      l, r := LowerHalf(t), UpperHalf(t, right);
      HalvesMean(t, h, lo, right);
      ghost var d := store.disk;
      SplitReady(d0, d, ps, t, right, rest, store.free, table.Value(), upper.Value());
      Flush(upper, right);
      Flush(table, tableOffset);
      HalvesWritten(d, l, table.Value(), r, upper.Value());
    }

    /** The end of insert_table: put a key between child i and its new right
        neighbour. */
    method TakeIn(tableOffset: int, table: TableBuf, i: int, x: I, meta: Meta, left: int, right: int,
                  ghost t: T, ghost l: T, ghost r: T, ghost rest: multiset<int>)
      requires Ground() && store.Owned(table) && table.Valid() && t.Node? && t.off == tableOffset && |t.kids| == |t.items| + 1
      requires table.Keys() == t.items && 0 <= i <= |t.items| <= MAX_KEYS && 0 < tableOffset && tableOffset in store.disk
      requires ReprKids(store.disk, table.Kids(), t.kids[i := l]) && table.Kids()[i] == left && Repr(store.disk, right, r)
      requires multiset(store.disk.Keys) == multiset{tableOffset} + KidsOffs(t.kids[i := l]) + Offs(r) + rest + multiset(store.free)
      modifies store, store.cache, table, table.slots
      ensures Ground() && SameOn(old(store.disk), store.disk, rest) && store.disk.Keys == old(store.disk.Keys)
      ensures multiset(store.disk.Keys) == Offs(Grown(t, i, l, x, r)) + rest + multiset(store.free)
      ensures Repr(store.disk, tableOffset, Grown(t, i, l, x, r))
      ensures store.free == old(store.free)
      ensures MarksTaken(old(store.disk), old(table.Value()), t.kids[i := l], r, store.disk, Grown(t, i, l, x, r), x.key, meta)
      ensures fresh(store.bufs - old(store.bufs) - {table}) && fresh(store.arrs - old(store.arrs) - {table.slots})
    {
      hide Ground, Repr, ReprKids, Shape, Offs, KidsOffs, Siblings, InOrder, Sorted, InsertOutcome, DataStep, IsLowerBound, Stored, Grown, MarksTaken;
      ghost var d, t' := store.disk, Grown(t, i, l, x, r);
      OnItsOwn(store.disk.Keys, tableOffset, KidsOffs(t.kids[i := l]), Offs(r), rest, multiset(store.free));
      GrownOffs(t, i, l, x, r);
      ReprKidsGrown(store.disk, table.Kids(), t, i, left, l, x, right, r);
      GrownTop(t, i, l, x, r);
      ghost var v, ps := table.Value(), table.Kids();
      table.Insert(i, x.key, meta, x.val, left, right);
      TakenIs(d, v, ps, t, i, l, x, right, r, table.Value(), meta);
      Flush(table, tableOffset);
      TableWritten(d, t', table.Value());
    }

    // ----- removal -----

    /** free_index_chunk. */
    method Release(offset: int, ghost live: multiset<int>)
      requires Ground() && multiset(store.disk.Keys) == live + multiset{offset} + multiset(store.free)
      requires offset in store.disk && store.disk[offset].size < TABLE_SIZE - 1
      modifies store, store.cache, store.bufs, store.arrs
      ensures Ground() && store.free == [offset] + old(store.free)
      ensures store.disk.Keys == old(store.disk).Keys && SameOn(old(store.disk), store.disk, live)
      ensures fresh(store.bufs - old(store.bufs)) && fresh(store.arrs - old(store.arrs))
    {
      hide TableStore.Valid, Heap.Valid, Spread, SameOn;
      store.FreeIndexChunk(offset, live);
    }

    /** flush_table on a table of the tree: t was there, t' is now. */
    method Write(table: TableBuf, tableOffset: int, ghost d: map<int, Table>, ghost t: T, ghost t': T, ghost rest: multiset<int>,
                 ghost g: Key, ghost heirs: set<Key>, ghost m0: Meta)
      requires Loaded(table, t', rest) && t'.Node? && t'.off == tableOffset && t.Node? && t.off in d
      requires UnderGone(d, d[t.off], t.kids, store.disk, table.Value(), t'.kids, g, heirs, m0)
      modifies store`disk, store`bufs, store`arrs, store.cache
      ensures Ground() && SameOn(old(store.disk), store.disk, rest) && Repr(store.disk, tableOffset, t')
      ensures multiset(store.disk.Keys) == Offs(t') + rest + multiset(store.free)
      ensures MarksGone(d, t, store.disk, t', g, heirs, m0)
      ensures store.bufs <= old(store.bufs) + {table} && store.arrs <= old(store.arrs) + {table.slots}
    {
      hide Ground, Repr, ReprKids, Offs, KidsOffs, UnderGone, MarksGone;
      ghost var d1 := store.disk;
      OnItsOwn(store.disk.Keys, tableOffset, KidsOffs(t'.kids), multiset{}, rest, multiset(store.free));
      GoneWritten(d, t, d1, table.Value(), t', g, heirs, m0);
      Flush(table, tableOffset);
      TableWritten(d1, t', table.Value());
    }

    /** table_join: an empty table is freed, its child takes its place. */
    method TableJoin(tableOffset: int, ghost t: T, ghost h: nat, ghost rest: multiset<int>) returns (p: int, ghost t': T)
      requires Ground() && Repr(store.disk, tableOffset, t) && t.Node? && Shape(t, h, 0, MAX_KEYS)
      requires multiset(store.disk.Keys) == Offs(t) + rest + multiset(store.free)
      modifies store, store.cache, store.bufs, store.arrs
      ensures Ground() && SameOn(old(store.disk), store.disk, rest) && Repr(store.disk, p, t')
      ensures multiset(store.disk.Keys) == Offs(t') + rest + multiset(store.free)
      ensures Shape(t', h, 1, MAX_KEYS) && InOrder(t') == InOrder(t) && MarksKept(old(store.disk), t, store.disk, t')
      ensures fresh(store.bufs - old(store.bufs)) && fresh(store.arrs - old(store.arrs))
    {
      hide Ground, Repr, ReprKids, Shape, Offs, KidsOffs, InOrder, MarksKept;
      NodeFacts(store.disk, tableOffset, t, h, 0, MAX_KEYS);
      ghost var d := store.disk;
      var table := Take(tableOffset);
      assert table.Keys() == t.items;
      if table.size == 0 {
        JoinedMeans(store.disk, t, h);
        p, t' := table.slots[0].child, t.kids[0];
        Release(tableOffset, rest + Offs(t'));
        ReprFrame(d, store.disk, p, t');
        SameOnPart(d, store.disk, rest, Offs(t'));
        JoinedKept(d, store.disk, tableOffset, t);
      } else {
        PutBack(table, tableOffset);
        p, t' := tableOffset, t;
        ShapeNonempty(t, h);
        KeptSelf(store.disk, t);
      }
    }

    /** A table in memory that stands for the top of t: its children are on disk,
        and with rest every chunk is accounted for. */
    ghost predicate Loaded(table: TableBuf, t: T, rest: multiset<int>)
      reads store, store.cache, store.bufs, store.arrs, pager, heap, heap.dbcache, table, table.slots
    {
      && Ground() && store.Owned(table) && table.Valid() && t.Node? && |t.kids| == |t.items| + 1
      && 0 < t.off && t.off in store.disk
      && table.Keys() == t.items && ReprKids(store.disk, table.Kids(), t.kids)
      && multiset(store.disk.Keys) == multiset{t.off} + KidsOffs(t.kids) + rest + multiset(store.free)
    }

    /** get_table on a table of the tree. */
    method Load(tableOffset: int, ghost t: T, ghost h: nat, ghost lo: int, ghost rest: multiset<int>) returns (table: TableBuf)
      requires Ground() && Repr(store.disk, tableOffset, t) && Shape(t, h, lo, MAX_KEYS) && t.Node?
      requires multiset(store.disk.Keys) == Offs(t) + rest + multiset(store.free)
      modifies store`bufs, store`arrs, store.cache
      ensures Loaded(table, t, rest) && table.Value() == store.disk[tableOffset] && tableOffset in store.disk && t.off == tableOffset
      ensures store.bufs <= old(store.bufs) && store.arrs <= old(store.arrs)
      ensures (table in old(store.bufs) || fresh(table)) && (table.slots in old(store.arrs) || fresh(table.slots))
    {
      hide Ground, Repr, ReprKids, Shape, Offs, KidsOffs;
      NodeFacts(store.disk, tableOffset, t, h, lo, MAX_KEYS);
      table := Take(tableOffset);
    }

    lemma TopFacts(table: TableBuf, t: T, h: nat, lo: int, i: int, rest: multiset<int>)
      requires Loaded(table, t, rest) && Shape(t, h, lo, MAX_KEYS) && 0 <= i <= |t.items|
      ensures table.Valid() && table.size == |t.items| && |t.kids| == |t.items| + 1 && t.Node? && lo <= |t.items| && 0 < h
      ensures table.slots[i].child == 0 <==> t.kids[i] == Nil
      ensures i < |t.items| ==> t.items[i] == Item(table.slots[i].quid, table.slots[i].offset)
    {
      assert table.Kids()[i] == table.slots[i].child;
      assert Repr(store.disk, table.Kids()[i], t.kids[i]);
    }

    /** What the work on child i of a table in memory starts from. */
    lemma LoadedKid(table: TableBuf, t: T, h: nat, lo: int, i: int, rest: multiset<int>)
      requires Loaded(table, t, rest) && Shape(t, h, lo, MAX_KEYS) && 0 <= i < |t.kids|
      ensures Ground() && table.Valid() && i <= table.size && store.Owned(table) && t.Node? && 0 < h
      ensures |t.kids| == |t.items| + 1 && 0 < t.off && t.off in store.disk
      ensures table.Keys() == t.items && ReprKids(store.disk, table.Kids(), t.kids)
      ensures Repr(store.disk, table.slots[i].child, t.kids[i]) && Shape(t.kids[i], h - 1, 1, MAX_KEYS)
      ensures multiset(store.disk.Keys) == Offs(t.kids[i]) + (rest + Siblings(t, i)) + multiset(store.free)
    {
      assert table.Kids()[i] == table.slots[i].child;
      SiblingsAndKid(t, i, t.kids[i]);
      assert t.kids[i := t.kids[i]] == t.kids;
    }

    /** ... and where it comes back to. */
    lemma Resume(d: map<int, Table>, table: TableBuf, t: T, i: int, kid: T, rest: multiset<int>)
      requires t.Node? && 0 <= i < |t.kids| == |t.items| + 1 && 0 < t.off && t.off in d
      requires Ground() && store.Owned(table) && SameOn(d, store.disk, rest + Siblings(t, i))
      requires table.Valid() && i <= table.size && table.Keys() == t.items && ReprKids(d, table.Kids(), t.kids)
      requires Repr(store.disk, table.slots[i].child, kid)
      requires multiset(store.disk.Keys) == Offs(kid) + (rest + Siblings(t, i)) + multiset(store.free)
      ensures Loaded(table, WithKid(t, i, kid), rest) && SameOn(d, store.disk, rest)
      ensures t.off in store.disk && store.disk[t.off] == d[t.off]
    {
      var ps := table.Kids();
      assert ps[i] == table.slots[i].child && ps[i := ps[i]] == ps;
      StepBack(d, store.disk, ps, t, i, ps[i], kid, multiset{}, store.free, rest);
    }

    /** table_join on child i of a table in memory, and the link to what it
        leaves. */
    method JoinChild(table: TableBuf, i: int, ghost t: T, ghost h: nat, ghost was: T, ghost rest: multiset<int>) returns (ghost kid: T)
      requires t.Node? && 0 <= i < |t.kids| && Loaded(table, WithKid(t, i, was), rest) && 0 < h
      requires table.Valid() && was.Node? && Shape(was, h - 1, 0, MAX_KEYS)
      modifies store, store.cache, store.bufs, store.arrs, table.slots
      ensures Loaded(table, WithKid(t, i, kid), rest) && SameOn(old(store.disk), store.disk, rest)
      ensures Shape(kid, h - 1, 1, MAX_KEYS) && InOrder(kid) == InOrder(was)
      ensures MarksKept(old(store.disk), was, store.disk, kid) && table.Valid() && table.Marks() == old(table.Value()).Marks()
      ensures SameOn(old(store.disk), store.disk, Siblings(t, i))
      ensures fresh(store.bufs - old(store.bufs)) && fresh(store.arrs - old(store.arrs))
    {
      hide Ground, Repr, ReprKids, Shape, Offs, KidsOffs, InOrder, Siblings, MarksKept;
      ghost var d, ps, t1 := store.disk, table.Kids(), WithKid(t, i, was);
      UnderTop(d, ps, t, i, was, h, ps[i]);
      SiblingsAndKid(t1, i, was);
      assert t1.kids[i := was] == t1.kids;
      assert table.slots[i].child == ps[i];
      var p;
      p, kid := TableJoin(table.slots[i].child, was, h - 1, rest + Siblings(t1, i));
      SameOnPart(d, store.disk, rest, Siblings(t1, i));
      SameSiblings(t, i, was);
      StepBack(d, store.disk, ps, t1, i, p, kid, multiset{}, store.free, rest);
      assert t1.kids[i := kid] == t.kids[i := kid];
      table.SetChild(i, p);
    }

    /** Take the largest key out of child i of a table in memory. */
    method LargestBelow(table: TableBuf, i: int, ghost t: T, ghost h: nat, ghost lo: int, ghost rest: multiset<int>)
      returns (x: I, ghost kid: T)
      requires table.Valid() && Loaded(table, t, rest) && Shape(t, h, lo, MAX_KEYS) && 0 <= i < |t.kids| && t.kids[i].Node?
      modifies store, store.cache, store.bufs, store.arrs, table.slots
      ensures Loaded(table, WithKid(t, i, kid), rest) && SameOn(old(store.disk), store.disk, rest)
      ensures InOrder(t.kids[i]) == InOrder(kid) + [x] && Shape(kid, h - 1, 1, MAX_KEYS) && table.Valid()
      ensures UnderGone(old(store.disk), old(table.Value()), t.kids, store.disk, table.Value(), t.kids[i := kid], x.key, {}, NO_META)
      ensures table.Marks() == old(table.Marks())
      ensures fresh(store.bufs - old(store.bufs)) && fresh(store.arrs - old(store.arrs))
      decreases h, 0
    {
      hide Ground, Loaded, Repr, ReprKids, Shape, Offs, KidsOffs, InOrder, Siblings, MarksKept, MarksGone, UnderGone, MarkedUnder, Marked;
      LoadedKid(table, t, h, lo, i, rest);
      ghost var d, v, was := store.disk, table.Value(), t.kids[i];
      x, kid := TakeLargest(table.slots[i].child, t.kids[i], h - 1, rest + Siblings(t, i));
      Resume(d, table, t, i, kid, rest);
      ghost var d1, k1 := store.disk, kid;
      kid := JoinChild(table, i, t, h, kid, rest);
      GoneThenKept(d, was, d1, k1, store.disk, kid, x.key, {}, NO_META);
      SameOnPart(d, d1, rest, Siblings(t, i));
      SameOnAgain(d, d1, store.disk, Siblings(t, i));
      KidGone(d, store.disk, v, table.Value(), t, i, kid, x.key, {}, NO_META);
    }

    /** Take the smallest key out of child i of a table in memory. */
    method SmallestBelow(table: TableBuf, i: int, ghost t: T, ghost h: nat, ghost lo: int, ghost rest: multiset<int>)
      returns (x: I, ghost kid: T)
      requires table.Valid() && Loaded(table, t, rest) && Shape(t, h, lo, MAX_KEYS) && 0 <= i < |t.kids| && t.kids[i].Node?
      modifies store, store.cache, store.bufs, store.arrs, table.slots
      ensures Loaded(table, WithKid(t, i, kid), rest) && SameOn(old(store.disk), store.disk, rest)
      ensures InOrder(t.kids[i]) == [x] + InOrder(kid) && Shape(kid, h - 1, 1, MAX_KEYS) && table.Valid()
      ensures UnderGone(old(store.disk), old(table.Value()), t.kids, store.disk, table.Value(), t.kids[i := kid], x.key, {}, NO_META)
      ensures table.Marks() == old(table.Marks())
      ensures fresh(store.bufs - old(store.bufs)) && fresh(store.arrs - old(store.arrs))
      decreases h, 0
    {
      hide Ground, Loaded, Repr, ReprKids, Shape, Offs, KidsOffs, InOrder, Siblings, MarksKept, MarksGone, UnderGone, MarkedUnder, Marked;
      LoadedKid(table, t, h, lo, i, rest);
      ghost var d, v, was := store.disk, table.Value(), t.kids[i];
      x, kid := TakeSmallest(table.slots[i].child, t.kids[i], h - 1, rest + Siblings(t, i));
      Resume(d, table, t, i, kid, rest);
      ghost var d1, k1 := store.disk, kid;
      kid := JoinChild(table, i, t, h, kid, rest);
      GoneThenKept(d, was, d1, k1, store.disk, kid, x.key, {}, NO_META);
      SameOnPart(d, d1, rest, Siblings(t, i));
      SameOnAgain(d, d1, store.disk, Siblings(t, i));
      KidGone(d, store.disk, v, table.Value(), t, i, kid, x.key, {}, NO_META);
    }

    /** take_largest: remove the largest key of a subtree. */
    method TakeLargest(tableOffset: int, ghost t: T, ghost h: nat, ghost rest: multiset<int>) returns (x: I, ghost t': T)
      requires Ground() && Repr(store.disk, tableOffset, t) && t.Node? && Shape(t, h, 1, MAX_KEYS)
      requires multiset(store.disk.Keys) == Offs(t) + rest + multiset(store.free)
      modifies store, store.cache, store.bufs, store.arrs
      ensures Ground() && SameOn(old(store.disk), store.disk, rest) && Repr(store.disk, tableOffset, t')
      ensures multiset(store.disk.Keys) == Offs(t') + rest + multiset(store.free)
      ensures t'.Node? && Shape(t', h, 0, MAX_KEYS) && InOrder(t) == InOrder(t') + [x]
      ensures MarksGone(old(store.disk), t, store.disk, t', x.key, {}, NO_META)
      ensures fresh(store.bufs - old(store.bufs)) && fresh(store.arrs - old(store.arrs))
      decreases h, 3
    {
      hide Ground, Loaded, Repr, ReprKids, Shape, Offs, KidsOffs, InOrder, Siblings, LeftOf, RightOf, Heirs,
           MarksGone, UnderGone, MarkedUnder, Marked;
      var table := Load(tableOffset, t, h, 1, rest);
      ghost var d := store.disk;
      TopFacts(table, t, h, 1, |t.items|, rest);
      var child := table.slots[table.size].child;
      if child == 0 {
        x, t' := RemoveLast(table, t, h, rest);
      } else {
        ghost var kid;
        x, kid := LargestBelow(table, table.size, t, h, 1, rest);
        t' := WithKid(t, |t.items|, kid);
        LastBelow(t, x, kid);
        ShapeReplaced(t, h, 1, |t.items|, t.items, kid);
        ShapeMonotone(t', h, 1, MAX_KEYS, h, 0, MAX_KEYS);
      }
      Write(table, tableOffset, d, t, t', rest, x.key, {}, NO_META);
    }

    /** ... when it is in the top table itself. */
    method RemoveLast(table: TableBuf, ghost t: T, ghost h: nat, ghost rest: multiset<int>) returns (x: I, ghost t': T)
      requires Loaded(table, t, rest) && t.Node? && Shape(t, h, 1, MAX_KEYS) && |t.kids| == |t.items| + 1 && 0 < |t.items|
      requires table.Valid() && table.size == |t.items| && t.kids[|t.items|] == Nil
      modifies store, store.cache, store.bufs, store.arrs, table, table.slots
      ensures Loaded(table, t', rest) && t'.Node? && t'.off == t.off && SameOn(old(store.disk), store.disk, rest)
      ensures Shape(t', h, 0, MAX_KEYS) && InOrder(t) == InOrder(t') + [x]
      ensures UnderGone(old(store.disk), old(table.Value()), t.kids, store.disk, table.Value(), t'.kids, x.key, {}, NO_META)
      ensures fresh(store.bufs - old(store.bufs)) && fresh(store.arrs - old(store.arrs))
      decreases h, 2
    {
      hide Ground, Loaded, Repr, ReprKids, Shape, Offs, KidsOffs, InOrder, Siblings, LeftOf, RightOf, SameOn, Heirs,
           MarksGone, UnderGone, MarkedUnder, Marked;
      ghost var d, v, heirs, m := store.disk, table.Value(), {}, table.slots[table.size - 1].meta;
      x, t', heirs := RemoveTable(table, table.size - 1, t, h, 1, rest);
      LastRemoved(t);
      NoHeirs(d, v, t.kids, store.disk, table.Value(), t'.kids, x.key, m);
    }

    /** take_smallest: remove the smallest key of a subtree. */
    method TakeSmallest(tableOffset: int, ghost t: T, ghost h: nat, ghost rest: multiset<int>) returns (x: I, ghost t': T)
      requires Ground() && Repr(store.disk, tableOffset, t) && t.Node? && Shape(t, h, 1, MAX_KEYS)
      requires multiset(store.disk.Keys) == Offs(t) + rest + multiset(store.free)
      modifies store, store.cache, store.bufs, store.arrs
      ensures Ground() && SameOn(old(store.disk), store.disk, rest) && Repr(store.disk, tableOffset, t')
      ensures multiset(store.disk.Keys) == Offs(t') + rest + multiset(store.free)
      ensures t'.Node? && Shape(t', h, 0, MAX_KEYS) && InOrder(t) == [x] + InOrder(t')
      ensures MarksGone(old(store.disk), t, store.disk, t', x.key, {}, NO_META)
      ensures fresh(store.bufs - old(store.bufs)) && fresh(store.arrs - old(store.arrs))
      decreases h, 2
    {
      hide Ground, Loaded, Repr, ReprKids, Shape, Offs, KidsOffs, InOrder, Siblings, LeftOf, RightOf, Heirs,
           MarksGone, UnderGone, MarkedUnder, Marked;
      var table := Load(tableOffset, t, h, 1, rest);
      ghost var d := store.disk;
      TopFacts(table, t, h, 1, 0, rest);
      var child := table.slots[0].child;
      if child == 0 {
        ghost var heirs, v, m := {}, table.Value(), table.slots[0].meta;
        x, t', heirs := RemoveTable(table, 0, t, h, 1, rest);
        FirstRemoved(t);
        NoHeirs(d, v, t.kids, store.disk, table.Value(), t'.kids, x.key, m);
      } else {
        ghost var kid;
        x, kid := SmallestBelow(table, 0, t, h, 1, rest);
        t' := WithKid(t, 0, kid);
        FirstBelow(t, x, kid);
        ShapeReplaced(t, h, 1, 0, t.items, kid);
        ShapeMonotone(t', h, 1, MAX_KEYS, h, 0, MAX_KEYS);
      }
      Write(table, tableOffset, d, t, t', rest, x.key, {}, NO_META);
    }

    /** remove_table: remove key i from a table in memory. Between two children it
        is replaced by a neighbour from one of them, whichever; otherwise its slot
        is closed. */
    method RemoveTable(table: TableBuf, i: int, ghost t: T, ghost h: nat, ghost lo: int, ghost rest: multiset<int>)
      returns (x: I, ghost t': T, ghost heirs: set<Key>)
      requires table.Valid() && i < table.size && Loaded(table, t, rest) && Shape(t, h, lo, MAX_KEYS) && 0 <= i < |t.items| && 0 <= lo
      modifies store, store.cache, store.bufs, store.arrs, table, table.slots
      ensures Loaded(table, t', rest) && t'.Node? && t'.off == t.off && SameOn(old(store.disk), store.disk, rest)
      ensures Shape(t', h, 0, MAX_KEYS) && |t.kids| == |t.items| + 1 && x == t.items[i]
      ensures InOrder(t') == LeftOf(t, i) + RightOf(t, i)
      ensures table.Valid() && Heirs(InOrder(t), |LeftOf(t, i)|, heirs) && (t.kids[i].Nil? || t.kids[i + 1].Nil? ==> heirs == {})
      ensures UnderGone(old(store.disk), old(table.Value()), t.kids, store.disk, table.Value(), t'.kids, x.key, heirs, old(table.slots[i]).meta)
      ensures |t'.items| == if t.kids[i].Nil? || t.kids[i + 1].Nil? then |t.items| - 1 else |t.items|
      ensures fresh(store.bufs - old(store.bufs)) && fresh(store.arrs - old(store.arrs))
      decreases h, 1
    {
      hide Ground, Loaded, Repr, ReprKids, Shape, Offs, KidsOffs, InOrder, Siblings, LeftOf, RightOf, SameOn, UnderGone, MarkedUnder, Marked, Heirs;
      TopFacts(table, t, h, lo, i, rest);
      TopFacts(table, t, h, lo, i + 1, rest);
      ghost var d, v := store.disk, table.Value();
      x := Item(table.slots[i].quid, table.slots[i].offset);
      var leftChild, rightChild := table.slots[i].child, table.slots[i + 1].child;
      if leftChild != 0 && rightChild != 0 {
        ghost var kid;
        var y;
        if * {
          y, kid := LargestBelow(table, i, t, h, lo, rest);
          t' := WithKid(t, i, kid);
          ReplacedFromLeft(t, i, y, kid);
          ShapeReplaced(t, h, lo, i, t.items[i := y], kid);
          HeirLeft(t, i, y, kid);
        } else {
          y, kid := SmallestBelow(table, i + 1, t, h, lo, rest);
          t' := WithKid(t, i + 1, kid);
          ReplacedFromRight(t, i, y, kid);
          ShapeReplaced(t, h, lo, i + 1, t.items[i := y], kid);
          HeirRight(t, i, y, kid);
        }
        heirs := {y.key};
        ghost var d1, v1 := store.disk, table.Value();
        ReplaceKey(table, i, y, t', rest);
        SlotReplaced(d1, v1, table.Value(), t'.kids, i, y.key);
        UnderOn(d, v, t.kids, d1, v1, t'.kids, d1, table.Value(), t'.kids, x.key, y.key, v.Marks()[i].1, NO_META);
        t' := Node(t.off, t.items[i := y], t'.kids);
        ShapeMonotone(t', h, lo, MAX_KEYS, h, 0, MAX_KEYS);
      } else {
        SameOnSelf(store.disk, rest);
        heirs := {};
        NoHeir(t, i);
        t' := CloseSlot(table, i, leftChild, rightChild, t, h, lo, rest);
      }
    }

    method ReplaceKey(table: TableBuf, i: int, y: I, ghost t: T, ghost rest: multiset<int>)
      requires table.Valid() && i < table.size && Loaded(table, t, rest) && 0 <= i < |t.items|
      modifies table.slots
      ensures Loaded(table, Node(t.off, t.items[i := y], t.kids), rest) && table.Valid()
      ensures table.Marks() == old(table.Marks())[i := (y.key, old(table.Marks())[i].1)]
    {
      hide Ground, Repr, ReprKids, Offs, KidsOffs;
      table.Replace(i, y.key, y.val);
    }

    method CloseSlot(table: TableBuf, i: int, leftChild: int, rightChild: int, ghost t: T, ghost h: nat, ghost lo: int, ghost rest: multiset<int>)
      returns (ghost t': T)
      requires table.Valid() && i < table.size && Loaded(table, t, rest) && Shape(t, h, lo, MAX_KEYS) && 0 <= i < |t.items|
      requires leftChild == table.Kids()[i] && rightChild == table.Kids()[i + 1] && (leftChild == 0 || rightChild == 0)
      modifies table, table.slots
      ensures Loaded(table, t', rest) && t'.Node? && t'.off == t.off && Shape(t', h, 0, MAX_KEYS)
      ensures InOrder(t') == LeftOf(t, i) + RightOf(t, i) && |t'.items| == |t.items| - 1 && table.Valid()
      ensures UnderGone(store.disk, old(table.Value()), t.kids, store.disk, table.Value(), t'.kids, old(table.slots[i]).quid, {}, old(table.slots[i]).meta)
    {
      hide Ground, Repr, ReprKids, Shape, Offs, KidsOffs, InOrder, LeftOf, RightOf, UnderGone;
      ghost var ps, v := table.Kids(), table.Value();
      ghost var kid := if leftChild != 0 then t.kids[i] else t.kids[i + 1];
      ClosedRepr(store.disk, ps, t, i, kid);
      ClosedMeans(t, h, lo, i, kid);
      table.Remove(i, if leftChild != 0 then leftChild else rightChild);
      t' := Closed(t, i, kid);
      SlotClosed(store.disk, v, table.Value(), t, i, kid, v.Marks()[i].1);
    }

    // ----- the recursion of delete_table -----

    /** Search a table in memory. */
    method FindHere(table: TableBuf, quid: Key, ghost t: T, ghost h: nat, ghost lo: int, ghost rest: multiset<int>) returns (i: int, hit: bool)
      requires Loaded(table, t, rest) && Shape(t, h, lo, MAX_KEYS) && Sorted(InOrder(t))
      ensures table.Valid() && t.Node? && |t.kids| == |t.items| + 1 && table.size == |t.items| && 0 < h
      ensures 0 <= i <= |t.items| && IsLowerBound(t.items, quid, i) && (hit <==> i < |t.items| && t.items[i].key == quid)
      ensures Sorted(InOrder(t.kids[i])) && table.Value().Ok() && table.Value().Keys() == t.items
    {
      hide Ground, Repr, ReprKids, InOrder, Sorted, IsLowerBound;
      SortedTop(t);
      i, hit := table.Find(quid);
      LowerBoundRange(t.items, quid, i);
      assert i < table.size ==> table.Keys()[i].key == table.slots[i].quid;
    }

    lemma LoadedGround(table: TableBuf, t: T, rest: multiset<int>)
      requires Loaded(table, t, rest)
      ensures Ground() && store.Owned(table) && table.Valid() && t.Node? && t.off in store.disk && 0 < t.off
      ensures table.Value() == store.disk[t.off] ==>
        Repr(store.disk, t.off, t) && multiset(store.disk.Keys) == Offs(t) + rest + multiset(store.free)
    {
    }

    /** delete_table. */
    method DeleteTable(tableOffset: int, quid: Key, ghost t: T, ghost h: nat, ghost lo: int, ghost rest: multiset<int>)
      returns (ret: int, error: bool, ghost t': T, ghost r: int, ghost heirs: set<Key>, ghost m0: Meta)
      requires Ground() && Repr(store.disk, tableOffset, t) && Shape(t, h, lo, MAX_KEYS) && 0 <= lo && Sorted(InOrder(t))
      requires multiset(store.disk.Keys) == Offs(t) + rest + multiset(store.free)
      requires Removable(InOrder(t), quid, Locked(store.disk, t, quid))
      modifies store, store.cache, store.bufs, store.arrs
      ensures Ground() && SameOn(old(store.disk), store.disk, rest) && Repr(store.disk, tableOffset, t')
      ensures multiset(store.disk.Keys) == Offs(t') + rest + multiset(store.free)
      ensures Shape(t', h, 0, MAX_KEYS) && DeleteOutcome(old(store.disk), t, t', quid, ret, error, r)
      ensures (t'.Node? <==> t.Node?) && Counted(t, t', r)
      ensures DeleteMarks(old(store.disk), t, store.disk, t', r, heirs, m0)
      ensures fresh(store.bufs - old(store.bufs)) && fresh(store.arrs - old(store.arrs))
      decreases h, 1
    {
      hide Ground, Loaded, Repr, ReprKids, Shape, Offs, KidsOffs, InOrder, Siblings, Sorted, IsLowerBound, Locked, Removable, DeleteOutcome,
           LeftOf, RightOf, Before, WithKid, Counted, DeleteMarks, MarksGone, UnderGone, MarksKept, Heirs;
      NodeFacts(store.disk, tableOffset, t, h, lo, MAX_KEYS);
      if tableOffset == 0 {
        DeleteNothing(store.disk, quid);
        CountedSame(t);
        ShapeMonotone(t, h, lo, MAX_KEYS, h, 0, MAX_KEYS);
        NoDeletion(store.disk, t);
        return 0, true, t, -1, {}, NO_META;
      }
      var table := Load(tableOffset, t, h, lo, rest);
      var i, hit := FindHere(table, quid, t, h, lo, rest);
      if hit {
        ret, error, t', r, heirs, m0 := DeleteHere(tableOffset, table, i, t, h, lo, rest);
      } else {
        ret, error, t', r, heirs, m0 := DeleteBelow(tableOffset, table, i, quid, t, h, lo, rest);
      }
    }

    /** The part of delete_table that has found the key. */
    method DeleteHere(tableOffset: int, table: TableBuf, i: int, ghost t: T, ghost h: nat, ghost lo: int, ghost rest: multiset<int>)
      returns (ret: int, error: bool, ghost t': T, ghost r: int, ghost heirs: set<Key>, ghost m0: Meta)
      requires Loaded(table, t, rest) && t.Node? && t.off == tableOffset && Shape(t, h, lo, MAX_KEYS) && 0 <= lo && Sorted(InOrder(t))
      requires tableOffset in store.disk && table.Value() == store.disk[tableOffset] && table.Value().Ok() && table.Value().Keys() == t.items
      requires |t.kids| == |t.items| + 1 && 0 <= i < |t.items| && IsLowerBound(t.items, t.items[i].key, i)
      modifies store, store.cache, store.bufs, store.arrs, table, table.slots
      ensures Ground() && SameOn(old(store.disk), store.disk, rest) && Repr(store.disk, tableOffset, t')
      ensures multiset(store.disk.Keys) == Offs(t') + rest + multiset(store.free)
      ensures Shape(t', h, 0, MAX_KEYS) && DeleteOutcome(old(store.disk), t, t', t.items[i].key, ret, error, r) && t'.Node?
      ensures Counted(t, t', r)
      ensures DeleteMarks(old(store.disk), t, store.disk, t', r, heirs, m0)
      ensures fresh(store.bufs - old(store.bufs) - {table}) && fresh(store.arrs - old(store.arrs) - {table.slots})
      decreases h, 0
    {
      hide Ground, Loaded, Repr, ReprKids, Shape, Offs, KidsOffs, InOrder, Siblings, Sorted, IsLowerBound, Locked, Removable, DeleteOutcome,
           LeftOf, RightOf, Before, WithKid, Counted, DeleteMarks, MarksGone, UnderGone, MarksKept, Heirs;
      ghost var d := store.disk;
      LockedHere(d, t, t.items[i].key, i);
      if table.slots[i].meta.syslock || table.slots[i].meta.freeze {
        LockedRefused(d, t, t.items[i].key, i);
        CountedSame(t);
        LoadedGround(table, t, rest);
        ShapeMonotone(t, h, lo, MAX_KEYS, h, 0, MAX_KEYS);
        PutBack(table, tableOffset);
        NoDeletion(store.disk, t);
        return 0, true, t, -1, {}, NO_META;
      }
      var x;
      m0 := table.slots[i].meta;
      x, t', heirs := RemoveTable(table, i, t, h, lo, rest);
      FoundOutcome(d, t, t', i);
      CountedHere(t, t', i);
      Write(table, tableOffset, d, t, t', rest, x.key, heirs, m0);
      GoneHere(d, t, store.disk, t', i, heirs, m0);
      ret, error, r := x.val, false, |LeftOf(t, i)|;
    }

    /** The part of delete_table that goes on in child i, and removes the next
        larger key of this table when nothing came of that. */
    method DeleteBelow(tableOffset: int, table: TableBuf, i: int, quid: Key, ghost t: T, ghost h: nat, ghost lo: int, ghost rest: multiset<int>)
      returns (ret: int, error: bool, ghost t': T, ghost r: int, ghost heirs: set<Key>, ghost m0: Meta)
      requires Loaded(table, t, rest) && t.Node? && t.off == tableOffset && Shape(t, h, lo, MAX_KEYS) && 0 <= lo && Sorted(InOrder(t))
      requires tableOffset in store.disk && table.Value() == store.disk[tableOffset] && 0 < h
      requires table.Valid() && table.size == |t.items| && |t.kids| == |t.items| + 1 && 0 <= i <= |t.items| && table.Keys() == t.items
      requires IsLowerBound(t.items, quid, i) && (i < |t.items| ==> t.items[i].key != quid) && Sorted(InOrder(t.kids[i]))
      requires Removable(InOrder(t), quid, Locked(store.disk, t, quid))
      modifies store, store.cache, store.bufs, store.arrs, table, table.slots
      ensures Ground() && SameOn(old(store.disk), store.disk, rest) && Repr(store.disk, tableOffset, t')
      ensures multiset(store.disk.Keys) == Offs(t') + rest + multiset(store.free)
      ensures Shape(t', h, 0, MAX_KEYS) && DeleteOutcome(old(store.disk), t, t', quid, ret, error, r) && t'.Node?
      ensures Counted(t, t', r)
      ensures DeleteMarks(old(store.disk), t, store.disk, t', r, heirs, m0)
      ensures fresh(store.bufs - old(store.bufs) - {table}) && fresh(store.arrs - old(store.arrs) - {table.slots})
      decreases h, 0
    {
      hide Ground, Loaded, Repr, ReprKids, Shape, Offs, KidsOffs, InOrder, Siblings, Sorted, IsLowerBound, Locked, Removable, DeleteOutcome,
           LeftOf, RightOf, Before, WithKid, Counted, DeleteMarks, MarksGone, UnderGone, MarksKept, Heirs;
      ghost var d := store.disk;
      LoadedKid(table, t, h, lo, i, rest);
      LockedBelow(d, t, quid, i);
      RemovableBelow(t, i, quid, Locked(d, t, quid));
      ghost var kid;
      ret, error, kid, r, heirs, m0 := DeleteTable(table.slots[i].child, quid, t.kids[i], h - 1, 1, rest + Siblings(t, i));
      RetTells(d, t.kids[i], kid, quid, ret, error, r);
      Resume(d, table, t, i, kid, rest);
      SameOnPart(d, store.disk, rest, Siblings(t, i));
      ret, t', r, heirs, m0 := DeleteRest(tableOffset, table, i, quid, ret, error, d, t, h, lo, kid, r, heirs, m0, rest);
    }

    method DeleteRest(tableOffset: int, table: TableBuf, i: int, quid: Key, below: int, error: bool, ghost d: map<int, Table>,
                      ghost t: T, ghost h: nat, ghost lo: int, ghost kid: T, ghost rb: int,
                      ghost hb: set<Key>, ghost mb: Meta, ghost rest: multiset<int>)
      returns (ret: int, ghost t': T, ghost r: int, ghost heirs: set<Key>, ghost m0: Meta)
      requires t.Node? && 0 <= i <= |t.items| && |t.kids| == |t.items| + 1 && Loaded(table, WithKid(t, i, kid), rest)
      requires t.off == tableOffset && Shape(t, h, lo, MAX_KEYS) && 0 <= lo && 0 < h && Sorted(InOrder(t))
      requires tableOffset in store.disk && table.Value() == store.disk[tableOffset] && table.size == |t.items|
      requires IsLowerBound(t.items, quid, i) && (i < |t.items| ==> t.items[i].key != quid)
      requires DeleteOutcome(d, t.kids[i], kid, quid, below, error, rb) && Removable(InOrder(t), quid, Locked(d, t, quid))
      requires below == 0 ==> rb == -1 && kid == t.kids[i]
      requires below != 0 ==> rb != -1 && kid.Node?
      requires Shape(kid, h - 1, 0, MAX_KEYS)
      requires t.off in d && d[t.off] == store.disk[t.off] && table.Valid() && table.Keys() == t.items && ReprKids(d, table.Kids(), t.kids)
      requires SameOn(d, store.disk, Siblings(t, i)) && DeleteMarks(d, t.kids[i], store.disk, kid, rb, hb, mb)
      modifies store, store.cache, store.bufs, store.arrs, table, table.slots
      ensures Ground() && SameOn(old(store.disk), store.disk, rest) && Repr(store.disk, tableOffset, t')
      ensures multiset(store.disk.Keys) == Offs(t') + rest + multiset(store.free)
      ensures Shape(t', h, 0, MAX_KEYS) && DeleteOutcome(d, t, t', quid, ret, error, r) && t'.Node?
      ensures Counted(t, t', r)
      ensures DeleteMarks(d, t, store.disk, t', r, heirs, m0)
      ensures fresh(store.bufs - old(store.bufs) - {table}) && fresh(store.arrs - old(store.arrs) - {table.slots})
      decreases h, 0
    {
      hide Ground, Loaded, Repr, ReprKids, Shape, Offs, KidsOffs, InOrder, Siblings, Sorted, IsLowerBound, Locked, Removable, DeleteOutcome,
           LeftOf, RightOf, Before, Counted, DeleteMarks, MarksGone, UnderGone, MarksKept, Heirs;
      assert t.kids[i := t.kids[i]] == t.kids;
      ret, t', r, heirs, m0 := below, t, -1, hb, mb;
      ghost var g := [];
      if ret != 0 {
        ghost var d1, v := store.disk, table.Value();
        ghost var kid' := JoinChild(table, i, t, h, kid, rest);
        t', r := WithKid(t, i, kid'), |Before(t.items, t.kids, i)| + rb;
        BelowOutcome(d, t, i, kid, kid', quid, below, error, rb);
        CountedBelow(d, t, i, kid, kid', quid, below, error, rb);
        ShapeReplaced(t, h, lo, i, t.items, kid');
        ShapeMonotone(t', h, lo, MAX_KEYS, h, 0, MAX_KEYS);
        SameOnAgain(d, d1, store.disk, Siblings(t, i));
        g := KidDeleted(d, d1, store.disk, v, table.Value(), t, i, kid, kid', rb, heirs, m0);
      } else {
        ShapeMonotone(t, h, lo, MAX_KEYS, h, 0, MAX_KEYS);
        KidKept(d, t, i, store.disk, kid, rb, hb, mb);
      }
      if ret == 0 && i < table.size {
        var x;
        m0 := table.slots[i].meta;
        x, t', heirs := RemoveTable(table, i, t, h, lo, rest);
        ret, r, g := x.val, |LeftOf(t, i)|, x.key;
        NextOutcome(d, t, i, t', quid, error);
        CountedHere(t, t', i);
        RetTells(d, t, t', quid, ret, error, r);
        MarkHere(d, t, i, m0);
      }
      if ret != 0 {
        Write(table, tableOffset, d, t, t', rest, g, heirs, m0);
        WrittenGone(d, t, store.disk, t', r, g, heirs, m0);
      } else {
        BelowOutcome(d, t, i, kid, kid, quid, 0, error, -1);
        CountedSame(t);
        LoadedGround(table, t, rest);
        PutBack(table, tableOffset);
        NoDeletion(d, t);
      }
    }

    /** free_dbchunk, next to the tables. */
    method FreeData(offset: int)
      requires Ground() && offset in heap.live
      modifies heap, heap.dbcache
      ensures Ground() && heap.live == old(heap.live) - {offset}
      ensures OnlyAt(old(heap.blobs), heap.blobs, offset) && offset in old(heap.blobs)
      ensures heap.blobs[offset].data == old(heap.blobs)[offset].data && heap.blobs[offset].free
    {
      hide TableStore.CacheOk, DiskOk, FreeChain, Pager.Valid, Heap.Valid;
      heap.FreeDbChunk(offset);
    }

    /** The part of engine_purge that follows a successful deletion. */
    method PurgeFound(ret: int, ghost t: T, ghost quid: Key)
      requires Ground() && Repr(store.disk, top, t) && t.Node? && Shape(t, height, 0, MAX_KEYS)
      requires multiset(store.disk.Keys) == Offs(t) + multiset(store.free)
      requires Sorted(Contents()) && Has(Contents(), quid) && DataOwned(Contents(), heap.live)
      requires InOrder(t) == Del(Contents(), quid) && Sorted(InOrder(t))
      requires ret == Lookup(Contents(), quid) && ret != 0 && ret in heap.live
      modifies `top, `tree, `zeroSize, store, store.cache, store.bufs, store.arrs, heap, heap.dbcache
      ensures Valid() && Trim() && Contents() == InOrder(t) && zeroSize == old(zeroSize) - 1
      ensures Data() == old(Data()) - {quid} && MarksKept(old(store.disk), t, store.disk, tree)
      ensures fresh(store.bufs - old(store.bufs)) && fresh(store.arrs - old(store.arrs))
    {
      hide Ground, Repr, ReprKids, Shape, Offs, KidsOffs, InOrder, Sorted, Has, Del, Lookup, ToMap, DataOwned, DataMap, InUse, OnlyAt, MarksKept;
      BlocksKnown();
      ghost var s, b, live := Contents(), heap.blobs, heap.live;
      JoinTop(t);
      zeroSize := zeroSize - 1;
      FreeData(ret);
      PurgedData(s, b, live, heap.blobs, ret, quid);
    }

    /** engine_purge: remove a key and free its data block. */
    method Purge(quid: Key) returns (code: int, ghost r: int, ghost heirs: set<Key>, ghost m0: Meta)
      requires Valid() && Removable(Contents(), quid, Locked(store.disk, tree, quid))
      modifies `top, `tree, `zeroSize, store, store.cache, store.bufs, store.arrs, heap, heap.dbcache
      ensures Valid() && (code == 0 || code == -1)
      ensures code == 0 <==> quid in old(Map()) && !old(Locked(store.disk, tree, quid))
      ensures code == 0 ==> Has(old(Contents()), quid) && Contents() == Del(old(Contents()), quid)
      ensures code == 0 ==> Map() == old(Map()) - {quid} && Data() == old(Data()) - {quid} && Trim()
      ensures code == -1 && old(Trim()) ==> (Trim() <==> !Empties(old(tree), r))
      ensures zeroSize == if code == 0 then old(zeroSize) - 1 else old(zeroSize)
      ensures Removes(old(Contents()), quid, old(Locked(store.disk, tree, quid)), r)
      ensures old(Locked(store.disk, tree, quid)) ==> r == NextSeparator(old(tree), quid)
      ensures r == -1 ==> Contents() == old(Contents()) && Data() == old(Data())
      ensures r != -1 ==> 0 <= r < |old(Contents())| && Map() == old(Map()) - {old(Contents())[r].key}
      ensures r == -1 ==> store.disk == old(store.disk) && tree == old(tree)
      ensures r != -1 ==> Heirs(old(Contents()), r, heirs)
      ensures r != -1 ==> MetaOf(FindSlot(old(store.disk), old(tree), old(Contents())[r].key)) == [m0]
      ensures r != -1 ==> Remarked(old(store.disk), old(tree), store.disk, tree, Map().Keys, heirs, m0)
      ensures fresh(store.bufs - old(store.bufs)) && fresh(store.arrs - old(store.arrs))
    {
      hide Ground, Repr, ReprKids, Shape, Offs, KidsOffs, InOrder, Sorted, Locked, Removable, Removes, DeleteOutcome, Has, Del, ToMap, DataOwned, DataMap, SameOn, Pager.Valid, Heap.Valid, TableStore.Valid, Disjoint, NextSeparator,
           MarksGone, MarksKept, Heirs, Remarked, FindSlot, MetaOf;
      ghost var t, d := tree, store.disk;
      var ret, error;
      ghost var t';
      ret, error, t', r, heirs, m0 := DeleteTable(top, quid, tree, height, 0, multiset{});
      PurgeMeaning(d, t, t', quid, ret, error, r, heap.live);
      ghost var p, d1 := top, store.disk;
      if error {
        tree := t';
        KeptSelf(d1, t');
        TopEmptied(t, t', height, r);
        code := -1;
      } else {
        PurgeFound(ret, t', quid);
        code := 0;
      }
      if r != -1 {
        PurgedMetas(d, p, t, d1, t', store.disk, top, tree, r, heirs, m0);
      }
    }

    /** table_join on the top table. */
    method JoinTop(ghost t: T)
      requires Ground() && Repr(store.disk, top, t) && t.Node? && Shape(t, height, 0, MAX_KEYS)
      requires multiset(store.disk.Keys) == Offs(t) + multiset(store.free)
      modifies `top, `tree, store, store.cache, store.bufs, store.arrs
      ensures Rooted() && Trim() && Contents() == InOrder(t) && MarksKept(old(store.disk), t, store.disk, tree)
      ensures fresh(store.bufs - old(store.bufs)) && fresh(store.arrs - old(store.arrs))
    {
      hide Ground, Repr, ReprKids, Shape, Offs, KidsOffs, InOrder, MarksKept;
      var p;
      ghost var t';
      p, t' := TableJoin(top, t, height, multiset{});
      top, tree := p, t';
      RootLoose(t', height, 1, 0);
    }

    // ----- looking a key up -----

    /** The descent of lookup_key, set_meta and engine_update_data. */
    method Locate(quid: Key) returns (found: bool, offset: int, table: TableBuf?, i: int)
      requires Rooted() && Sorted(Contents())
      modifies store`bufs, store`arrs, store.cache
      ensures Rooted()
      ensures found <==> FindSlot(store.disk, tree, quid).Hit?
      ensures found ==>
        && table != null && store.Owned(table) && table.Valid() && 0 <= i < table.size && table.slots[i].quid == quid
        && offset == Holder(tree, quid) && offset in store.disk && table.Value() == store.disk[offset]
        && FindSlot(store.disk, tree, quid) == Hit(table.slots[i])
        && (table in old(store.bufs) || fresh(table)) && (table.slots in old(store.arrs) || fresh(table.slots))
      ensures fresh(store.bufs - old(store.bufs)) && fresh(store.arrs - old(store.arrs))
    {
      hide Ground, Repr, ReprKids, Shape, Offs, KidsOffs, InOrder, Sorted, FindSlot, IsLowerBound, Holder;
      found, table, i, offset := false, null, 0, top;
      ghost var t, h, lo := tree, height, 0;
      while offset != 0
        invariant Ground() && Repr(store.disk, offset, t) && Shape(t, h, lo, MAX_KEYS) && Sorted(InOrder(t))
        invariant FindSlot(store.disk, tree, quid) == FindSlot(store.disk, t, quid) && Holder(tree, quid) == Holder(t, quid)
        invariant store.disk == old(store.disk)
        invariant fresh(store.bufs - old(store.bufs)) && fresh(store.arrs - old(store.arrs))
        decreases h
      {
        NodeFacts(store.disk, offset, t, h, lo, MAX_KEYS);
        var node, j, hit := FindIn(offset, quid, t, h, lo);
        FindSlotStep(store.disk, t, quid, j);
        if hit {
          assert node.Keys()[j].key == node.slots[j].quid && node.slots[j] == store.disk[offset].slots[j];
          found, table, i := true, node, j;
          return;
        }
        KidFacts(store.disk, node.Kids(), t, h, lo, MAX_KEYS, j);
        var child := node.slots[j].child;
        assert child == node.Kids()[j];
        PutBack(node, offset);
        offset := child;
        t, h, lo := t.kids[j], h - 1, 1;
      }
      NothingFound(store.disk, t, quid);
    }

    /** lookup_key. */
    method LookupKey(quid: Key, force: bool) returns (found: bool, offset: int, nodata: bool, meta: Meta)
      requires Valid()
      modifies store`bufs, store`arrs, store.cache
      ensures Valid()
      ensures found <==> quid in Map() && (force || Visible(FindSlot(store.disk, tree, quid)))
      ensures found ==> offset == Map()[quid] && Hit(Slot(quid, meta, offset, 0)) == WithoutChild(FindSlot(store.disk, tree, quid))
      ensures found ==> nodata == meta.nodata
      ensures fresh(store.bufs - old(store.bufs)) && fresh(store.arrs - old(store.arrs))
    {
      hide Ground, Repr, ReprKids, Shape, Offs, KidsOffs, InOrder, Sorted, FindSlot, IsLowerBound, Holder, ToMap, Has, Lookup, DataOwned;
      var table, i, at;
      Found(quid);
      found, at, table, i := Locate(quid);
      offset, nodata, meta := 0, false, ZERO_SLOT.meta;
      if found {
        var slot := table.slots[i];
        RootedOffset(at, quid);
        PutBack(table, at);
        if !force && slot.meta.lifecycle != MD_LIFECYCLE_FINITE {
          found := false;
        } else {
          offset, nodata, meta := slot.offset, slot.meta.nodata, slot.meta;
        }
      }
    }

    lemma Found(quid: Key)
      requires Valid()
      ensures FindSlot(store.disk, tree, quid).Hit? <==> quid in Map()
      ensures quid in Map() ==>
        && FindSlot(store.disk, tree, quid).slot.offset == Map()[quid]
        && Holder(tree, quid) in Offs(tree) && Holder(tree, quid) in store.disk
    {
      FindSlotFinds(store.disk, top, tree, quid);
      ToMapLooksUp(Contents(), quid);
      if quid in Map() {
        HolderInside(store.disk, top, tree, quid);
      }
    }

    lemma RootedOffset(offset: int, quid: Key)
      requires Rooted() && FindSlot(store.disk, tree, quid).Hit? && offset == Holder(tree, quid)
      ensures offset in store.disk && offset !in store.free && 0 < offset && OnceEach(Offs(tree))
    {
      HolderInside(store.disk, top, tree, quid);
      PartOnce(store.disk.Keys, Offs(tree), multiset(store.free));
      Apart(store.disk.Keys, Offs(tree), multiset(store.free), multiset{});
    }

    /** flush_table on a table with one slot rewritten. */
    method Rewrite(quid: Key, offset: int, table: TableBuf, i: int, meta: Meta, val: int)
      requires table.Valid() && 0 <= i < table.size
      requires Rooted() && Sorted(Contents()) && FindSlot(store.disk, tree, quid) == Hit(table.slots[i])
      requires table.slots[i].quid == quid && store.Owned(table)
      requires offset == Holder(tree, quid) && offset in store.disk && table.Value() == store.disk[offset]
      modifies `tree, store`disk, store`bufs, store`arrs, store.cache, table.slots
      ensures Rooted() && tree == Updated(old(tree), quid, val) && (old(Trim()) ==> Trim())
      ensures FindSlot(store.disk, old(tree), quid) == Hit(old(table.slots[i]).(meta := meta, offset := val))
      ensures forall k | k != quid :: FindSlot(store.disk, old(tree), k) == old(FindSlot(store.disk, tree, k))
      ensures store.bufs <= old(store.bufs) + {table} && store.arrs <= old(store.arrs) + {table.slots}
    {
      hide Ground, Repr, ReprKids, Shape, Offs, KidsOffs, InOrder, Sorted, FindSlot, Holder, Updated;
      RootedOffset(offset, quid);
      ghost var d := store.disk;
      table.Rewrite(i, meta, val);
      ghost var v := table.Value();
      UpdatedRepr(d, top, tree, quid, i, val, v);
      UpdatedOffs(tree, quid, val);
      UpdatedShape(tree, quid, val, height, 0, MAX_KEYS);
      if Trim() {
        UpdatedShape(tree, quid, val, height, 1, MAX_KEYS);
      }
      RewrittenFound(d, top, tree, v, quid, i, val);
      forall k | k != quid ensures FindSlot(d[offset := v], tree, k) == FindSlot(d, tree, k) {
        RewrittenFinds(d, top, tree, offset, v, quid, i, val, k);
      }
      Flush(table, offset);
      tree := Updated(tree, quid, val);
    }

    /** engine_update_data: a present key gets a new data block, its old one is
        freed first and may be the one reused. */
    method UpdateData(quid: Key, data: Bytes) returns (code: int)
      requires Valid() && pager.Fits(BLOB_INFO + |data|) && (quid in Map() ==> Map()[quid] != 0)
      modifies `tree, store, store.cache, store.bufs, store.arrs, pager, heap, heap.dbcache
      ensures Valid() && (code == 0 || code == -1)
      ensures code == 0 <==> quid in old(Map()) && !SysLocked(old(FindSlot(store.disk, tree, quid)))
      ensures code == -1 ==> Contents() == old(Contents()) && Data() == old(Data())
      ensures code == 0 ==> Map().Keys == old(Map()).Keys && (forall k | k in Map() && k != quid :: Map()[k] == old(Map())[k])
      ensures code == 0 ==> Data() == if data == [] then old(Data()) - {quid} else old(Data())[quid := data]
      ensures forall k :: MetaOf(FindSlot(store.disk, tree, k)) == old(MetaOf(FindSlot(store.disk, tree, k)))
      ensures old(Trim()) ==> Trim()
      ensures fresh(store.bufs - old(store.bufs)) && fresh(store.arrs - old(store.arrs))
    {
      hide Ground, Repr, ReprKids, Shape, Offs, KidsOffs, InOrder, Sorted, FindSlot, Holder, Updated, ToMap, DataOwned, DataMap, Stored, Put, Del, Has, Lookup, MetaOf;
      var found, at, table, i := Locate(quid);
      Found(quid);
      if !found {
        return -1;
      }
      var slot := table.slots[i];
      RootedOffset(at, quid);
      if slot.meta.syslock {
        PutBack(table, at);
        return -1;
      }
      var _ := ReplaceData(quid, at, table, i, data);
      code := 0;
    }

    /** The part of engine_update_data that exchanges the data block. */
    method ReplaceData(quid: Key, at: int, table: TableBuf, i: int, data: Bytes) returns (offset: int)
      requires Valid() && pager.Fits(BLOB_INFO + |data|)
      requires table.Valid() && 0 <= i < table.size && table.slots[i].quid == quid && store.Owned(table)
      requires FindSlot(store.disk, tree, quid) == Hit(table.slots[i]) && table.slots[i].offset != 0
      requires at == Holder(tree, quid) && at in store.disk && table.Value() == store.disk[at]
      modifies `tree, store`disk, store`bufs, store`arrs, store.cache, table.slots, pager, heap, heap.dbcache
      ensures Valid() && quid in old(Map()) && Map() == old(Map())[quid := offset]
      ensures Data() == if data == [] then old(Data()) - {quid} else old(Data())[quid := data]
      ensures forall k :: MetaOf(FindSlot(store.disk, tree, k)) == old(MetaOf(FindSlot(store.disk, tree, k)))
      ensures old(Trim()) ==> Trim()
      ensures store.bufs <= old(store.bufs) + {table} && store.arrs <= old(store.arrs) + {table.slots}
    {
      hide Ground, Repr, ReprKids, Shape, Offs, KidsOffs, InOrder, Sorted, FindSlot, Holder, Updated, ToMap, DataOwned, DataMap, Stored, Put, Del, Has, Lookup;
      var slot := table.slots[i];
      Found(quid);
      ghost var s, b, live := Contents(), heap.blobs, heap.live;
      BlocksKnown();
      OffsetsOwned(s, live);
      HoldsKey(quid, table, i);
      FreeData(slot.offset);
      PurgedData(s, b, live, heap.blobs, slot.offset, quid);
      ghost var b1, live1 := heap.blobs, heap.live;
      BlocksKnown();
      offset := AddData(data);
      BlocksKnown();
      UpdatedInOrder(store.disk, top, tree, quid, offset);
      ghost var d, t := store.disk, tree;
      Rewrite(quid, at, table, i, slot.meta, offset);
      SameMetas(d, store.disk, t, quid, offset);
      UpdateMeaning(s, Contents(), b1, live1, heap.blobs, heap.live, quid, data, offset);
    }

    /** set_meta. */
    method SetMeta(quid: Key, meta: Meta) returns (code: int)
      requires Valid()
      modifies `tree, store`disk, store`bufs, store`arrs, store.cache, store.bufs, store.arrs
      ensures Valid() && tree == old(tree) && (code == 0 || code == -1)
      ensures code == 0 <==> quid in Map() && !SysLocked(old(FindSlot(store.disk, tree, quid)))
      ensures code == -1 ==> store.disk == old(store.disk)
      ensures code == 0 ==> MetaOf(FindSlot(store.disk, tree, quid)) == [meta]
      ensures forall k | k != quid :: FindSlot(store.disk, tree, k) == old(FindSlot(store.disk, tree, k))
      ensures fresh(store.bufs - old(store.bufs)) && fresh(store.arrs - old(store.arrs))
    {
      hide Ground, Repr, ReprKids, Shape, Offs, KidsOffs, InOrder, Sorted, FindSlot, Holder, Updated, ToMap, DataOwned, DataMap, Stored, Put, Del, Has, Lookup;
      var found, at, table, i := Locate(quid);
      Found(quid);
      if !found {
        return -1;
      }
      var slot := table.slots[i];
      RootedOffset(at, quid);
      if slot.meta.syslock {
        PutBack(table, at);
        return -1;
      }
      UpdatedSame(store.disk, top, tree, quid, slot.offset);
      Rewrite(quid, at, table, i, meta, slot.offset);
      code := 0;
    }

    /** engine_delete: a key is taken out of sight, not out of the tree. */
    method Recycle(quid: Key) returns (code: int)
      requires Valid()
      modifies `tree, store`disk, store`bufs, store`arrs, store.cache, store.bufs, store.arrs
      ensures Valid() && tree == old(tree) && (code == 0 || code == -1)
      ensures code == 0 <==>
        var p := old(FindSlot(store.disk, tree, quid)); quid in Map() && Visible(p) && !SysLocked(p)
      ensures code == 0 ==> !Visible(FindSlot(store.disk, tree, quid))
      ensures code == 0 ==>
        var p := old(FindSlot(store.disk, tree, quid));
        p.Hit? && MetaOf(FindSlot(store.disk, tree, quid)) == [p.slot.meta.(lifecycle := MD_LIFECYCLE_RECYCLE)]
      ensures code == -1 ==> store.disk == old(store.disk)
      ensures forall k | k != quid :: FindSlot(store.disk, tree, k) == old(FindSlot(store.disk, tree, k))
      ensures fresh(store.bufs - old(store.bufs)) && fresh(store.arrs - old(store.arrs))
    {
      hide Rooted, InOrder, Sorted, FindSlot, Holder, ToMap, DataOwned;
      var found, offset, nodata, meta := LookupKey(quid, false);
      if !found {
        return -1;
      }
      code := SetMeta(quid, meta.(lifecycle := MD_LIFECYCLE_RECYCLE));
    }

    /** engine_insert_meta_data and its siblings. */
    method Insert(quid: Key, meta: Meta, data: Bytes) returns (code: int)
      requires Valid() && pager.Fits((height + 1) * TABLE_BYTES + BLOB_INFO + |data|)
      modifies this, store, store.cache, store.bufs, store.arrs, pager, heap, heap.dbcache
      ensures Valid() && (code == 0 || code == -1)
      ensures code == -1 <==> quid in old(Map())
      ensures code == -1 ==> Map() == old(Map()) && Data() == old(Data()) && zeroSize == old(zeroSize)
      ensures code == 0 ==> Map().Keys == old(Map()).Keys + {quid} && zeroSize == old(zeroSize) + 1
      ensures code == 0 ==> forall k | k in old(Map()) :: Map()[k] == old(Map())[k]
      ensures code == 0 ==> Data() == if data == [] then old(Data()) else old(Data())[quid := data]
      ensures code == -1 ==> store.disk == old(store.disk) && tree == old(tree)
      ensures code == 0 ==> MetaOf(FindSlot(store.disk, tree, quid)) == [meta]
      ensures code == 0 ==>
        Remarked(old(store.disk), old(tree), store.disk, tree, Map().Keys, Raised(old(tree), quid), meta)
      ensures old(Trim()) ==> Trim()
      ensures fresh(store.bufs - old(store.bufs)) && fresh(store.arrs - old(store.arrs))
    {
      hide Rooted, InOrder, Sorted, ToMap, DataOwned, DataMap, Put, FindSlot, MetaOf, Raised, Remarked;
      var _, exists_ := InsertToplevel(quid, meta, data);
      if exists_ {
        return -1;
      }
      zeroSize := zeroSize + 1;
      code := 0;
    }

    /** engine_get_force, then get_data_block: the stored bytes, unless the slot of
        the key is marked as one without data. */
    method Fetch(quid: Key) returns (found: bool, data: Bytes)
      requires Valid()
      modifies store`bufs, store`arrs, store.cache
      ensures Valid()
      ensures found <==> quid in Data() && !NoData(FindSlot(store.disk, tree, quid))
      ensures found ==> data == Data()[quid]
      ensures fresh(store.bufs - old(store.bufs)) && fresh(store.arrs - old(store.arrs))
    {
      hide Repr, ReprKids, Shape, Offs, KidsOffs, InOrder, Sorted, FindSlot, ToMap, DataOwned, TableStore.Valid, Spread, Heap.Valid;
      var hit, offset, nodata, meta := LookupKey(quid, true);
      BlocksKnown();
      OffsetsOwned(Contents(), heap.live);
      found, data := hit && !nodata && offset != 0, [];
      if found {
        data := heap.GetData(offset);
      }
    }

    /** A key that has just been inserted is fetched again. */
    method InsertAndFetch(quid: Key, meta: Meta, data: Bytes) returns (code: int, found: bool, got: Bytes)
      requires Valid() && pager.Fits((height + 1) * TABLE_BYTES + BLOB_INFO + |data|)
      modifies this, store, store.cache, store.bufs, store.arrs, pager, heap, heap.dbcache
      ensures Valid() && (code == -1 <==> quid in old(Map())) && (code == 0 || code == -1)
      ensures code == 0 ==> (found <==> data != [] && !meta.nodata) && (found ==> got == data)
    {
      assert quid in Data() ==> quid in Map();
      ghost var m := Data();
      hide *;
      code := Insert(quid, meta, data);
      ghost var m', p := Data(), FindSlot(store.disk, tree, quid);
      found, got := Fetch(quid);
      if code == 0 {
        FetchedNew(m, m', p, quid, meta, data, found, got);
      }
    }

    /** The slot the search for a present key ends at holds its data offset. */
    lemma HoldsKey(quid: Key, table: TableBuf, i: int)
      requires Valid() && table.Valid() && 0 <= i < table.size && FindSlot(store.disk, tree, quid) == Hit(table.slots[i])
      ensures Has(Contents(), quid) && table.slots[i].offset == Lookup(Contents(), quid)
    {
      FindSlotFinds(store.disk, top, tree, quid);
    }
  }

  ghost predicate SysLocked(p: Probe) {
    p.Hit? && p.slot.meta.syslock
  }

  ghost predicate NoData(p: Probe) {
    p.Hit? && p.slot.meta.nodata
  }

  /** Updating is removing and inserting again. */
  lemma UpdateMeaning(s: seq<I>, s': seq<I>, b: map<int, Blob>, live: set<int>, b': map<int, Blob>, live': set<int>,
                      quid: Key, data: Bytes, ret: int)
    requires Sorted(s) && Has(s, quid) && s' == s[Rank(s, quid) := Item(quid, ret)]
    requires DataOwned(Del(s, quid), live) && InUse(b, live) && 0 !in b && 0 !in b'
    requires Stored(b, live, b', live', data, ret)
    ensures Sorted(s') && DataOwned(s', live') && ToMap(s') == ToMap(s)[quid := ret]
    ensures var was := DataMap(ToMap(Del(s, quid)), b);
      DataMap(ToMap(s'), b') == if data == [] then was else was[quid := data]
  {
    UpdateSorted(s, quid, ret);
    var d := Del(s, quid);
    DelSorted(s, quid);
    OwnedPut(d, live, Item(quid, ret), live');
    OffsetsOwned(d, live);
    ToMapLooksUp(d, quid);
    hide ToMap, Put, Del, DataOwned, Sorted, Has;
    DataPut(ToMap(d), b, live, b', live', quid, data, ret);
  }

  lemma UpdateSorted(s: seq<I>, quid: Key, ret: int)
    requires Sorted(s) && Has(s, quid)
    ensures var s', d := s[Rank(s, quid) := Item(quid, ret)], Del(s, quid);
      s' == Put(d, Item(quid, ret)) && Sorted(s') && ToMap(s') == ToMap(s)[quid := ret] && ToMap(s') == ToMap(d)[quid := ret]
  {
    UpdateIsPut(s, Item(quid, ret));
    DelSorted(s, quid);
    DelIsRemoval(s, quid);
    PutSorted(Del(s, quid), Item(quid, ret));
    PutIsUpdate(Del(s, quid), Item(quid, ret));
    hide ToMap, Put, Del, Sorted, Has, Rank;
    assert (ToMap(s) - {quid})[quid := ret] == ToMap(s)[quid := ret];
  }

  lemma UpdateIsPut(s: seq<I>, x: I)
    requires Sorted(s) && Has(s, x.key)
    ensures Put(Del(s, x.key), x) == s[Rank(s, x.key) := x]
  {
    var r := Rank(s, x.key);
    var a, b := s[..r], s[r + 1..];
    RankSplits(s, x.key);
    LessIsStrictTotalOrder();
    assert r + 1 < |s| ==> b[0] == s[r + 1] && Less(s[r].key, s[r + 1].key);
    PutBetween(a, b, x);
    assert Del(s, x.key) == a + b;
    Replaced(s, r, x);
  }

  lemma Replaced(s: seq<I>, i: nat, x: I)
    requires i < |s|
    ensures s[i := x] == s[..i] + [x] + s[i + 1..]
  {
  }

  lemma PutBetween(a: seq<I>, b: seq<I>, x: I)
    requires AllBelow(a, x.key) && (b != [] ==> !Less(b[0].key, x.key))
    ensures Put(a + b, x) == a + [x] + b
  {
    RankAt(a, b, x.key);
    assert (a + b)[..|a|] == a && (a + b)[|a|..] == b;
  }

  /** Deleted keys are only found by force. */
  ghost predicate Visible(p: Probe) {
    p.Hit? && p.slot.meta.lifecycle == MD_LIFECYCLE_FINITE
  }

  ghost function WithoutChild(p: Probe): Probe {
    if p.Hit? then Hit(p.slot.(child := 0)) else p
  }

  lemma NothingFound(disk: map<int, Table>, t: T, quid: Key)
    requires Repr(disk, 0, t)
    ensures FindSlot(disk, t, quid) == Missing
  {
  }

  lemma RootLoose(t: T, h: nat, lo: int, lo': int)
    requires Shape(t, h, lo, MAX_KEYS) && lo' <= lo
    ensures Shape(t, h, lo', MAX_KEYS)
  {
  }

  /** What delete_table means for the map from quid to data offset. */
  lemma PurgeMeaning(d: map<int, Table>, t: T, t': T, quid: Key, ret: int, error: bool, r: int, live: set<int>)
    requires DeleteOutcome(d, t, t', quid, ret, error, r) && Removable(InOrder(t), quid, Locked(d, t, quid))
    requires Sorted(InOrder(t)) && DataOwned(InOrder(t), live)
    ensures Sorted(InOrder(t')) && DataOwned(InOrder(t'), live)
    ensures Removes(InOrder(t), quid, Locked(d, t, quid), r) && (r == -1 ==> t' == t)
    ensures Locked(d, t, quid) ==> r == NextSeparator(t, quid)
    ensures r != -1 ==> 0 <= r < |InOrder(t)| && ToMap(InOrder(t')) == ToMap(InOrder(t)) - {InOrder(t)[r].key}
    ensures !error <==> quid in ToMap(InOrder(t)) && !Locked(d, t, quid)
    ensures !error ==>
      && t.Node? && Has(InOrder(t), quid) && InOrder(t') == Del(InOrder(t), quid) && r != -1 && InOrder(t)[r].key == quid
      && ret == Lookup(InOrder(t), quid) && ret != 0 && ret in live
  {
    var s := InOrder(t);
    ToMapLooksUp(s, quid);
    RetTells(d, t, t', quid, ret, error, r);
    hide InOrder, ToMap, DataOwned, Sorted, Locked, Removable;
    if r != -1 {
      DropMeaning(s, InOrder(t'), r, ret, live);
    }
  }

  lemma DropMeaning(s: seq<I>, s': seq<I>, r: nat, ret: int, live: set<int>)
    requires Dropped(s, s', r, ret) && Sorted(s) && DataOwned(s, live)
    ensures Has(s, s[r].key) && s' == Del(s, s[r].key) && ret == Lookup(s, s[r].key) && (ret != 0 ==> ret in live)
    ensures Sorted(s') && DataOwned(s', live) && ToMap(s') == ToMap(s) - {s[r].key}
  {
    RankStopsBefore(s, s[r].key, r);
    DelSorted(s, s[r].key);
    DelIsRemoval(s, s[r].key);
    OwnedDel(s, s[r].key, live);
  }

  lemma OwnedDel(s: seq<I>, key: Key, live: set<int>)
    requires DataOwned(s, live) && Has(s, key)
    ensures DataOwned(Del(s, key), live) && DataOwned(Del(s, key), live - {Lookup(s, key)})
  {
    var r, t := Rank(s, key), Del(s, key);
    assert forall i | 0 <= i < |t| :: t[i] == s[if i < r then i else i + 1];
  }

  lemma SameData(m: map<Key, int>, b: map<int, Blob>, b': map<int, Blob>, at: int)
    requires OnlyAt(b, b', at) && at in b && b'[at].data == b[at].data
    ensures DataMap(m, b') == DataMap(m, b)
  {
    assert b'.Keys == b.Keys;
    forall k | k in m && m[k] in b ensures b'[m[k]].data == b[m[k]].data {
      if m[k] != at {
        assert b'[m[k]] == b[m[k]];
      }
    }
  }

  /** Freeing the block of a removed key leaves the data of all other keys. */
  lemma PurgedData(before: seq<I>, b: map<int, Blob>, live: set<int>, b': map<int, Blob>, ret: int, quid: Key)
    requires Sorted(before) && Has(before, quid) && DataOwned(before, live) && InUse(b, live) && 0 !in b
    requires ret == Lookup(before, quid) && ret != 0 && OnlyAt(b, b', ret) && ret in b && b'[ret].data == b[ret].data
    ensures DataOwned(Del(before, quid), live - {ret})
    ensures DataMap(ToMap(Del(before, quid)), b') == DataMap(ToMap(before), b) - {quid}
  {
    OwnedDel(before, quid, live);
    DelIsRemoval(before, quid);
    hide ToMap, Del, DataOwned, Sorted, Has, Lookup;
    SameData(ToMap(before), b, b', ret);
    assert ToMap(Del(before, quid)) == ToMap(before) - {quid};
  }

  function WithKid(t: T, i: nat, kid: T): T
    requires t.Node? && i < |t.kids|
  {
    Node(t.off, t.items, t.kids[i := kid])
  }

  lemma ClosedRepr(disk: map<int, Table>, ps: seq<int>, t: T, i: nat, kid: T)
    requires t.Node? && |t.kids| == |t.items| + 1 && i < |t.items| && ReprKids(disk, ps, t.kids)
    requires ps[i] == 0 || ps[i + 1] == 0
    requires kid == if ps[i] != 0 then t.kids[i] else t.kids[i + 1]
    ensures (kid == t.kids[i] && t.kids[i + 1] == Nil) || (kid == t.kids[i + 1] && t.kids[i] == Nil)
    ensures ReprKids(disk, ps[..i] + [if ps[i] != 0 then ps[i] else ps[i + 1]] + ps[i + 2..], Closed(t, i, kid).kids)
  {
    assert Repr(disk, ps[i], t.kids[i]) && Repr(disk, ps[i + 1], t.kids[i + 1]);
  }

  /** Two tables the caller owns, with nothing in common. */
  ghost predicate Separate(store: TableStore, a: TableBuf, b: TableBuf)
    reads store
  {
    a != b && a.slots != b.slots && store.Owned(a) && store.Owned(b)
  }

  /** Child i was split around a pivot that t has taken in. */
  ghost predicate GrownFrom(t: T, t': T, h: nat, i: nat, kid: T) {
    exists l, x, r :: GrownInto(t, t', h, i, kid, l, x, r)
  }

  ghost predicate GrownInto(t: T, t': T, h: nat, i: nat, kid: T, l: T, x: I, r: T) {
    && 0 < h && t.Node? && |t.kids| == |t.items| + 1 && i <= |t.items| && t' == Grown(t, i, l, x, r)
    && Shape(l, h - 1, 1, MAX_KEYS) && Shape(r, h - 1, 1, MAX_KEYS) && InOrder(kid) == InOrder(l) + [x] + InOrder(r)
  }

  /** A table in memory in which the search for quid stopped at i, without
      finding it. */
  ghost predicate Searched(table: TableBuf, t: T, h: nat, lo: int, i: int, quid: Key)
    reads table, table.slots
  {
    && table.Valid() && t.Node? && Shape(t, h, lo, MAX_KEYS) && Sorted(InOrder(t)) && 0 < h
    && |t.kids| == |t.items| + 1 && 0 <= i <= |t.items| <= MAX_KEYS && table.Keys() == t.items
    && IsLowerBound(t.items, quid, i) && (i < |t.items| ==> t.items[i].key != quid)
  }

  lemma DiskOkMonotone(d: map<int, Table>, top: int, top': int)
    requires DiskOk(d, top) && top <= top'
    ensures DiskOk(d, top')
  {
  }

  lemma BlobsBelow(heap: Heap)
    requires heap.Valid()
    ensures forall p | p in heap.blobs :: p + BLOB_INFO + heap.blobs[p].len <= heap.top
  {
  }

  lemma SpreadStored(d: map<int, Table>, top: int, b: map<int, Blob>, live: set<int>, b': map<int, Blob>, live': set<int>, data: Bytes, at: int)
    requires DiskOk(d, top) && Spread(d.Keys, b) && Stored(b, live, b', live', data, at)
    requires data != [] ==> if at in b then |data| <= b[at].len else top <= at
    ensures Spread(d.Keys, b')
  {
  }

  lemma SearchedFacts(table: TableBuf, t: T, h: nat, lo: int, i: int, quid: Key)
    requires Searched(table, t, h, lo, i, quid)
    ensures table.Valid() && t.Node? && Shape(t, h, lo, MAX_KEYS) && Sorted(InOrder(t)) && 0 < h
    ensures |t.kids| == |t.items| + 1 && 0 <= i <= |t.items| <= MAX_KEYS && table.Keys() == t.items
    ensures IsLowerBound(t.items, quid, i) && (i < |t.items| ==> t.items[i].key != quid)
  {
  }

  lemma NilKid(disk: map<int, Table>, ps: seq<int>, kids: seq<T>, i: nat)
    requires ReprKids(disk, ps, kids) && i < |kids| && kids[i] == Nil
    ensures |ps| == |kids| && ps[i] == 0
  {
    assert Repr(disk, ps[i], kids[i]);
  }

  /** Child i of a table in memory. */
  lemma UnderTop(disk: map<int, Table>, ps: seq<int>, t: T, i: nat, kid: T, h: nat, p: int)
    requires t.Node? && i < |t.kids| && kid.Node? && 0 < h
    requires ReprKids(disk, ps, t.kids[i := kid]) && i < |ps| && ps[i] == p
    ensures Repr(disk, p, kid) && kid.off == p && p in disk && disk[p].Ok() && disk[p].Keys() == kid.items
  {
    assert Repr(disk, ps[i], t.kids[i := kid][i]);
  }

  /** Child i had room: only it has changed. */
  lemma UnsplitOutcome(disk: map<int, Table>, t: T, h: nat, lo: int, i: nat, kid: T, quid: Key, ret: int, exists_: bool)
    requires t.Node? && Shape(t, h, lo, MAX_KEYS) && |t.kids| == |t.items| + 1 && i <= |t.items| && Sorted(InOrder(t)) && 0 < h
    requires IsLowerBound(t.items, quid, i) && (i < |t.items| ==> t.items[i].key != quid)
    requires InsertOutcome(t.kids[i], kid, quid, ret, exists_)
    requires kid.Node? && |kid.items| <= MAX_KEYS && Shape(kid, h - 1, 1, MAX_KEYS + 1)
    requires 0 < t.off && t.off in disk && disk[t.off].Ok() && disk[t.off].Keys() == t.items
    requires ReprKids(disk, disk[t.off].Kids(), t.kids[i := kid])
    ensures var t' := Node(t.off, t.items, t.kids[i := kid]);
      Repr(disk, t.off, t') && Offs(t') == multiset{t.off} + KidsOffs(t.kids[i := kid])
      && InsertOutcome(t, t', quid, ret, exists_) && Shape(t', h, lo, MAX_KEYS + 1)
  {
    InsertPassed(t, h, lo, i, kid, quid, ret, exists_);
    ShapeMonotone(Node(t.off, t.items, t.kids[i := kid]), h, lo, MAX_KEYS, h, lo, MAX_KEYS + 1);
  }

  /** Only a new key can have filled a table. */
  lemma FullIsNew(t: T, h: nat, lo: int, i: nat, kid: T, quid: Key, ret: int, exists_: bool)
    requires t.Node? && i < |t.kids| && Shape(t, h, lo, MAX_KEYS) && InsertOutcome(t.kids[i], kid, quid, ret, exists_)
    requires kid.Node? && |kid.items| > MAX_KEYS
    ensures !exists_
  {
  }

  lemma GrownTop(t: T, i: nat, l: T, x: I, r: T)
    requires t.Node? && |t.kids| == |t.items| + 1 && i <= |t.items|
    ensures var g := Grown(t, i, l, x, r);
      g.Node? && g.off == t.off && g.items == t.items[..i] + [x] + t.items[i..] && |g.kids| == |g.items| + 1
  {
  }

  lemma GrownOutcome(t: T, h: nat, lo: int, i: nat, kid: T, t': T, quid: Key, ret: int)
    requires t.Node? && Shape(t, h, lo, MAX_KEYS) && |t.kids| == |t.items| + 1 && i <= |t.items| && Sorted(InOrder(t))
    requires IsLowerBound(t.items, quid, i) && (i < |t.items| ==> t.items[i].key != quid)
    requires InsertOutcome(t.kids[i], kid, quid, ret, false) && GrownFrom(t, t', h, i, kid)
    ensures t'.Node? && Shape(t', h, lo, MAX_KEYS + 1) && InsertOutcome(t, t', quid, ret, false)
  {
    var l, x, r :| GrownInto(t, t', h, i, kid, l, x, r);
    GrownPut(t, i, l, x, r, Item(quid, ret));
    GrownShape(t, h, lo, i, l, x, r);
  }

  lemma LeafOutcome(t: T, h: nat, lo: int, i: nat, quid: Key, ret: int)
    requires t.Node? && Shape(t, h, lo, MAX_KEYS) && 0 < h && |t.kids| == |t.items| + 1 && i <= |t.items| && Sorted(InOrder(t))
    requires IsLowerBound(t.items, quid, i) && (i < |t.items| ==> t.items[i].key != quid)
    requires t.kids[i] == Nil
    ensures var t' := Grown(t, i, Nil, Item(quid, ret), Nil);
      t'.Node? && Shape(t', h, lo, MAX_KEYS + 1) && InsertOutcome(t, t', quid, ret, false)
  {
    InsertHere(quid, ret);
    GrownPut(t, i, Nil, Item(quid, ret), Nil, Item(quid, ret));
    GrownShape(t, h, lo, i, Nil, Item(quid, ret), Nil);
  }

  /** After allocation, the children of a full table are still in place and
      apart from the two offsets about to be written. */
  lemma HalvesReady(d: map<int, Table>, d': map<int, Table>, ps: seq<int>, t: T, right: int, rest: multiset<int>, fl: seq<int>)
    requires t.Node? && |t.kids| == TABLE_SIZE && ReprKids(d, ps, t.kids) && SameOn(d, d', Offs(t) + rest)
    requires multiset(d'.Keys) == Offs(t) + rest + multiset{right} + multiset(fl)
    ensures t.off in d' && right in d' && t.off != right && t.off !in fl && right !in fl && t.off !in rest && right !in rest
    ensures ReprKids(d', ps[..PIVOT + 1], t.kids[..PIVOT + 1]) && ReprKids(d', ps[PIVOT + 1..], t.kids[PIVOT + 1..])
    ensures t.off !in KidsOffs(t.kids[..PIVOT + 1]) && t.off !in KidsOffs(t.kids[PIVOT + 1..])
    ensures right !in KidsOffs(t.kids[..PIVOT + 1]) && right !in KidsOffs(t.kids[PIVOT + 1..])
  {
    ReprKidsFrame(d, d', ps, t.kids);
    ReprKidsCut(d', ps, t.kids, PIVOT + 1);
    KidsOffsCut(t.kids, PIVOT + 1);
    HalvesApart(d'.Keys, t.off, right, KidsOffs(t.kids[..PIVOT + 1]), KidsOffs(t.kids[PIVOT + 1..]), rest, multiset(fl));
  }

  lemma HalvesApart(keys: set<int>, o: int, n: int, a: multiset<int>, b: multiset<int>, rest: multiset<int>, fl: multiset<int>)
    requires multiset(keys) == multiset{o} + (a + b) + rest + multiset{n} + fl
    ensures o in keys && o !in a && o !in b && o !in rest && o !in fl && o != n
    ensures n in keys && n !in a && n !in b && n !in rest && n !in fl
  {
    assert multiset(keys) == multiset{o} + (a + b + rest + fl + multiset{n});
    Alone(keys, o, a + b + rest + fl + multiset{n});
    assert multiset(keys) == multiset{n} + (a + b + rest + fl + multiset{o});
    Alone(keys, n, a + b + rest + fl + multiset{o});
  }

  lemma HalvesWritten(d: map<int, Table>, l: T, lv: Table, r: T, rv: Table)
    requires l.Node? && r.Node? && l.off in d && r.off in d && l.off != r.off && 0 < l.off && 0 < r.off
    requires lv.Ok() && lv.Keys() == l.items && |l.kids| == |l.items| + 1 && ReprKids(d, lv.Kids(), l.kids)
    requires rv.Ok() && rv.Keys() == r.items && |r.kids| == |r.items| + 1 && ReprKids(d, rv.Kids(), r.kids)
    requires l.off !in KidsOffs(l.kids) && r.off !in KidsOffs(l.kids) && l.off !in KidsOffs(r.kids) && r.off !in KidsOffs(r.kids)
    ensures Repr(d[r.off := rv][l.off := lv], l.off, l) && Repr(d[r.off := rv][l.off := lv], r.off, r)
  {
    var d1 := d[r.off := rv];
    TableWritten(d, r, rv);
    ReprKidsFrame(d, d1, lv.Kids(), l.kids);
    TableWritten(d1, l, lv);
    ReprFrame(d1, d1[l.off := lv], r.off, r);
  }

  lemma DataStepNew(b: map<int, Blob>, live: set<int>, b': map<int, Blob>, live': set<int>, data: Bytes, ret: int)
    requires Stored(b, live, b', live', data, ret)
    ensures DataStep(b, live, b', live', data, ret, false)
  {
  }

  lemma RootStep(t: T, t': T, quid: Key, ret: int, exists_: bool)
    requires InsertOutcome(t, t', quid, ret, exists_)
    ensures if exists_ then Has(InOrder(t), quid) && InOrder(t') == InOrder(t) && ret == Lookup(InOrder(t), quid)
            else !Has(InOrder(t), quid) && InOrder(t') == Put(InOrder(t), Item(quid, ret))
  {
  }

  lemma RootTight(t: T, h: nat, lo: int)
    requires t.Node? && Shape(t, h, lo, MAX_KEYS + 1) && |t.items| <= MAX_KEYS && 0 <= lo
    ensures Shape(t, h, lo, MAX_KEYS) && Shape(t, h, 0, MAX_KEYS)
  {
  }

  lemma ReprPair(d: map<int, Table>, d': map<int, Table>, p: int, l: T, q: int, r: T)
    requires Repr(d, p, l) && Repr(d, q, r) && SameOn(d, d', Offs(l) + Offs(r))
    ensures ReprKids(d', [p, q], [l, r])
  {
    ReprFrame(d, d', p, l);
    ReprFrame(d, d', q, r);
  }

  /** What insertion means for the two maps. */
  lemma InsertMeaning(before: seq<I>, after: seq<I>, b: map<int, Blob>, live: set<int>, b': map<int, Blob>, live': set<int>,
                      quid: Key, data: Bytes, ret: int, exists_: bool)
    requires Sorted(before) && DataOwned(before, live) && InUse(b, live) && 0 !in b && 0 !in b'
    requires DataStep(b, live, b', live', data, ret, exists_)
    requires if exists_ then Has(before, quid) && after == before && ret == Lookup(before, quid)
             else !Has(before, quid) && after == Put(before, Item(quid, ret))
    ensures Sorted(after) && DataOwned(after, live') && (exists_ <==> quid in ToMap(before))
    ensures exists_ ==> ret == ToMap(before)[quid] && b' == b
    ensures !exists_ ==> ToMap(after) == ToMap(before)[quid := ret] && (ret != 0 <==> data != [])
    ensures !exists_ ==>
      DataMap(ToMap(after), b') == (if data == [] then DataMap(ToMap(before), b) else DataMap(ToMap(before), b)[quid := data])
  {
    ToMapLooksUp(before, quid);
    if !exists_ {
      PutSorted(before, Item(quid, ret));
      PutIsUpdate(before, Item(quid, ret));
      OwnedPut(before, live, Item(quid, ret), live');
      OffsetsOwned(before, live);
      hide ToMap, Put, DataOwned, Sorted, Has;
      DataPut(ToMap(before), b, live, b', live', quid, data, ret);
    }
  }

  lemma OwnedPut(s: seq<I>, live: set<int>, x: I, live': set<int>)
    requires DataOwned(s, live) && live <= live' && (x.val != 0 ==> x.val in live' && x.val !in live)
    ensures DataOwned(Put(s, x), live')
  {
    var r, t := Rank(s, x.key), Put(s, x);
    assert forall i | 0 <= i < |t| :: t[i] == if i < r then s[i] else if i == r then x else s[i - 1];
  }

  lemma OffsetsOwned(s: seq<I>, live: set<int>)
    requires Sorted(s) && DataOwned(s, live)
    ensures forall k | k in ToMap(s) :: ToMap(s)[k] == 0 || ToMap(s)[k] in live
  {
    forall k | k in ToMap(s) ensures ToMap(s)[k] == 0 || ToMap(s)[k] in live {
      ToMapLooksUp(s, k);
    }
  }

  lemma DataPut(m: map<Key, int>, b: map<int, Blob>, live: set<int>, b': map<int, Blob>, live': set<int>, quid: Key, data: Bytes, ret: int)
    requires Stored(b, live, b', live', data, ret) && InUse(b, live) && 0 !in b && 0 !in b'
    requires quid !in m && forall k | k in m :: m[k] == 0 || m[k] in live
    ensures DataMap(m[quid := ret], b') == if data == [] then DataMap(m, b) else DataMap(m, b)[quid := data]
  {
    var m', d := m[quid := ret], if data == [] then DataMap(m, b) else DataMap(m, b)[quid := data];
    forall k
      ensures k in DataMap(m', b') <==> k in d
      ensures k in d ==> DataMap(m', b')[k] == d[k]
    {
      if k != quid && k in m {
        assert m'[k] == m[k] && (m[k] == 0 || m[k] != ret);
      }
    }
  }

  lemma ShapeNonempty(t: T, h: nat)
    requires t.Node? && Shape(t, h, 0, MAX_KEYS) && 0 < |t.items|
    ensures Shape(t, h, 1, MAX_KEYS)
  {
  }

  lemma SameOnSelf(d: map<int, Table>, offs: multiset<int>)
    ensures SameOn(d, d, offs)
  {
  }

  lemma DataStepNone(b: map<int, Blob>, live: set<int>, data: Bytes, ret: int)
    ensures DataStep(b, live, b, live, data, ret, true)
  {
  }

  lemma LowerBoundRange(items: seq<I>, key: Key, i: int)
    requires IsLowerBound(items, key, i)
    ensures 0 <= i <= |items|
  {
  }

  lemma SortedTop(t: T)
    requires t.Node? && |t.kids| == |t.items| + 1 && Sorted(InOrder(t))
    ensures Sorted(t.items)
    ensures forall i | 0 <= i <= |t.items| :: Sorted(InOrder(t.kids[i]))
  {
    SortedNode(t.items, t.kids);
  }

  // ----- metadata -----

  lemma MarksNone(d: map<int, Table>, t: T, quid: Key, m0: Meta)
    ensures InsertMarks(d, t, d, t, quid, true, m0)
  {
  }

  lemma SameOnPart(d: map<int, Table>, d': map<int, Table>, a: multiset<int>, b: multiset<int>)
    requires SameOn(d, d', a + b)
    ensures SameOn(d, d', b)
  {
  }

  lemma FirstMarks(d: map<int, Table>, quid: Key)
    ensures Raised(Nil, quid) == {quid}
  {
    assert HandedUp(Nil, quid) == [quid];
  }

  lemma FirstStep(d: map<int, Table>, d': map<int, Table>, t': T, quid: Key, m0: Meta)
    requires MarksTopped(d, Nil, Nil, d', t', quid, m0)
    ensures MarksStep(d, Nil, d', t', {quid}, m0)
  {
  }

  /** Only a new key fills a table. */
  lemma TopRoom(t: T, t': T, h: nat, lo: int, quid: Key, ret: int, exists_: bool)
    requires t.Node? && t'.Node? && Shape(t, h, lo, MAX_KEYS) && Shape(t', h, lo, MAX_KEYS + 1) && InsertOutcome(t, t', quid, ret, exists_)
    ensures |t'.items| <= MAX_KEYS + 1 && (exists_ ==> t' == t && |t'.items| <= MAX_KEYS)
  {
  }

  lemma KidRoom(t: T, h: nat, lo: int, i: nat, kid: T, quid: Key, ret: int, exists_: bool)
    requires t.Node? && i < |t.kids| && 0 < h && Shape(t, h, lo, MAX_KEYS)
    requires kid.Node? && Shape(kid, h - 1, 1, MAX_KEYS + 1) && InsertOutcome(t.kids[i], kid, quid, ret, exists_)
    ensures |kid.items| <= MAX_KEYS + 1 && (exists_ ==> kid == t.kids[i] && |kid.items| <= MAX_KEYS)
  {
  }

  /** The halves are ready to be written, and what that does to the metadata. */
  lemma SplitReady(d: map<int, Table>, d1: map<int, Table>, ps: seq<int>, t: T, right: int, rest: multiset<int>, fl: seq<int>, lv: Table, rv: Table)
    requires t.Node? && |t.items| == TABLE_SIZE - 1 && |t.kids| == TABLE_SIZE && Repr(d, t.off, t) && ps == d[t.off].Kids()
    requires SameOn(d, d1, Offs(t) + rest) && multiset(d1.Keys) == Offs(t) + rest + multiset{right} + multiset(fl)
    requires lv.Ok() && rv.Ok() && lv.Marks() == d[t.off].Marks()[..PIVOT] && rv.Marks() == d[t.off].Marks()[PIVOT + 1..]
    ensures t.off in d1 && right in d1 && t.off != right && t.off !in fl && right !in fl && t.off !in rest && right !in rest
    ensures ReprKids(d1, ps[..PIVOT + 1], t.kids[..PIVOT + 1]) && ReprKids(d1, ps[PIVOT + 1..], t.kids[PIVOT + 1..])
    ensures t.off !in KidsOffs(t.kids[..PIVOT + 1]) && t.off !in KidsOffs(t.kids[PIVOT + 1..])
    ensures right !in KidsOffs(t.kids[..PIVOT + 1]) && right !in KidsOffs(t.kids[PIVOT + 1..])
    ensures MarksSplit(d, t, d1[right := rv][t.off := lv], LowerHalf(t), UpperHalf(t, right), t.items[PIVOT].key)
  {
    HalvesReady(d, d1, ps, t, right, rest, fl);
    KidsOffsCut(t.kids, PIVOT + 1);
    hide MarksSplit;
    SplitIs(d, d1, t, right, lv, rv);
  }

  lemma InsertedMetas(d: map<int, Table>, p: int, t: T, d': map<int, Table>, p': int, t': T, quid: Key, ret: int, m0: Meta)
    requires Repr(d, p, t) && Repr(d', p', t') && Sorted(InOrder(t)) && Sorted(InOrder(t'))
    requires MarksStep(d, t, d', t', Raised(t, quid), m0) && quid in Raised(t, quid)
    requires ToMap(InOrder(t')) == ToMap(InOrder(t))[quid := ret]
    ensures Remarked(d, t, d', t', ToMap(InOrder(t')).Keys, Raised(t, quid), m0)
    ensures MetaOf(FindSlot(d', t', quid)) == [m0]
  {
    var up := Raised(t, quid);
    forall k | k in ToMap(InOrder(t')).Keys
      ensures MetaOf(FindSlot(d', t', k)) == if k in up then [m0] else MetaOf(FindSlot(d, t, k))
    {
      if k != quid {
        FindSlotFinds(d, p, t, k);
        ToMapLooksUp(InOrder(t), k);
      }
      hide MarksStep, Raised, FindSlot, InOrder, ToMap, Repr, Sorted, Has;
      StepFinds(d, p, t, d', p', t', up, m0, k);
    }
    StepFinds(d, p, t, d', p', t', up, m0, quid);
  }

  lemma FetchedNew(m: map<Key, Bytes>, m': map<Key, Bytes>, p: Probe, quid: Key, meta: Meta, data: Bytes, found: bool, got: Bytes)
    requires quid !in m && m' == (if data == [] then m else m[quid := data]) && MetaOf(p) == [meta]
    requires (found <==> quid in m' && !NoData(p)) && (found ==> got == m'[quid])
    ensures (found <==> data != [] && !meta.nodata) && (found ==> got == data)
  {
  }

  lemma SameSiblings(t: T, i: nat, kid: T)
    requires t.Node? && i < |t.kids|
    ensures Siblings(WithKid(t, i, kid), i) == Siblings(t, i)
  {
    var ks := t.kids[i := kid];
    assert ks[..i] == t.kids[..i] && ks[i + 1..] == t.kids[i + 1..];
  }

  lemma SameOnAgain(d: map<int, Table>, d1: map<int, Table>, d2: map<int, Table>, offs: multiset<int>)
    requires SameOn(d, d1, offs) && SameOn(d1, d2, offs)
    ensures SameOn(d, d2, offs)
  {
  }

  lemma NoHeirs(d: map<int, Table>, v: Table, ks: seq<T>, d': map<int, Table>, v': Table, ks': seq<T>, g: Key, m: Meta)
    requires UnderGone(d, v, ks, d', v', ks', g, {}, m)
    ensures UnderGone(d, v, ks, d', v', ks', g, {}, NO_META)
  {
    hide MarkedUnder;
  }

  lemma NoHeir(t: T, i: nat)
    requires t.Node? && |t.kids| == |t.items| + 1 && i < |t.items|
    ensures Heirs(InOrder(t), |LeftOf(t, i)|, {})
  {
    AroundItem(t, i);
  }

  /** The neighbour left and right of item i. */
  lemma HeirLeft(t: T, i: nat, y: I, kid: T)
    requires t.Node? && |t.kids| == |t.items| + 1 && i < |t.items| && InOrder(t.kids[i]) == InOrder(kid) + [y]
    ensures Heirs(InOrder(t), |LeftOf(t, i)|, {y.key})
  {
    AroundItem(t, i);
    var b, k := Before(t.items, t.kids, i), InOrder(kid);
    hide Flat, Before, After, LeftOf, RightOf;
    assert LeftOf(t, i) == b + (k + [y]);
    assert (b + (k + [y]))[|b| + |k|] == y;
    assert InOrder(t)[|LeftOf(t, i)| - 1] == LeftOf(t, i)[|b| + |k|];
  }

  lemma HeirRight(t: T, i: nat, y: I, kid: T)
    requires t.Node? && |t.kids| == |t.items| + 1 && i < |t.items| && InOrder(t.kids[i + 1]) == [y] + InOrder(kid)
    ensures Heirs(InOrder(t), |LeftOf(t, i)|, {y.key})
  {
    AroundItem(t, i);
    var a, k := After(t.items, t.kids, i + 1), InOrder(kid);
    hide Flat, Before, After, LeftOf, RightOf;
    assert RightOf(t, i) == ([y] + k) + a;
    assert (([y] + k) + a)[0] == y;
    assert InOrder(t)[|LeftOf(t, i)| + 1] == RightOf(t, i)[0];
  }

  lemma NoDeletion(d: map<int, Table>, t: T)
    ensures forall heirs, m0 :: DeleteMarks(d, t, d, t, -1, heirs, m0)
  {
  }

  /** Removed in this table. */
  lemma ItemHere(t: T, i: nat)
    requires t.Node? && |t.kids| == |t.items| + 1 && i < |t.items|
    ensures |LeftOf(t, i)| < |InOrder(t)| && InOrder(t)[|LeftOf(t, i)|] == t.items[i]
  {
    AroundItem(t, i);
  }

  lemma GoneHere(d: map<int, Table>, t: T, d': map<int, Table>, t': T, i: nat, heirs: set<Key>, m0: Meta)
    requires t.Node? && |t.kids| == |t.items| + 1 && i < |t.items| && t.off in d && d[t.off].Ok() && d[t.off].Keys() == t.items
    requires d[t.off].slots[i].meta == m0 && Heirs(InOrder(t), |LeftOf(t, i)|, heirs)
    requires MarksGone(d, t, d', t', t.items[i].key, heirs, m0)
    ensures DeleteMarks(d, t, d', t', |LeftOf(t, i)|, heirs, m0)
  {
    ItemHere(t, i);
    assert d[t.off].Keys()[i].key == d[t.off].slots[i].quid;
    assert d[t.off].Marks()[i] == (t.items[i].key, m0);
  }

  lemma MarkHere(d: map<int, Table>, t: T, i: nat, m0: Meta)
    requires t.Node? && |t.kids| == |t.items| + 1 && i < |t.items| && t.off in d && d[t.off].Ok() && d[t.off].Keys() == t.items
    requires d[t.off].slots[i].meta == m0
    ensures |LeftOf(t, i)| < |InOrder(t)| && InOrder(t)[|LeftOf(t, i)|].key == t.items[i].key && Marked(d, t, t.items[i].key, m0)
  {
    ItemHere(t, i);
    assert d[t.off].Keys()[i].key == d[t.off].slots[i].quid;
    assert d[t.off].Marks()[i] == (t.items[i].key, m0);
  }

  /** Nothing was removed below. */
  lemma KidKept(d: map<int, Table>, t: T, i: nat, d1: map<int, Table>, kid: T, rb: int, heirs: set<Key>, m0: Meta)
    requires t.Node? && i < |t.kids| && DeleteMarks(d, t.kids[i], d1, kid, rb, heirs, m0) && rb == -1
    ensures d1 == d && kid == t.kids[i]
  {
  }

  /** Removed below. */
  lemma KidDeleted(d: map<int, Table>, d1: map<int, Table>, d2: map<int, Table>, v: Table, v': Table, t: T, i: nat, kid: T, kid': T,
                   rb: int, heirs: set<Key>, m0: Meta) returns (g: Key)
    requires t.Node? && |t.kids| == |t.items| + 1 && i < |t.kids| && v.Ok() && v'.Ok() && v'.Marks() == v.Marks()
    requires t.off in d && d[t.off] == v && ReprKids(d, v.Kids(), t.kids) && SameOn(d, d2, Siblings(t, i))
    requires rb != -1 && DeleteMarks(d, t.kids[i], d1, kid, rb, heirs, m0) && MarksKept(d1, kid, d2, kid')
    ensures var r := |Before(t.items, t.kids, i)| + rb;
      0 <= r < |InOrder(t)| && InOrder(t)[r].key == g && Heirs(InOrder(t), r, heirs) && Marked(d, t, g, m0)
    ensures UnderGone(d, v, t.kids, d2, v', t.kids[i := kid'], g, heirs, m0)
  {
    g := InOrder(t.kids[i])[rb].key;
    MarkInKid(d, v, t.kids, i, g, m0);
    MarkAtTop(d, t, v, g, m0);
    FlatAt(t.items, t.kids, i);
    HeirsInside(Before(t.items, t.kids, i), InOrder(t.kids[i]), After(t.items, t.kids, i), rb, heirs);
    hide Marked, MarkedUnder, MarksGone, MarksKept, UnderGone, Siblings, SameOn, Repr, ReprKids, InOrder, Before, After;
    GoneThenKept(d, t.kids[i], d1, kid, d2, kid', g, heirs, m0);
    KidGone(d, d2, v, v', t, i, kid', g, heirs, m0);
  }

  lemma WrittenGone(d: map<int, Table>, t: T, d': map<int, Table>, t': T, r: int, g: Key, heirs: set<Key>, m0: Meta)
    requires 0 <= r < |InOrder(t)| && InOrder(t)[r].key == g && Heirs(InOrder(t), r, heirs)
    requires Marked(d, t, g, m0) && MarksGone(d, t, d', t', g, heirs, m0)
    ensures DeleteMarks(d, t, d', t', r, heirs, m0)
  {
  }

  /** What deletion means for the metadata that searches find. */
  lemma PurgedMetas(d: map<int, Table>, p: int, t: T, d1: map<int, Table>, t1: T, d2: map<int, Table>, p2: int, t2: T,
                    r: int, heirs: set<Key>, m0: Meta)
    requires Repr(d, p, t) && Repr(d2, p2, t2) && Sorted(InOrder(t)) && Sorted(InOrder(t2))
    requires r != -1 && DeleteMarks(d, t, d1, t1, r, heirs, m0) && MarksKept(d1, t1, d2, t2)
    requires 0 <= r < |InOrder(t)| && ToMap(InOrder(t2)) == ToMap(InOrder(t)) - {InOrder(t)[r].key}
    ensures Heirs(InOrder(t), r, heirs) && MetaOf(FindSlot(d, t, InOrder(t)[r].key)) == [m0]
    ensures Remarked(d, t, d2, t2, ToMap(InOrder(t2)).Keys, heirs, m0)
  {
    var g := InOrder(t)[r].key;
    GoneThenKept(d, t, d1, t1, d2, t2, g, heirs, m0);
    MarkedFound(d, p, t, g, m0);
    forall k | k in ToMap(InOrder(t2)).Keys
      ensures MetaOf(FindSlot(d2, t2, k)) == if k in heirs then [m0] else MetaOf(FindSlot(d, t, k))
    {
      FindSlotFinds(d, p, t, k);
      ToMapLooksUp(InOrder(t), k);
      hide FindSlot, InOrder, ToMap, Repr, Sorted, Has, Marked;
      GoneFinds(d, p, t, d2, p2, t2, g, heirs, m0, k);
    }
  }

  /** Another data offset and no other metadata. */
  lemma SameMetas(d: map<int, Table>, d': map<int, Table>, t: T, key: Key, val: int)
    requires forall k | k != key :: FindSlot(d', t, k) == FindSlot(d, t, k)
    requires MetaOf(FindSlot(d', t, key)) == MetaOf(FindSlot(d, t, key))
    ensures forall k :: MetaOf(FindSlot(d', Updated(t, key, val), k)) == MetaOf(FindSlot(d, t, k))
  {
    forall k ensures MetaOf(FindSlot(d', Updated(t, key, val), k)) == MetaOf(FindSlot(d, t, k)) {
      UpdatedFinds(d', t, key, val, k);
    }
  }
}
