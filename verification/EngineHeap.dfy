/**
 * Data blocks of the key engine (struct _blob_info, src/engine.c) and the
 * cache of freed blocks that are waiting to be reused.
 */
module EngineHeap {
  import opened Pages

  const DBCACHE_SLOTS := 25
  const DBCACHE_DENSITY := 75

  /** sizeof(struct _blob_info). */
  const BLOB_INFO: nat := 13

  type Bytes = string

  datatype Blob = Blob(len: nat, next: int, free: bool, data: Bytes)

  /** struct engine_dbcache; a zero length marks an unused slot. */
  datatype DbSlot = DbSlot(len: nat, offset: int)

  /** Nothing but the block at `at` has changed. */
  ghost predicate OnlyAt(b: map<int, Blob>, b': map<int, Blob>, at: int) {
    && b'.Keys == b.Keys + {at}
    && forall o | o in b && o != at :: b'[o] == b[o]
  }

  /** `data` was stored at `at`, in a block that was not in use before; no data
      at all takes no block. */
  ghost predicate Stored(b: map<int, Blob>, live: set<int>, b': map<int, Blob>, live': set<int>, data: Bytes, at: int) {
    if data == [] then at == 0 && b' == b && live' == live
    else
      && 0 < at && at !in live && live' == live + {at}
      && OnlyAt(b, b', at) && b'[at].data == data && b'[at].len == |data| && !b'[at].free
  }

  /** No two blocks overlap, and all of them lie below `top`. */
  ghost predicate Disjoint(b: map<int, Blob>, top: int) {
    && (forall o | o in b :: 0 < o && o + BLOB_INFO + b[o].len <= top)
    && forall o, p | o in b && p in b && o < p :: o + BLOB_INFO + b[o].len <= p
  }

  ghost predicate InUse(b: map<int, Blob>, live: set<int>) {
    forall o | o in live :: o in b && !b[o].free && 0 < b[o].len == |b[o].data|
  }

  /** Every occupied slot knows a block that is not in use, and how much fits
      into it; no block is offered twice. */
  ghost predicate Offered(b: map<int, Blob>, live: set<int>, slots: seq<DbSlot>) {
    && (forall s | 0 <= s < |slots| && slots[s].len != 0 ::
          slots[s].offset in b && slots[s].offset !in live && b[slots[s].offset].len == slots[s].len)
    && forall s, u | 0 <= s < u < |slots| && slots[s].len != 0 && slots[u].len != 0 :: slots[s].offset != slots[u].offset
  }

  ghost predicate Withdrawn(slots: seq<DbSlot>, offset: int) {
    forall s | 0 <= s < |slots| && slots[s].len != 0 :: slots[s].offset != offset
  }

  lemma TakenOk(b: map<int, Blob>, live: set<int>, slots: seq<DbSlot>, i: nat)
    requires Offered(b, live, slots) && i < |slots| && slots[i].len != 0
    ensures var offset := slots[i].offset;
      offset in b && offset !in live && b[offset].len == slots[i].len && Withdrawn(slots[i := slots[i].(len := 0)], offset)
    ensures Offered(b, live, slots[i := slots[i].(len := 0)])
  {
  }

  /** Writing a block into a withdrawn one that is large enough, or past the end. */
  lemma StoredOk(b: map<int, Blob>, live: set<int>, slots: seq<DbSlot>, top: int, at: int, x: Blob, top': int)
    requires Disjoint(b, top) && InUse(b, live) && Offered(b, live, slots)
    requires 0 < at && at !in live && Withdrawn(slots, at) && x.data != [] && x.len == |x.data| && !x.free
    requires if at in b then x.len <= b[at].len && top' == top else top <= at && top' == at + BLOB_INFO + x.len
    ensures Disjoint(b[at := x], top') && InUse(b[at := x], live + {at}) && Offered(b[at := x], live + {at}, slots)
  {
  }

  /** Slot i receives a freed block, the slots before it move down by one when
      it was occupied. */
  function Offer(slots: seq<DbSlot>, i: nat, x: DbSlot): (r: seq<DbSlot>)
    requires i < |slots|
    ensures |r| == |slots|
  {
    if slots[i].len != 0 then slots[1..i + 1] + [x] + slots[i + 1..] else slots[i := x]
  }

  lemma OfferAt(slots: seq<DbSlot>, i: nat, x: DbSlot, s: nat)
    requires i < |slots| && s < |slots|
    ensures Offer(slots, i, x)[s] == if s == i then x else if slots[i].len != 0 && s < i then slots[s + 1] else slots[s]
  {
  }

  lemma OfferedOk(b: map<int, Blob>, live: set<int>, slots: seq<DbSlot>, i: nat, x: DbSlot)
    requires Offered(b, live, slots) && Withdrawn(slots, x.offset) && i < |slots|
    requires x.offset in b && x.offset !in live && b[x.offset].len == x.len
    ensures Offered(b, live, Offer(slots, i, x))
  {
    forall s | 0 <= s < |slots| {
      OfferAt(slots, i, x, s);
    }
  }

  lemma FreedOk(b: map<int, Blob>, live: set<int>, slots: seq<DbSlot>, top: int, at: int)
    requires Disjoint(b, top) && InUse(b, live) && Offered(b, live, slots) && at in live
    ensures var b' := b[at := b[at].(free := true, next := 0)];
      Disjoint(b', top) && InUse(b', live - {at}) && Offered(b', live - {at}, slots) && Withdrawn(slots, at)
  {
  }

  class Heap {
    const pager: Pager
    const dbcache: array<DbSlot>
    var blobs: map<int, Blob>
    var lastBlock: int
    var heapFree: int       // base->stats.heap_free_size
    ghost var live: set<int>
    ghost var top: nat

    ghost predicate Valid()
      reads this, dbcache
    {
      && dbcache.Length == DBCACHE_SLOTS
      && Disjoint(blobs, top) && InUse(blobs, live) && Offered(blobs, live, dbcache[..])
    }

    constructor (pager: Pager)
      ensures Valid() && this.pager == pager && blobs == map[] && live == {} && top == 0
      ensures fresh(dbcache)
    {
      this.pager := pager;
      dbcache := new DbSlot[DBCACHE_SLOTS](_ => DbSlot(0, 0));
      blobs, lastBlock, heapFree, live, top := map[], 0, 0, {}, 0;
    }

    /** The part of alloc_dbchunk that looks for a freed block: large enough, and
        at least three quarters used by the request. */
    method TakeFreed(len: nat) returns (found: bool, offset: int)
      requires Valid() && 0 < len
      modifies `heapFree, dbcache
      ensures Valid()
      ensures found ==>
        && offset in blobs && offset !in live && len <= blobs[offset].len
        && blobs[offset].len * DBCACHE_DENSITY <= len * 100
        && Withdrawn(dbcache[..], offset)
    {
      hide Offered, Withdrawn, Disjoint, InUse;
      found, offset := false, 0;
      if dbcache[DBCACHE_SLOTS - 1].len != 0 {
        var i := 0;
        while i < DBCACHE_SLOTS
          invariant 0 <= i <= DBCACHE_SLOTS
          invariant Valid()
        {
          var slot := dbcache[i];
          if len <= slot.len && len * 100 >= slot.len * DBCACHE_DENSITY {
            ghost var slots := dbcache[..];
            TakenOk(blobs, live, slots, i);
            dbcache[i] := slot.(len := 0);
            assert dbcache[..] == slots[i := slot.(len := 0)];
            heapFree := heapFree - 1;
            return true, slot.offset;
          }
          i := i + 1;
        }
      }
    }

    /** insert_data: store a block and make it the last one. */
    method InsertData(data: Bytes) returns (offset: int)
      requires Valid() && pager.Valid() && top <= pager.offset && pager.Fits(BLOB_INFO + |data|)
      modifies this, dbcache, pager
      ensures Valid() && pager.Valid() && top <= pager.offset && pager.count == 1
      ensures old(pager.offset) <= pager.offset <= old(pager.offset) + BLOB_INFO + |data|
      ensures Stored(old(blobs), old(live), blobs, live, data, offset)
      ensures data != [] ==> if offset in old(blobs) then |data| <= old(blobs)[offset].len else old(pager.offset) <= offset
    {
      hide Offered, Withdrawn, InUse;
      if data == [] {
        return 0;
      }
      var found;
      found, offset := TakeFreed(|data|);
      ghost var top' := top;
      if !found {
        offset := AllocBlock(|data|);
        top' := pager.offset;
      }
      StoredOk(blobs, live, dbcache[..], top, offset, Blob(|data|, lastBlock, false, data), top');
      hide Disjoint;
      blobs := blobs[offset := Blob(|data|, lastBlock, false, data)];
      lastBlock := offset;
      live := live + {offset};
      top := top';
    }

    /** The rest of alloc_dbchunk: grow the file. */
    method AllocBlock(len: nat) returns (offset: int)
      requires Valid() && pager.Valid() && top <= pager.offset && pager.Fits(BLOB_INFO + len) && 0 < len
      modifies pager
      ensures pager.Valid() && pager.count == 1 && offset == old(pager.offset) && pager.offset == offset + BLOB_INFO + len
      ensures 0 < offset && offset !in blobs && offset !in live && Withdrawn(dbcache[..], offset)
    {
      offset := pager.Alloc(BLOB_INFO + len);
    }

    /** free_dbchunk: mark a block free and offer it for reuse; when every slot
        holds a block at least as large, it is forgotten. */
    method FreeDbChunk(offset: int)
      requires Valid() && offset in live
      requires pager.Valid() && top <= pager.offset && pager.count == 1
      modifies this, dbcache
      ensures Valid() && top == old(top) && live == old(live) - {offset}
      ensures OnlyAt(old(blobs), blobs, offset) && offset in old(blobs)
      ensures blobs[offset] == old(blobs)[offset].(free := true, next := 0)
    {
      assert offset in blobs;
      FreedOk(blobs, live, dbcache[..], top, offset);
      var _, at := pager.GetFd(offset);
      hide Offered, Withdrawn, Disjoint, InUse;
      var len := blobs[offset].len;
      blobs := blobs[offset := blobs[offset].(free := true, next := 0)];
      live := live - {offset};
      heapFree := heapFree + 1;
      var i := DBCACHE_SLOTS - 1;
      while i >= 0 && len <= dbcache[i].len
        invariant -1 <= i < DBCACHE_SLOTS
      {
        i := i - 1;
      }
      if i >= 0 {
        OfferedOk(blobs, live, dbcache[..], i, DbSlot(len, at));
        OfferBlock(i, DbSlot(len, at));
      }
    }

    method OfferBlock(i: int, x: DbSlot)
      requires dbcache.Length == DBCACHE_SLOTS && 0 <= i < DBCACHE_SLOTS
      modifies dbcache
      ensures dbcache[..] == Offer(old(dbcache[..]), i, x)
    {
      if dbcache[i].len != 0 {
        var j := 0;
        while j < i
          invariant 0 <= j <= i
          invariant forall k | 0 <= k < j :: dbcache[k] == old(dbcache[k + 1])
          invariant forall k | j <= k < DBCACHE_SLOTS :: dbcache[k] == old(dbcache[k])
        {
          dbcache[j] := dbcache[j + 1];
          j := j + 1;
        }
      }
      dbcache[i] := x;
      forall s | 0 <= s < DBCACHE_SLOTS ensures dbcache[s] == Offer(old(dbcache[..]), i, x)[s] {
        OfferAt(old(dbcache[..]), i, x, s);
      }
    }

    /** get_data: the bytes of a block. */
    method GetData(offset: int) returns (data: Bytes)
      requires Valid() && offset in live
      ensures data == blobs[offset].data && data != []
    {
      data := blobs[offset].data[..blobs[offset].len];
    }
  }
}
