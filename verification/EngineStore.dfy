/**
 * The store under the key engine (src/engine.c): tables read and written
 * through a small cache that owns the tables it holds, and a free list of
 * table chunks. Everything lies in the first page.
 */
module EngineStore {
  import opened Ownership
  import opened EngineTable
  import opened EngineSpec
  import opened Pages

  const CACHE_SLOTS := 23

  /** sizeof(struct _engine_table): 128 items of 40 bytes and the size. */
  const TABLE_BYTES: nat := 5122

  /** struct engine_cache; a zero offset marks an unused slot. */
  datatype CacheSlot = CacheSlot(offset: int, table: TableBuf?)

  /** Tables lie apart from each other and below `top`. */
  ghost predicate DiskOk(disk: map<int, Table>, top: int) {
    && (forall o | o in disk :: 0 < o && o + TABLE_BYTES <= top && disk[o].Ok())
    && forall o, p | o in disk && p in disk && o < p :: o + TABLE_BYTES <= p
  }

  class TableStore {
    const pager: Pager
    const cache: array<CacheSlot>
    var disk: map<int, Table>
    var freeTop: int
    var freeSize: int       // base->stats.zero_free_size
    ghost var free: seq<int>
    ghost var bufs: set<TableBuf>
    ghost var arrs: set<array<Slot>>

    /** An occupied cache slot owns a table whose contents are those on disk. */
    ghost predicate Holds(s: int, c: CacheSlot)
      reads `disk, `bufs, `arrs, bufs, arrs
    {
      && c.offset % CACHE_SLOTS == s && c.offset in disk && c.table != null
      && c.table in bufs && c.table.slots in arrs
      && c.table.Valid() && c.table.Value() == disk[c.offset]
    }

    /** No table is in the cache twice; slot `but` may be out of date. */
    ghost predicate CacheOk(but: int)
      reads `disk, `bufs, `arrs, cache, bufs, arrs
    {
      && cache.Length == CACHE_SLOTS
      && (forall s | 0 <= s < CACHE_SLOTS && s != but && cache[s].offset != 0 :: Holds(s, cache[s]))
      && forall s, u | 0 <= s < u < CACHE_SLOTS && s != but && u != but && cache[s].offset != 0 && cache[u].offset != 0 ::
           cache[s].table != cache[u].table && cache[s].table.slots != cache[u].table.slots
    }

    ghost predicate Valid()
      reads this, cache, bufs, arrs, pager
    {
      CacheOk(-1) && Kept()
    }

    /** What is on disk. */
    ghost predicate Kept()
      reads `disk, `freeTop, `freeSize, `free, pager
    {
      && DiskOk(disk, pager.offset) && pager.Valid() && pager.count == 1
      && FreeChain(disk, freeTop, free) && freeSize == |free|
    }

    constructor (pager: Pager)
      requires pager.Valid() && pager.count == 1
      ensures Valid() && this.pager == pager && disk == map[] && free == [] && freeTop == 0
      ensures fresh(cache) && bufs == {} && arrs == {}
    {
      this.pager := pager;
      cache := new CacheSlot[CACHE_SLOTS](_ => CacheSlot(0, null));
      disk, freeTop, freeSize, free, bufs, arrs := map[], 0, 0, [], {}, {};
    }

    /** A table the caller owns: no cache slot can reach it. */
    ghost predicate Owned(table: TableBuf)
      reads `bufs, `arrs
    {
      table !in bufs && table.slots !in arrs
    }

    /** get_table: the contents of a table, handed over by the cache or read from
        disk. Either way the caller owns the result. */
    method GetTable(offset: int) returns (table: TableBuf)
      requires Valid() && offset in disk
      modifies `bufs, `arrs, cache
      ensures Valid() && Owned(table)
      ensures table.Valid() && table.Value() == disk[offset]
      ensures bufs <= old(bufs) && arrs <= old(arrs)
      ensures (table in old(bufs) || fresh(table)) && (table.slots in old(arrs) || fresh(table.slots))
    {
      var s := offset % CACHE_SLOTS;
      var slot := cache[s];
      if slot.offset == offset {
        assert Holds(s, slot);
        cache[s] := slot.(offset := 0);
        table := slot.table;
        bufs, arrs := bufs - {table}, arrs - {table.slots};
      } else {
        var page, rem := pager.GetFd(offset);
        table := new TableBuf(disk[page * pager.pageSize + rem]);
      }
    }

    /** put_table: the cache takes a table over, evicting whatever is in its slot. */
    method PutTable(table: TableBuf, offset: int)
      requires (Valid() || CacheOk(offset % CACHE_SLOTS)) && Owned(table) && offset in disk
      requires table.Valid() && table.Value() == disk[offset] && offset != 0
      modifies `bufs, `arrs, cache
      ensures CacheOk(-1) && (old(Valid()) ==> Valid())
      ensures bufs <= old(bufs) + {table} && arrs <= old(arrs) + {table.slots}
    {
      var s := offset % CACHE_SLOTS;
      bufs, arrs := bufs + {table}, arrs + {table.slots};
      cache[s] := CacheSlot(offset, table);
    }

    /** flush_table: write a table and hand it to the cache. The cache is told the
        offset that pager_get_fd has reduced modulo the page size. */
    method FlushTable(table: TableBuf, offset: int)
      requires Valid() && Owned(table) && offset in disk && offset !in free && table.Valid()
      modifies `disk, `bufs, `arrs, cache
      ensures Valid() && disk == old(disk)[offset := table.Value()]
      ensures bufs <= old(bufs) + {table} && arrs <= old(arrs) + {table.slots}
    {
      hide FreeChain, DiskOk, Pager.Valid;
      assert 0 < offset && offset < pager.pageSize && disk[offset].Ok() by {
        InFirstPage(offset);
      }
      var page, rem := pager.GetFd(offset);
      ghost var d := disk;
      disk := disk[page * pager.pageSize + rem := table.Value()];
      DiskWritten(d, pager.offset, offset, table.Value());
      FreeChainFrame(d, disk, freeTop, free);
      PutTable(table, rem);
    }

    lemma InFirstPage(offset: int)
      requires Kept() && offset in disk
      ensures 0 < offset < pager.pageSize && disk[offset].Ok()
    {
    }

    /** alloc_table_chunk: take the first free chunk, or grow the file. A chunk is
        written before it is read, so what it holds at first does not matter. */
    method AllocTableChunk(ghost live: multiset<int>) returns (offset: int)
      requires Valid() && pager.Fits(TABLE_BYTES) && multiset(disk.Keys) == live + multiset(free)
      modifies `disk, `bufs, `arrs, `freeTop, `freeSize, `free, cache, pager
      ensures Valid() && multiset(disk.Keys) == live + multiset{offset} + multiset(free)
      ensures SameOn(old(disk), disk, live) && offset in disk && offset !in live && offset !in free
      ensures disk.Keys == old(disk).Keys || (old(pager.offset) <= offset && disk.Keys == old(disk).Keys + {offset})
      ensures old(pager.offset) <= pager.offset <= old(pager.offset) + TABLE_BYTES
      ensures bufs <= old(bufs) && arrs <= old(arrs)
    {
      hide CacheOk, Holds, DiskOk, Pager.Valid;
      if freeTop != 0 {
        offset := freeTop;
        var table := GetTable(offset);
        freeTop := table.slots[0].child;
        freeSize := freeSize - 1;
        assert free == [offset] + free[1..];
        free := free[1..];
      } else {
        offset := GrowFile();
        assert multiset(disk.Keys) == multiset(old(disk).Keys) + multiset{offset};
      }
      Alone(disk.Keys, offset, live + multiset(free));
    }

    method GrowFile() returns (offset: int)
      requires Valid() && pager.Fits(TABLE_BYTES)
      modifies `disk, pager
      ensures Valid() && disk == old(disk)[offset := ZERO_TABLE]
      ensures offset == old(pager.offset) && pager.offset == offset + TABLE_BYTES && offset !in old(disk)
    {
      offset := pager.Alloc(TABLE_BYTES);
      ghost var d := disk;
      disk := disk[offset := ZERO_TABLE];
      DiskGrown(d, offset, pager.offset);
      FreeChainFrame(d, disk, freeTop, free);
    }

    /** free_index_chunk: chain a table in front of the free list. */
    method FreeIndexChunk(offset: int, ghost live: multiset<int>)
      requires Valid() && multiset(disk.Keys) == live + multiset{offset} + multiset(free)
      requires offset in disk && disk[offset].size < TABLE_SIZE - 1
      modifies `disk, `bufs, `arrs, `freeTop, `freeSize, `free, cache, bufs, arrs
      ensures Valid() && free == [offset] + old(free)
      ensures disk.Keys == old(disk).Keys && SameOn(old(disk), disk, live)
      ensures fresh(bufs - old(bufs)) && fresh(arrs - old(arrs))
    {
      hide CacheOk, Holds, DiskOk, FreeChain, Pager.Valid;
      FreedApart(disk.Keys, offset, live, free);
      assert 0 < offset && disk[offset].Ok() by {
        InFirstPage(offset);
      }
      var table := GetTable(offset);
      table.MarkFree(freeTop);
      FlushTable(table, offset);
      ChainPush(disk, offset, freeTop, free);
      freeTop := offset;
      free := [offset] + free;
      freeSize := freeSize + 1;
    }
  }

  lemma FreedApart(keys: set<int>, offset: int, live: multiset<int>, free: seq<int>)
    requires multiset(keys) == live + multiset{offset} + multiset(free)
    ensures offset in keys && offset !in live && offset !in free
  {
    Apart(keys, live, multiset{offset}, multiset(free));
    assert offset in multiset{offset};
  }

  lemma ChainPush(disk: map<int, Table>, offset: int, head: int, fl: seq<int>)
    requires FreeChain(disk, head, fl) && 0 < offset && offset in disk && disk[offset].Ok() && disk[offset].slots[0].child == head
    ensures FreeChain(disk, offset, [offset] + fl)
  {
    assert ([offset] + fl)[1..] == fl;
  }

  lemma DiskWritten(d: map<int, Table>, top: int, offset: int, v: Table)
    requires DiskOk(d, top) && offset in d && v.Ok()
    ensures DiskOk(d[offset := v], top)
  {
  }

  lemma DiskGrown(d: map<int, Table>, offset: int, top: int)
    requires DiskOk(d, offset) && 0 < offset && top == offset + TABLE_BYTES
    ensures DiskOk(d[offset := ZERO_TABLE], top) && offset !in d
  {
  }
}
