/**
 * The page allocator (src/pager.c): one growing address space laid over page
 * files of equal size, each starting with a header.
 */
module Pages {
  /** sizeof(struct _page): sequence, exit status, magic, version. */
  const PAGE_HEADER: nat := 17

  /** A byte range [start, end) handed out by the allocator. */
  datatype Range = Range(start: nat, end: nat)

  lemma PagesApart(p: nat, q: nat, size: nat)
    requires p < q
    ensures p * size + size <= q * size
  {
    assert q * size == p * size + (q - p) * size;
    assert (q - p) * size == size + (q - p - 1) * size;
  }

  lemma PageSplit(page: nat, rem: nat, size: nat)
    requires rem < size
    ensures (page * size + rem) / size == page
    ensures (page * size + rem) % size == rem
  {
    var x := page * size + rem;
    DivisionIsUnique(page, rem, x / size, x % size, size);
  }

  lemma DivisionIsUnique(p: nat, a: nat, q: nat, b: nat, size: nat)
    requires a < size && b < size && p * size + a == q * size + b
    ensures p == q && a == b
  {
    if p < q {
      PagesApart(p, q, size);
    } else if q < p {
      PagesApart(q, p, size);
    }
  }

  lemma PagesOrdered(p: nat, q: nat, size: nat)
    ensures p <= q ==> p * size <= q * size
  {
    if p < q {
      PagesApart(p, q, size);
    }
  }

  lemma PageWithin(page: nat, rem: nat, count: nat, size: nat)
    requires page * size + rem < count * size
    ensures page < count
    ensures count == 1 ==> page == 0
  {
    PagesOrdered(count, page, size);
  }

  class Pager {
    const pageSize: nat
    var offset: nat    // base->pager.offset
    var count: nat     // core->count
    var sequence: nat  // base->pager.sequence
    ghost var grants: seq<Range>

    /** A range inside one existing page, clear of that page's header. */
    ghost predicate InPage(g: Range)
      reads this
    {
      g.start < g.end && exists page: nat ::
        page < count && page * pageSize + PAGE_HEADER <= g.start && g.end < (page + 1) * pageSize
    }

    ghost predicate Valid()
      reads this
    {
      && PAGE_HEADER < pageSize && 1 <= count && sequence == count
      && (count - 1) * pageSize + PAGE_HEADER <= offset < count * pageSize
      && (forall i | 0 <= i < |grants| :: InPage(grants[i]) && grants[i].end <= offset)
      && (forall i, j | 0 <= i < j < |grants| :: grants[i].end <= grants[j].start)
    }

    /** The next len bytes are still in the first page. */
    predicate Fits(len: nat)
      reads this
    {
      count == 1 && PAGE_HEADER <= offset && offset + len < pageSize
    }

    lemma FitsLess(len: nat, less: nat)
      requires Fits(len) && less <= len
      ensures Fits(less)
    {
    }

    /** pager_init on an empty base: the first page and nothing handed out. */
    constructor (pageSize: nat)
      requires PAGE_HEADER < pageSize
      ensures Valid() && this.pageSize == pageSize && count == 1
      ensures offset == PAGE_HEADER && grants == []
    {
      this.pageSize := pageSize;
      offset, count, sequence, grants := PAGE_HEADER, 1, 1, [];
    }

    /** create_page: the sequence number and the page table grow together. */
    method CreatePage()
      modifies this
      ensures count == old(count) + 1 && sequence == old(sequence) + 1
      ensures offset == old(offset) && grants == old(grants)
    {
      sequence := sequence + 1;
      count := count + 1;
    }

    /** pager_alloc. A request that no page can hold is granted all the same, over
        the end of the new page; all later promises are lost exactly then. */
    method Alloc(len: nat) returns (r: nat)
      requires Valid() && 0 < len
      modifies this
      ensures Valid() <==> PAGE_HEADER + len < pageSize
      ensures old(offset) <= r && 0 < r && r + len == offset
      ensures count == (if old(offset) % pageSize + len >= pageSize then old(count) + 1 else old(count))
      ensures count == old(count) ==> r == old(offset)
      ensures old(Fits(len)) ==> count == 1 && r == old(offset)
      ensures grants == old(grants) + [Range(r, r + len)]
    {
      ghost var rem := offset - (count - 1) * pageSize;
      PageSplit(count - 1, rem, pageSize);
      r := offset;
      if offset % pageSize + len >= pageSize {
        CreatePage();
        r := (count - 1) * pageSize;
        r := r + PAGE_HEADER;
      }
      offset := r + len;
      grants := grants + [Range(r, r + len)];
      assert (count - 1 + 1) * pageSize == (count - 1) * pageSize + pageSize;
    }

    /** pager_get_fd: the page holding a byte, and the byte's place in it. */
    method GetFd(at: nat) returns (page: nat, rem: nat)
      requires Valid() && at < count * pageSize
      ensures page < count && rem < pageSize && at == page * pageSize + rem
      ensures count == 1 ==> rem == at
    {
      page := at / pageSize;
      rem := at % pageSize;
      PageWithin(page, rem, count, pageSize);
    }

    /**
     * Every byte ever handed out passes the assertion in pager_get_fd, lies in
     * the same page as the rest of its range, and is no byte of a page header.
     */
    lemma GrantedByte(i: nat, at: nat)
      requires Valid() && i < |grants| && grants[i].start <= at < grants[i].end
      ensures at / pageSize <= count - 1
      ensures at / pageSize == grants[i].start / pageSize
      ensures PAGE_HEADER <= at % pageSize
    {
      var g := grants[i];
      assert InPage(g);
      var page: nat :| page < count && page * pageSize + PAGE_HEADER <= g.start && g.end < (page + 1) * pageSize;
      assert (page + 1) * pageSize == page * pageSize + pageSize;
      PageSplit(page, at - page * pageSize, pageSize);
      PageSplit(page, g.start - page * pageSize, pageSize);
    }
  }
}
