/**
 * Tables of the key engine (struct _engine_table, src/engine.c): 128 slots of
 * which `size` hold a key; the child of the slot after the last key is the
 * rightmost child.
 */
module EngineTable {
  import opened Order
  import opened SearchTree

  const TABLE_SIZE := 128
  const PIVOT := TABLE_SIZE / 2

  /** The bits of struct metadata that the engine itself looks at. */
  datatype Meta = Meta(lifecycle: nat, syslock: bool, freeze: bool, nodata: bool)

  const MD_LIFECYCLE_FINITE: nat := 0
  const MD_LIFECYCLE_RECYCLE: nat := 3

  datatype Slot = Slot(quid: Key, meta: Meta, offset: int, child: int)

  const ZERO_SLOT := Slot([], Meta(0, false, false, false), 0, 0)

  /** A table as stored on disk. */
  datatype Table = Table(slots: seq<Slot>, size: int) {
    predicate Ok() {
      |slots| == TABLE_SIZE && 0 <= size < TABLE_SIZE
    }

    function Keys(): (r: seq<Item<int>>)
      requires Ok()
      ensures |r| == size
    {
      seq(size, i requires 0 <= i < size => Item(slots[i].quid, slots[i].offset))
    }

    function Kids(): (r: seq<int>)
      requires Ok()
      ensures |r| == size + 1
    {
      seq(size + 1, i requires 0 <= i < size + 1 => slots[i].child)
    }

    /** The keys with their metadata. */
    function Marks(): (r: seq<(Key, Meta)>)
      requires Ok()
      ensures |r| == size
    {
      seq(size, i requires 0 <= i < size => (slots[i].quid, slots[i].meta))
    }
  }

  const ZERO_TABLE := Table(seq(TABLE_SIZE, _ => ZERO_SLOT), 0)

  /** Slot i opened and filled. */
  lemma OpenedKeys(u: Table, v: Table, i: int, quid: Key, meta: Meta, offset: int)
    requires u.Ok() && v.Ok() && v.size == u.size + 1 && 0 <= i <= u.size
    requires forall k | 0 <= k < i :: v.slots[k] == u.slots[k]
    requires v.slots[i].quid == quid && v.slots[i].meta == meta && v.slots[i].offset == offset
    requires forall k | i < k < v.size ::
      v.slots[k].quid == u.slots[k - 1].quid && v.slots[k].meta == u.slots[k - 1].meta && v.slots[k].offset == u.slots[k - 1].offset
    ensures v.Keys() == u.Keys()[..i] + [Item(quid, offset)] + u.Keys()[i..]
    ensures v.Marks() == u.Marks()[..i] + [(quid, meta)] + u.Marks()[i..]
  {
  }

  lemma OpenedKids(u: Table, v: Table, i: int, left: int, right: int)
    requires u.Ok() && v.Ok() && v.size == u.size + 1 && 0 <= i <= u.size
    requires forall k | 0 <= k < i :: v.slots[k] == u.slots[k]
    requires v.slots[i].child == left && v.slots[i + 1].child == right
    requires forall k | i + 1 < k <= v.size :: v.slots[k].child == u.slots[k - 1].child
    ensures v.Kids() == u.Kids()[..i] + [left, right] + u.Kids()[i + 1..]
  {
  }

  /** Slot i closed. */
  lemma ClosedTable(u: Table, v: Table, i: int, child: int)
    requires u.Ok() && v.Ok() && v.size == u.size - 1 && 0 <= i < u.size
    requires forall k | 0 <= k < i :: v.slots[k] == u.slots[k]
    requires v.slots[i] == u.slots[i + 1].(child := child)
    requires forall k | i < k <= v.size :: v.slots[k] == u.slots[k + 1]
    ensures v.Keys() == u.Keys()[..i] + u.Keys()[i + 1..]
    ensures v.Kids() == u.Kids()[..i] + [child] + u.Kids()[i + 2..]
    ensures v.Marks() == u.Marks()[..i] + u.Marks()[i + 1..]
  {
  }

  /** A table in memory. */
  class TableBuf {
    const slots: array<Slot>
    var size: int

    ghost predicate Valid()
      reads this
    {
      slots.Length == TABLE_SIZE && 0 <= size < TABLE_SIZE
    }

    function Value(): (v: Table)
      reads this, slots
    {
      Table(slots[..], size)
    }

    function Keys(): seq<Item<int>>
      requires Valid()
      reads this, slots
    {
      Value().Keys()
    }

    function Kids(): seq<int>
      requires Valid()
      reads this, slots
    {
      Value().Kids()
    }

    function Marks(): seq<(Key, Meta)>
      requires Valid()
      reads this, slots
    {
      Value().Marks()
    }

    /** Read from disk, or zeroed by zcalloc. */
    constructor (v: Table)
      requires v.Ok()
      ensures Valid() && Value() == v && fresh(slots)
    {
      size := v.size;
      slots := new Slot[TABLE_SIZE](i requires 0 <= i < TABLE_SIZE => v.slots[i]);
    }

    /** A table with a single key, as the top of a tree. */
    constructor Top(quid: Key, meta: Meta, offset: int, left: int, right: int)
      ensures Valid() && fresh(slots) && Keys() == [Item(quid, offset)] && Kids() == [left, right]
      ensures Marks() == [(quid, meta)]
    {
      size := 1;
      slots := new Slot[TABLE_SIZE](_ => ZERO_SLOT);
      new;
      slots[0] := Slot(quid, meta, offset, left);
      slots[1] := slots[1].(child := right);
    }

    /** The binary search every engine routine repeats: the first slot whose key
        is not below quid, and whether it holds quid. */
    method Find(quid: Key) returns (i: int, hit: bool)
      requires Valid() && Sorted(Keys())
      ensures IsLowerBound(Keys(), quid, i)
      ensures hit <==> i < size && slots[i].quid == quid
    {
      LessIsStrictTotalOrder();
      ghost var keys := Keys();
      var left, right := 0, size;
      while left < right
        invariant 0 <= left <= right <= size
        invariant forall k | 0 <= k < left :: Less(keys[k].key, quid)
        invariant forall k | right <= k < size :: Less(quid, keys[k].key)
      {
        i := (right - left) / 2 + left;
        var cmp := Compare(quid, slots[i].quid);
        CompareAntisymmetric(quid, slots[i].quid);
        assert keys[i].key == slots[i].quid;
        if cmp == 0 {
          hit := true;
          return;
        }
        if cmp < 0 {
          right := i;
        } else {
          left := i + 1;
        }
      }
      i, hit := left, false;
      assert i < size ==> keys[i].key == slots[i].quid;
    }

    /** Open slot i and put a key there, between its two children. */
    method Insert(i: int, quid: Key, meta: Meta, offset: int, left: int, right: int)
      requires Valid() && 0 <= i <= size < TABLE_SIZE - 1
      modifies this, slots
      ensures Valid() && size == old(size) + 1
      ensures Keys() == old(Keys())[..i] + [Item(quid, offset)] + old(Keys())[i..]
      ensures Kids() == old(Kids())[..i] + [left, right] + old(Kids())[i + 1..]
      ensures Marks() == old(Marks())[..i] + [(quid, meta)] + old(Marks())[i..]
    {
      hide Table.Keys, Table.Kids, Table.Marks;
      ghost var u := Value();
      size := size + 1;
      forall k | i < k <= size {
        slots[k] := slots[k - 1];
      }
      slots[i] := Slot(quid, meta, offset, left);
      slots[i + 1] := slots[i + 1].(child := right);
      OpenedKeys(u, Value(), i, quid, meta, offset);
      OpenedKids(u, Value(), i, left, right);
    }

    /** Close slot i and leave one child where its two children were. */
    method Remove(i: int, child: int)
      requires Valid() && 0 <= i < size
      modifies this, slots
      ensures Valid() && size == old(size) - 1
      ensures Keys() == old(Keys())[..i] + old(Keys())[i + 1..]
      ensures Kids() == old(Kids())[..i] + [child] + old(Kids())[i + 2..]
      ensures Marks() == old(Marks())[..i] + old(Marks())[i + 1..]
    {
      hide Table.Keys, Table.Kids, Table.Marks;
      ghost var u := Value();
      forall k | i <= k < size {
        slots[k] := slots[k + 1];
      }
      size := size - 1;
      slots[i] := slots[i].(child := child);
      ClosedTable(u, Value(), i, child);
    }

    /** Overwrite key and data offset of slot i; its metadata stays. */
    method Replace(i: int, quid: Key, offset: int)
      requires Valid() && 0 <= i < size
      modifies slots
      ensures Valid()
      ensures Keys() == old(Keys())[i := Item(quid, offset)] && Kids() == old(Kids())
      ensures Marks() == old(Marks())[i := (quid, old(Marks())[i].1)]
    {
      slots[i] := slots[i].(quid := quid, offset := offset);
    }

    /** Overwrite metadata and data offset of slot i; its key stays. */
    method Rewrite(i: int, meta: Meta, offset: int)
      requires Valid() && 0 <= i < size
      modifies slots
      ensures Valid() && Value() == old(Value()).(slots := old(slots[..])[i := old(slots[i]).(meta := meta, offset := offset)])
    {
      slots[i] := slots[i].(meta := meta, offset := offset);
    }

    method SetChild(i: int, child: int)
      requires Valid() && 0 <= i <= size
      modifies slots
      ensures Valid()
      ensures Keys() == old(Keys()) && Kids() == old(Kids())[i := child] && Marks() == old(Marks())
    {
      slots[i] := slots[i].(child := child);
    }

    /** The table side of free_index_chunk: a dead key whose child is the next
        free chunk. */
    method MarkFree(next: int)
      requires Valid() && size < TABLE_SIZE - 1
      modifies this, slots
      ensures Valid() && Value().slots[0].child == next
    {
      slots[0] := slots[0].(quid := [], offset := 0, child := next);
      size := size + 1;
    }

    /** The table side of split_table: everything above the pivot moves to a new
        table, and the pivot leaves this one. */
    method Halve() returns (pivot: Item<int>, upper: TableBuf)
      requires Valid() && size == TABLE_SIZE - 1
      modifies this
      ensures Valid() && upper.Valid() && fresh(upper) && fresh(upper.slots)
      ensures pivot == old(Keys())[PIVOT]
      ensures Keys() == old(Keys())[..PIVOT] && Kids() == old(Kids())[..PIVOT + 1]
      ensures upper.Keys() == old(Keys())[PIVOT + 1..] && upper.Kids() == old(Kids())[PIVOT + 1..]
      ensures Marks() == old(Marks())[..PIVOT] && upper.Marks() == old(Marks())[PIVOT + 1..]
    {
      pivot := Item(slots[PIVOT].quid, slots[PIVOT].offset);
      upper := new TableBuf(ZERO_TABLE);
      upper.size := size - PIVOT - 1;
      size := PIVOT;
      forall k | 0 <= k < upper.size + 1 {
        upper.slots[k] := slots[PIVOT + 1 + k];
      }
    }
  }
}
