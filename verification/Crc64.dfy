/**
 * The checksum routines of src/crc64.c, each with its own table, filled when
 * the routine is first used.
 */
module Crc64 {
  import opened CrcAlgebra
  import opened Crc
  import opened CrcSlicing

  /** The big-endian table holds the entries of the other with their bytes
      reversed. */
  ghost predicate IsBigTable(table: array2<Word>)
    reads table
  {
    && table.Length0 == 8 && table.Length1 == 256
    && forall k, a: Word {:trigger table[k, Index(a)]} | 0 <= k < 8 :: table[k, Index(a)] == Rev8(Bits(Low8(a), 8 * (k + 1)))
  }

  /** The table entries for the bytes of a word, the lowest byte first. */
  function Lookup(table: array2<Word>, w: Word, k: nat): Word
    requires table.Length0 == 8 && table.Length1 == 256 && k <= 8
    reads table
    decreases k
  {
    if k == 0 then 0 else Xor(table[k - 1, Index(w)], Lookup(table, Shr8(w), k - 1))
  }

  function LookupBig(table: array2<Word>, w: Word, k: nat): Word
    requires table.Length0 == 8 && table.Length1 == 256 && k <= 8
    reads table
    decreases 8 - k
  {
    if k == 8 then 0 else Xor(table[k, Index(w)], LookupBig(table, Shr8(w), k + 1))
  }

  lemma {:induction false} LookupIs(table: array2<Word>, w: Word, k: nat)
    requires IsTable(table) && k <= 8
    ensures Lookup(table, w, k) == Slice(w, k)
    decreases k
  {
    hide Bits, Xor, Low8, Shr8, Index;
    if k > 0 {
      assert Filled(table, k - 1, 256);
      LookupIs(table, Shr8(w), k - 1);
    }
  }

  /** In the register of crc64_big everything is byte-reversed. */
  lemma {:induction false} LookupBigIs(table: array2<Word>, w: Word, k: nat)
    requires IsBigTable(table) && k <= 8
    ensures LookupBig(table, Rev8(w), k) == Rev8(TopSlice(w, k))
    decreases 8 - k
  {
    hide Bits, Xor, Low8, Shr8, Shl8, Top8, Rev8, Index;
    if k == 8 {
      RevZero();
    } else {
      RevUp(w);
      RevXor(Bits(Top8(w), 8 * (k + 1)), TopSlice(Shl8(w), k + 1));
      LookupBigIs(table, Shl8(w), k + 1);
    }
  }

  lemma RevZero()
    ensures Rev8(0) == 0
  {
  }

  /** Eight bytes at a time, little-endian. */
  lemma LittleStep(table: array2<Word>, crc: Word, s: seq<Byte>)
    requires IsTable(table) && |s| == 8
    ensures Lookup(table, Xor(crc, LoadLittle(s)), 8) == Feed(crc, s)
  {
    hide Bits, Xor, IsTable, LoadLittle, Feed, Lookup, ShrBytes, Slice;
    var w := Xor(crc, LoadLittle(s));
    LookupIs(table, w, 8);
    EightShifts(w);
    SliceIs(w, 8);
    FeedWord(crc, s);
  }

  lemma BigStep(table: array2<Word>, crc: Word, s: seq<Byte>)
    requires IsBigTable(table) && |s| == 8
    ensures LookupBig(table, Xor(Rev8(crc), LoadBig(s)), 0) == Rev8(Feed(crc, s))
  {
    hide Bits, Xor, IsBigTable, LoadLittle, LoadBig, Feed, LookupBig, ShlBytes, TopSlice, Rev8;
    var w := Xor(crc, LoadLittle(s));
    LoadsAgree(s);
    RevXor(crc, LoadLittle(s));
    LookupBigIs(table, w, 0);
    EightUpShifts(w);
    TopSliceIs(w, 0);
    FeedWord(crc, s);
  }

  /** One byte at a time. */
  lemma LittleByte(table: array2<Word>, crc: Word, b: Byte)
    requires IsTable(table)
    ensures Xor(table[0, Index(Xor(crc, b))], Shr8(crc)) == Bits(Xor(crc, b), 8)
  {
    hide Bits, Xor, Low8, Shr8, Index;
    assert Filled(table, 0, 256);
    NextByte(Xor(crc, b));
    ByteShift(crc, b);
  }

  lemma ByteShift(crc: Word, b: Word)
    requires Low8(b) == b
    ensures Shr8(Xor(crc, b)) == Shr8(crc)
  {
  }

  lemma BigByte(table: array2<Word>, crc: Word, b: Byte)
    requires IsBigTable(table)
    ensures Xor(table[0, Index(Xor(Top8(Rev8(crc)), b))], Shl8(Rev8(crc))) == Rev8(Bits(Xor(crc, b), 8))
  {
    hide Bits, Xor, Low8, Shr8, Shl8, Top8, Rev8, Index;
    var x := Xor(crc, b);
    NextByte(x);
    ByteShift(crc, b);
    RevShift(crc);
    RevXor(Bits(Low8(x), 8), Shr8(x));
    ByteXor(crc, b);
  }

  lemma ByteXor(crc: Word, b: Word)
    requires Low8(b) == b
    ensures Low8(Xor(Low8(crc), b)) == Low8(Xor(crc, b))
  {
  }

  lemma FeedByte(c: Word, s: seq<Byte>, k: nat)
    requires k < |s|
    ensures Feed(c, s[..k + 1]) == Bits(Xor(Feed(c, s[..k]), s[k]), 8)
  {
    hide Bits, Xor;
    assert s[..k + 1] == s[..k] + [s[k]];
    FeedConcat(c, s[..k], [s[k]]);
    assert [s[k]][1..] == [];
  }

  lemma FeedEight(c: Word, s: seq<Byte>, k: nat)
    requires k + 8 <= |s|
    ensures Feed(c, s[..k + 8]) == Feed(Feed(c, s[..k]), s[k..k + 8])
  {
    assert s[..k + 8] == s[..k] + s[k..k + 8];
    FeedConcat(c, s[..k], s[k..k + 8]);
  }

  class Tables {
    const little: array2<Word>
    const big: array2<Word>
    var littleReady: bool
    var bigReady: bool

    ghost predicate Valid()
      reads this, little, big
    {
      && little.Length0 == big.Length0 == 8 && little.Length1 == big.Length1 == 256 && little != big
      && (littleReady ==> IsTable(little)) && (bigReady ==> IsBigTable(big))
    }

    constructor ()
      ensures Valid() && fresh(little) && fresh(big)
    {
      little := new Word[8, 256];
      big := new Word[8, 256];
      littleReady, bigReady := false, false;
    }

    /** crc64_little: address is where the buffer starts in memory. */
    method Little(crc: Word, buf: seq<Byte>, address: nat) returns (r: Word)
      requires Valid()
      modifies this, little
      ensures Valid() && r == Checksum(crc, buf)
    {
      hide Bits, Xor, Feed, Not, IsTable, IsBigTable, Index, Shr8, Lookup, LoadLittle;
      if !littleReady {
        LittleInit();
      }
      ghost var start := Not(crc);
      r := Not(crc);
      var next := 0;
      FeedNothing(start, buf);
      while next < |buf| && (address + next) % 8 != 0
        modifies {}
        invariant 0 <= next <= |buf| && r == Feed(start, buf[..next])
      {
        r := LittleOne(r, buf[next]);
        FeedByte(start, buf, next);
        next := next + 1;
      }
      while |buf| - next >= 8
        modifies {}
        invariant 0 <= next <= |buf| && r == Feed(start, buf[..next])
      {
        LittleStep(little, r, buf[next..next + 8]);
        FeedEight(start, buf, next);
        r := Xor(r, LoadLittle(buf[next..next + 8]));
        TableSize(little);
        r := Lookup(little, r, 8);
        next := next + 8;
      }
      while next < |buf|
        modifies {}
        invariant 0 <= next <= |buf| && r == Feed(start, buf[..next])
      {
        r := LittleOne(r, buf[next]);
        FeedByte(start, buf, next);
        next := next + 1;
      }
      assert buf[..|buf|] == buf;
      r := Not(r);
    }

    lemma TableSize(table: array2<Word>)
      requires IsTable(table)
      ensures table.Length0 == 8 && table.Length1 == 256
    {
    }

    method LittleOne(crc: Word, b: Byte) returns (r: Word)
      requires Valid() && IsTable(little)
      ensures r == Bits(Xor(crc, b), 8)
    {
      hide Bits, Xor, IsTable, IsBigTable, Index, Shr8;
      TableSize(little);
      LittleByte(little, crc, b);
      r := Xor(little[0, Index(Xor(crc, b))], Shr8(crc));
    }

    method LittleInit()
      requires Valid()
      modifies this, little
      ensures Valid() && littleReady && bigReady == old(bigReady)
    {
      hide IsTable, IsBigTable;
      Init(little);
      littleReady := true;
    }

    /** crc64_big. */
    method Big(crc: Word, buf: seq<Byte>, address: nat) returns (r: Word)
      requires Valid()
      modifies this, big
      ensures Valid() && r == Checksum(crc, buf)
    {
      hide Bits, Xor, Feed, Not, IsTable, IsBigTable, Index, Shl8, Top8, Rev8, LookupBig, LoadBig;
      if !bigReady {
        BigInit();
      }
      ghost var start := Not(crc);
      RevNot(crc);
      r := Not(Rev8(crc));
      var next := 0;
      FeedNothing(start, buf);
      while next < |buf| && (address + next) % 8 != 0
        modifies {}
        invariant 0 <= next <= |buf| && r == Rev8(Feed(start, buf[..next]))
      {
        r := BigOne(r, buf[next], Feed(start, buf[..next]));
        FeedByte(start, buf, next);
        next := next + 1;
      }
      while |buf| - next >= 8
        modifies {}
        invariant 0 <= next <= |buf| && r == Rev8(Feed(start, buf[..next]))
      {
        BigStep(big, Feed(start, buf[..next]), buf[next..next + 8]);
        FeedEight(start, buf, next);
        r := Xor(r, LoadBig(buf[next..next + 8]));
        r := LookupBig(big, r, 0);
        next := next + 8;
      }
      while next < |buf|
        modifies {}
        invariant 0 <= next <= |buf| && r == Rev8(Feed(start, buf[..next]))
      {
        r := BigOne(r, buf[next], Feed(start, buf[..next]));
        FeedByte(start, buf, next);
        next := next + 1;
      }
      assert buf[..|buf|] == buf;
      RevRev(Feed(start, buf));
      r := Not(Rev8(r));
    }

    method BigOne(crc: Word, b: Byte, ghost c: Word) returns (r: Word)
      requires Valid() && IsBigTable(big) && crc == Rev8(c)
      ensures r == Rev8(Bits(Xor(c, b), 8))
    {
      hide Bits, Xor, IsTable, IsBigTable, Index, Shl8, Top8, Rev8;
      BigByte(big, c, b);
      r := Xor(big[0, Index(Xor(Top8(crc), b))], Shl8(crc));
    }

    /** crc64_big_init: the same entries with their bytes reversed. */
    method BigInit()
      requires Valid()
      modifies this, big
      ensures Valid() && bigReady && littleReady == old(littleReady)
    {
      hide IsTable, IsBigTable, Rev8;
      Init(big);
      ReverseAll();
      bigReady := true;
    }

    method ReverseAll()
      requires big.Length0 == 8 && big.Length1 == 256 && IsTable(big)
      modifies big
      ensures IsBigTable(big)
    {
      hide Bits, Low8, Rev8, Index;
      var k := 0;
      while k < 8
        invariant 0 <= k <= 8
        invariant forall r, c | 0 <= r < 8 && 0 <= c < 256 :: big[r, c] == if r < k then Rev8(old(big[r, c])) else old(big[r, c])
      {
        var n := 0;
        while n < 256
          invariant 0 <= n <= 256
          invariant forall r, c | 0 <= r < 8 && 0 <= c < 256 ::
            big[r, c] == if r < k || (r == k && c < n) then Rev8(old(big[r, c])) else old(big[r, c])
        {
          big[k, n] := Rev8(big[k, n]);
          n := n + 1;
        }
        k := k + 1;
      }
      forall k, a: Word | 0 <= k < 8 ensures big[k, Index(a)] == Rev8(Bits(Low8(a), 8 * (k + 1))) {
        assert old(Filled(big, k, 256)) && old(big[k, Index(a)]) == Bits(Low8(a), 8 * (k + 1));
      }
    }

    /** crc64, on a machine of either byte order. */
    method Crc64(crc: Word, buf: seq<Byte>, address: nat, littleEndian: bool) returns (r: Word)
      requires Valid()
      modifies this, little, big
      ensures Valid() && r == Checksum(crc, buf)
    {
      if littleEndian {
        r := Little(crc, buf, address);
      } else {
        r := Big(crc, buf, address);
      }
    }
  }

  lemma FeedNothing(c: Word, s: seq<Byte>)
    ensures Feed(c, s[..0]) == c
  {
  }
}
