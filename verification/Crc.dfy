/**
 * CRC-64 of a buffer (src/crc64.c): the lookup tables, the routines that take
 * eight bytes at a time in either byte order, and combining two checksums.
 */
module Crc {
  import opened CrcAlgebra

  type Byte = b: Word | Low8(b) == b witness 0

  // ----- the checksum, bit by bit -----

  /** The register after a buffer. */
  function Feed(c: Word, s: seq<Byte>): Word
    decreases s
  {
    if s == [] then c else Feed(Bits(Xor(c, s[0]), 8), s[1..])
  }

  /** What crc64 computes: the register starts and ends complemented. */
  function Checksum(crc: Word, s: seq<Byte>): Word {
    Not(Feed(Not(crc), s))
  }

  lemma {:induction false} FeedConcat(c: Word, a: seq<Byte>, b: seq<Byte>)
    ensures Feed(c, a + b) == Feed(Feed(c, a), b)
    decreases a
  {
    hide Bits, Xor;
    if a == [] {
      assert a + b == b;
    } else {
      assert (a + b)[1..] == a[1..] + b;
      FeedConcat(Bits(Xor(c, a[0]), 8), a[1..], b);
    }
  }

  /** Chained calls give the checksum of the concatenation. */
  lemma Chaining(crc: Word, a: seq<Byte>, b: seq<Byte>)
    ensures Checksum(Checksum(crc, a), b) == Checksum(crc, a + b)
  {
    FeedConcat(Not(crc), a, b);
    NotNot(Feed(Not(crc), a));
    hide Not, Feed;
  }

  /** Changing the start of the register changes its end by as many zero bits as
      the buffer is long, whatever the buffer holds. */
  lemma {:induction false} FeedAffine(x: Word, y: Word, s: seq<Byte>)
    ensures Feed(Xor(x, y), s) == Xor(Feed(x, s), Bits(y, 8 * |s|))
    decreases s
  {
    hide Bits, Xor;
    if s == [] {
      assert Bits(y, 0) == y by {
        NoBits(y);
      }
    } else {
      var x', y' := Bits(Xor(x, s[0]), 8), Bits(y, 8);
      XorAssoc(x, y, s[0]);
      XorComm(y, s[0]);
      XorAssoc(x, s[0], y);
      BitsLinear(Xor(x, s[0]), y, 8);
      FeedAffine(x', y', s[1..]);
      BitsPlus(y, 8, 8 * |s[1..]|);
    }
  }

  lemma NoBits(y: Word)
    ensures Bits(y, 0) == y
  {
  }

  /** The checksum of a concatenation from the checksums of its parts. */
  lemma Combining(a: seq<Byte>, b: seq<Byte>)
    ensures Xor(Bits(Checksum(0, a), 8 * |b|), Checksum(0, b)) == Checksum(0, a + b)
  {
    var p := Checksum(0, a);
    Chaining(0, a, b);
    NotIsXor(p);
    FeedAffine(Not(0), p, b);
    NotXor(Feed(Not(0), b), Bits(p, 8 * |b|));
    XorComm(Bits(p, 8 * |b|), Checksum(0, b));
    hide Not, Feed, Bits, Xor;
  }

  lemma NotIsXor(p: Word)
    ensures Not(p) == Xor(Not(0), p)
  {
  }

  // ----- lookup tables -----

  /** The table index taken from the low byte of a word. */
  function Index(a: Word): (i: int)
    ensures 0 <= i < 256
  {
    Low8(a) as int
  }

  lemma IndexInjective(a: Word, b: Word)
    requires Index(a) == Index(b)
    ensures Low8(a) == Low8(b)
  {
    ByteInjective(Low8(a), Low8(b));
  }

  lemma ByteInjective(a: Word, b: Word)
    requires a < 256 && b < 256 && a as int == b as int
    ensures a == b
  {
  }

  lemma NextIndex(a: Word)
    requires Low8(a) == a && Index(a) < 255
    ensures Low8(a + 1) == a + 1 && Index(a + 1) == Index(a) + 1
  {
  }

  /** Row k of the table holds, for every byte, the register after that byte and
      k zero bytes. */
  ghost predicate Filled(table: array2<Word>, k: int, n: int)
    requires 0 <= k < table.Length0 && table.Length1 == 256 && n <= 256
    reads table
  {
    forall a: Word {:trigger table[k, Index(a)]} | Index(a) < n :: table[k, Index(a)] == Bits(Low8(a), 8 * (k + 1))
  }

  ghost predicate IsTable(table: array2<Word>)
    reads table
  {
    table.Length0 == 8 && table.Length1 == 256 && forall k | 0 <= k < 8 :: Filled(table, k, 256)
  }

  ghost predicate RowsFilled(table: array2<Word>, lo: int, hi: int, n: int)
    requires 0 <= lo && hi <= table.Length0 && table.Length1 == 256 && n <= 256
    reads table
  {
    forall k | lo <= k < hi :: Filled(table, k, n)
  }

  /** crc64_init. */
  method Init(table: array2<Word>)
    requires table.Length0 == 8 && table.Length1 == 256
    modifies table
    ensures IsTable(table)
  {
    hide Bit, Bits, Xor, Low8, Shr8, Index;
    FirstRow(table);
    OtherRows(table);
  }

  /** The first part of crc64_init: all single bytes. */
  method FirstRow(table: array2<Word>)
    requires table.Length0 == 8 && table.Length1 == 256
    modifies table
    ensures Filled(table, 0, 256)
  {
    hide Bit, Bits, Low8, Index, Filled;
    var n, b: Word := 0, 0;
    Start(table, 0);
    while n < 256
      invariant 0 <= n <= 256 && (n < 256 ==> Low8(b) == b && Index(b) == n)
      invariant Filled(table, 0, n)
    {
      var crc := ByteRegister(b);
      Set(table, 0, n, b, crc);
      if n < 255 {
        NextIndex(b);
      }
      b := b + 1;
      n := n + 1;
    }
  }

  lemma Start(table: array2<Word>, k: int)
    requires 0 <= k < table.Length0 && table.Length1 == 256
    ensures Filled(table, k, 0) && Low8(0) == 0 && Index(0) == 0
  {
  }

  method Set(table: array2<Word>, k: int, n: int, b: Word, crc: Word)
    requires 0 <= k < table.Length0 && table.Length1 == 256 && 0 <= n < 256
    requires Filled(table, k, n) && Index(b) == n && crc == Bits(Low8(b), 8 * (k + 1))
    modifies table
    ensures Filled(table, k, n + 1)
    ensures forall r, m | 0 <= r < table.Length0 && r != k && m <= 256 && old(Filled(table, r, m)) :: Filled(table, r, m)
  {
    hide Bits, Low8, Index;
    table[k, n] := crc;
    forall a: Word | Index(a) < n + 1 ensures table[k, Index(a)] == Bits(Low8(a), 8 * (k + 1)) {
      if Index(a) == n {
        IndexInjective(a, b);
      }
    }
  }

  /** The second part of crc64_init: single bytes followed by one to seven zeros. */
  method OtherRows(table: array2<Word>)
    requires table.Length0 == 8 && table.Length1 == 256 && Filled(table, 0, 256)
    modifies table
    ensures IsTable(table)
  {
    hide Bit, Bits, Xor, Low8, Shr8, Index;
    var n, b: Word := 0, 0;
    Start(table, 0);
    while n < 256
      invariant 0 <= n <= 256 && (n < 256 ==> Low8(b) == b && Index(b) == n)
      invariant Filled(table, 0, 256) && RowsFilled(table, 1, 8, n)
    {
      Column(table, n, b);
      if n < 255 {
        NextIndex(b);
      }
      b := b + 1;
      n := n + 1;
    }
  }

  method Column(table: array2<Word>, n: int, b: Word)
    requires table.Length0 == 8 && table.Length1 == 256 && 0 <= n < 256 && Low8(b) == b && Index(b) == n
    requires Filled(table, 0, 256) && RowsFilled(table, 1, 8, n)
    modifies table
    ensures Filled(table, 0, 256) && RowsFilled(table, 1, 8, n + 1)
  {
    hide Bit, Bits, Xor, Low8, Shr8, Index;
    var crc := table[0, n];
    var k := 1;
    while k < 8
      invariant 1 <= k <= 8 && crc == Bits(b, 8 * k)
      invariant Filled(table, 0, 256)
      invariant RowsFilled(table, 1, k, n + 1) && RowsFilled(table, k, 8, n)
    {
      NextByte(crc);
      BitsPlus(b, 8 * k, 8);
      crc := Xor(table[0, Index(crc)], Shr8(crc));
      Set(table, k, n, b, crc);
      k := k + 1;
    }
  }

  /** The register after eight more zero bits, by table. */
  lemma NextByte(c: Word)
    ensures Bits(c, 8) == Xor(Bits(Low8(c), 8), Shr8(c))
  {
    hide Bits, Xor, Low8, Shr8;
    PeelByte(c, 0);
    NoBits(Shr8(c));
  }

  /** The inner loop of crc64_init: a single byte through the register. */
  method ByteRegister(b: Word) returns (crc: Word)
    ensures crc == Bits(b, 8)
  {
    hide Bit, Bits, Odd, Shr1, Xor;
    crc := b;
    var k := 0;
    while k < 8
      invariant 0 <= k <= 8 && Bits(crc, 8 - k) == Bits(b, 8)
    {
      OneBit(crc, 7 - k);
      crc := if Odd(crc) then Xor(POLY, Shr1(crc)) else Shr1(crc);
      k := k + 1;
    }
    NoBits(crc);
  }

  lemma OneBit(c: Word, n: nat)
    ensures Bits(c, n + 1) == Bits(if Odd(c) then Xor(POLY, Shr1(c)) else Shr1(c), n)
  {
    hide Odd, Xor, Shr1;
  }
}
