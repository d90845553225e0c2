/**
 * crc64_combine (src/crc64.c): the checksum of two blocks from their checksums
 * and the length of the second, by squaring the matrix that feeds one zero bit.
 */
module CrcCombine {
  import opened CrcAlgebra
  import opened Crc

  const GF2_DIM := 64

  function Down(v: Word, n: nat): Word
    decreases n
  {
    if n == 0 then v else Down(Shr1(v), n - 1)
  }

  /** A matrix, from row i on, times the vector whose bits start at row i. */
  function Times(mat: seq<Word>, v: Word, i: nat): Word
    requires i <= |mat|
    decreases |mat| - i
  {
    if i == |mat| then 0 else Xor(if Odd(v) then mat[i] else 0, Times(mat, Shr1(v), i + 1))
  }

  lemma {:induction false} TimesZero(mat: seq<Word>, i: nat)
    requires i <= |mat|
    ensures Times(mat, 0, i) == 0
    decreases |mat| - i
  {
    if i < |mat| {
      ZeroDown();
      TimesZero(mat, i + 1);
      XorSelf(0);
      hide Xor, Odd, Shr1;
    }
  }

  lemma ZeroDown()
    ensures !Odd(0) && Shr1(0) == 0 && Shl1(0) == 0
  {
  }

  // ----- the basis -----

  function Up(v: Word, n: nat): Word
    decreases n
  {
    if n == 0 then v else Up(Shl1(v), n - 1)
  }

  lemma {:induction false} UpXor(a: Word, b: Word, n: nat)
    ensures Up(Xor(a, b), n) == Xor(Up(a, n), Up(b, n))
    decreases n
  {
    hide Xor, Shl1;
    if n > 0 {
      Shl1Xor(a, b);
      UpXor(Shl1(a), Shl1(b), n - 1);
    }
  }

  lemma {:induction false} UpPlus(v: Word, m: nat, n: nat)
    ensures Up(v, m + n) == Up(Up(v, m), n)
    decreases m
  {
    hide Shl1;
    if m > 0 {
      UpPlus(Shl1(v), m - 1, n);
    }
  }

  lemma {:induction false} UpZero(n: nat)
    ensures Up(0, n) == 0
    decreases n
  {
    if n > 0 {
      ZeroDown();
      hide Shl1;
      UpZero(n - 1);
    }
  }

  /** Bit i of a vector. */
  function Unit(i: nat): Word { Up(1, i) }

  /** The rows are what n zero bits make of the single bits. */
  ghost predicate Represents(mat: seq<Word>, n: nat) {
    |mat| == GF2_DIM && forall i | 0 <= i < GF2_DIM :: mat[i] == Bits(Unit(i), n)
  }

  /** Then multiplying feeds n zero bits. */
  lemma {:induction false} TimesIsBits(mat: seq<Word>, n: nat, v: Word, i: nat)
    requires Represents(mat, n) && i <= GF2_DIM
    ensures Times(mat, v, i) == Bits(Up(v, i), n) || Down(v, GF2_DIM - i) != 0
    decreases GF2_DIM - i
  {
    hide Bits, Xor, Odd, Shr1, Shl1;
    if i == GF2_DIM {
      UpZero(i);
      BitsZero(n);
    } else {
      var low := if Odd(v) then 1 else 0;
      LowBitOut(v);
      UpXor(low, Shl1(Shr1(v)), i);
      BitsLinear(Up(low, i), Up(Shl1(Shr1(v)), i), n);
      assert Up(Shl1(Shr1(v)), i) == Up(Shr1(v), i + 1);
      UpZero(i);
      BitsZero(n);
      TimesIsBits(mat, n, Shr1(v), i + 1);
    }
  }

  lemma {:induction false} DownPlus(v: Word, m: nat, n: nat)
    ensures Down(v, m + n) == Down(Down(v, m), n)
    decreases m
  {
    hide Shr1;
    if m > 0 {
      DownPlus(Shr1(v), m - 1, n);
    }
  }

  lemma DownByte(v: Word)
    ensures Down(v, 8) == Shr8(v)
  {
    EightDowns(v);
    hide Shr1, Shr8;
    DownPlus(v, 4, 4);
    var u := Shr1(Shr1(Shr1(Shr1(v))));
    assert Down(v, 4) == u && Down(u, 4) == Shr1(Shr1(Shr1(Shr1(u))));
  }

  /** Nothing is left of a vector after 64 shifts. */
  lemma DownAll(v: Word)
    ensures Down(v, GF2_DIM) == 0
  {
    hide Shr8, Down;
    DownSome(v);
    ShiftedOut(v);
  }

  lemma DownSome(v: Word)
    ensures Down(v, 64) == Shr8(Shr8(Shr8(Shr8(Shr8(Shr8(Shr8(Shr8(v))))))))
  {
    hide Shr8, Down;
    DownHalf(v);
    DownHalf(Down(v, 32));
    DownPlus(v, 32, 32);
  }

  lemma DownHalf(v: Word)
    ensures Down(v, 32) == Shr8(Shr8(Shr8(Shr8(v))))
  {
    hide Shr8, Down;
    DownByte(v);
    DownByte(Shr8(v));
    DownByte(Shr8(Shr8(v)));
    DownByte(Shr8(Shr8(Shr8(v))));
    DownPlus(v, 8, 24);
    DownPlus(Shr8(v), 8, 16);
    DownPlus(Shr8(Shr8(v)), 8, 8);
  }

  lemma TimesMeans(mat: seq<Word>, n: nat, v: Word)
    requires Represents(mat, n)
    ensures Times(mat, v, 0) == Bits(v, n)
  {
    hide Bits;
    TimesIsBits(mat, n, v, 0);
    DownAll(v);
    assert Up(v, 0) == v;
  }

  /** gf2_matrix_times. */
  method MatrixTimes(mat: array<Word>, vec: Word) returns (sum: Word)
    requires mat.Length == GF2_DIM
    ensures sum == Times(mat[..], vec, 0)
  {
    hide Xor, Odd, Shr1;
    sum := 0;
    var v, i := vec, 0;
    DownAll(vec);
    XorSelf(Times(mat[..], vec, 0));
    while v != 0
      invariant 0 <= i <= GF2_DIM && Down(v, GF2_DIM - i) == 0
      invariant Xor(sum, Times(mat[..], v, i)) == Times(mat[..], vec, 0)
      decreases GF2_DIM - i
    {
      TimesStep(mat[..], sum, v, i);
      if Odd(v) {
        sum := Xor(sum, mat[i]);
      }
      v := Shr1(v);
      i := i + 1;
    }
    TimesZero(mat[..], i);
    XorSelf(sum);
  }

  lemma TimesStep(mat: seq<Word>, sum: Word, v: Word, i: nat)
    requires i < |mat|
    ensures Xor(sum, Times(mat, v, i)) == Xor(if Odd(v) then Xor(sum, mat[i]) else sum, Times(mat, Shr1(v), i + 1))
  {
    hide Xor, Odd, Shr1;
    XorAssoc(sum, mat[i], Times(mat, Shr1(v), i + 1));
    XorSelf(Times(mat, Shr1(v), i + 1));
  }

  /** gf2_matrix_square: twice as many zero bits. */
  method MatrixSquare(square: array<Word>, mat: array<Word>, ghost n: nat)
    requires square != mat && square.Length == mat.Length == GF2_DIM && Represents(mat[..], n)
    modifies square
    ensures Represents(square[..], n + n)
  {
    hide Bits, Unit, Times, Xor;
    var k := 0;
    while k < GF2_DIM
      invariant 0 <= k <= GF2_DIM && mat[..] == old(mat[..])
      invariant forall i | 0 <= i < k :: square[i] == Bits(Unit(i), n + n)
    {
      assert mat[k] == mat[..][k];
      TimesMeans(mat[..], n, mat[k]);
      BitsPlus(Unit(k), n, n);
      square[k] := MatrixTimes(mat, mat[k]);
      k := k + 1;
    }
  }

  /** The first rows: what a single zero bit makes of each bit. */
  method OneZeroBit(odd: array<Word>)
    requires odd.Length == GF2_DIM
    modifies odd
    ensures Represents(odd[..], 1)
  {
    hide Bits, Bit, Up, Shl1;
    odd[0] := POLY;
    FirstUnit();
    var row, n := 1, 1;
    while n < GF2_DIM
      invariant 1 <= n <= GF2_DIM && row == Unit(n - 1)
      invariant forall i | 0 <= i < n :: odd[i] == Bits(Unit(i), 1)
    {
      NextUnit(n);
      odd[n] := row;
      row := Shl1(row);
      n := n + 1;
    }
  }

  lemma FirstUnit()
    ensures Unit(0) == 1 && Bits(Unit(0), 1) == POLY
  {
    assert Bits(Bit(1), 0) == Bit(1);
    OneBit();
  }

  lemma OneBit()
    ensures Odd(1) && Shr1(1) == 0 && Bit(1) == POLY
  {
  }

  lemma NextUnit(n: nat)
    requires 1 <= n < GF2_DIM
    ensures Unit(n) == Shl1(Unit(n - 1)) && Bits(Unit(n), 1) == Unit(n - 1)
  {
    hide Bit, Shl1;
    UpPlus(1, n - 1, 1);
    assert Up(Unit(n - 1), 1) == Shl1(Unit(n - 1));
    UnitRoom(n - 1);
    BitUp(Unit(n - 1));
    assert Bits(Unit(n - 1), 0) == Unit(n - 1);
  }

  lemma {:induction false} UnitRoom(i: nat)
    requires i < 63
    ensures Room1(Unit(i)) && Down(Unit(i), i + 1) == 0
    decreases i
  {
    hide Shl1, Shr1, Room1;
    if i == 0 {
      OneBit();
      assert Down(Shr1(1), 0) == Shr1(1);
    } else {
      UnitRoom(i - 1);
      UpPlus(1, i - 1, 1);
      assert Up(Unit(i - 1), 1) == Shl1(Unit(i - 1));
      UpDown(Unit(i - 1));
    }
    DownPlus(Unit(i), i + 1, 62 - i);
    DownZero(62 - i);
    TopBit(Unit(i));
  }

  lemma {:induction false} DownZero(n: nat)
    ensures Down(0, n) == 0
    decreases n
  {
    if n > 0 {
      ZeroDown();
      hide Shr1;
      DownZero(n - 1);
    }
  }

  lemma TopBit(v: Word)
    requires Down(v, 63) == 0
    ensures Room1(v)
  {
    hide Shr1, Shr8, Room1, Down;
    var b := Shr8(Shr8(Shr8(Shr8(v))));
    DownHalf(v);
    DownPlus(v, 32, 31);
    DownByte(b);
    DownPlus(b, 8, 23);
    DownByte(Shr8(b));
    DownPlus(Shr8(b), 8, 15);
    DownByte(Shr8(Shr8(b)));
    DownPlus(Shr8(Shr8(b)), 8, 7);
    DownSeven(Shr8(Shr8(Shr8(b))));
    TopBitLeft(v);
  }

  lemma DownSeven(v: Word)
    ensures Down(v, 7) == Shr1(Shr1(Shr1(Shr1(Shr1(Shr1(Shr1(v)))))))
  {
    hide Shr1;
    DownPlus(v, 4, 3);
    var u := Shr1(Shr1(Shr1(Shr1(v))));
    assert Down(v, 4) == u && Down(u, 3) == Shr1(Shr1(Shr1(u)));
  }

  // ----- combining -----

  lemma Halved(w: nat, len: nat)
    ensures (w + w) * len == (w + w) * (len % 2) + (w + w + (w + w)) * (len / 2)
  {
    var q, r := len / 2, len % 2;
    assert len == q + q + r;
    assert (w + w) * (q + q + r) == (w + w) * q + (w + w) * q + (w + w) * r;
    assert (w + w + (w + w)) * q == (w + w) * q + (w + w) * q;
  }

  /** One round of the loop: square, apply if the bit of the length is set. */
  method Round(to: array<Word>, from: array<Word>, crc: Word, len: nat, ghost w: nat) returns (crc': Word, len': nat)
    requires to != from && to.Length == from.Length == GF2_DIM && Represents(from[..], w)
    modifies to
    ensures Represents(to[..], w + w) && len' == len / 2
    ensures Bits(crc', (w + w + (w + w)) * len') == Bits(crc, (w + w) * len)
  {
    hide Bits, Times, Represents;
    MatrixSquare(to, from, w);
    crc' := crc;
    if len % 2 == 1 {
      TimesMeans(to[..], w + w, crc);
      crc' := MatrixTimes(to, crc);
    } else {
      NoBits(crc);
    }
    len' := len / 2;
    Halved(w, len);
    BitsPlus(crc, (w + w) * (len % 2), (w + w + (w + w)) * len');
  }

  /** crc64_combine. */
  method Combine(crc1: Word, crc2: Word, len2: nat) returns (r: Word)
    ensures r == if len2 == 0 then crc1 else Xor(Bits(crc1, 8 * len2), crc2)
  {
    hide Bits, Xor, Represents;
    if len2 == 0 {
      return crc1;
    }
    var even, odd := new Word[GF2_DIM], new Word[GF2_DIM];
    OneZeroBit(odd);
    MatrixSquare(even, odd, 1);
    MatrixSquare(odd, even, 2);
    var len := len2;
    r := crc1;
    ghost var w := 4;
    while true
      invariant Represents(odd[..], w) && 0 < len
      invariant Bits(r, (w + w) * len) == Bits(crc1, 8 * len2)
      decreases len
    {
      r, len := Round(even, odd, r, len, w);
      w := w + w;
      if len == 0 {
        break;
      }
      r, len := Round(odd, even, r, len, w);
      w := w + w;
      if len == 0 {
        break;
      }
    }
    NoBits(r);
    r := Xor(r, crc2);
  }

  /** From the checksums of two blocks to that of their concatenation. */
  method CombineBlocks(a: seq<Byte>, b: seq<Byte>, crc1: Word, crc2: Word) returns (r: Word)
    requires crc1 == Checksum(0, a) && crc2 == Checksum(0, b)
    ensures r == Checksum(0, a + b)
  {
    hide Bits, Xor, Checksum;
    r := Combine(crc1, crc2, |b|);
    Combining(a, b);
    assert b == [] ==> a + b == a;
  }
}
