/**
 * CRC-64 as arithmetic over GF(2) (src/crc64.c): the remainder register one
 * bit at a time, its linearity, and the word operations the fast forms use.
 *
 * The operations on 64-bit words are named functions; what is proved here
 * about them is all that the rest of the CRC development relies on.
 */
module CrcAlgebra {
  type Word = bv64

  const POLY: Word := 0xc96c5795d7870f42

  function Xor(a: Word, b: Word): Word { a ^ b }

  function Not(a: Word): Word { !a }

  predicate Odd(a: Word) { a & 1 == 1 }

  function Shr1(a: Word): Word { a >> 1 }

  function Shl1(a: Word): Word { a << 1 }

  function Low8(a: Word): Word { a & 0xff }

  function Shr8(a: Word): Word { a >> 8 }

  function Shl8(a: Word): Word { a << 8 }

  /** The top bit, or the top byte, is clear. */
  predicate Room1(a: Word) { a >> 63 == 0 }

  predicate Room8(a: Word) { a >> 56 == 0 }

  // ----- exclusive or -----

  lemma XorAssoc(a: Word, b: Word, c: Word)
    ensures Xor(Xor(a, b), c) == Xor(a, Xor(b, c))
  {
  }

  lemma XorComm(a: Word, b: Word)
    ensures Xor(a, b) == Xor(b, a)
  {
  }

  lemma XorSelf(a: Word)
    ensures Xor(a, a) == 0 && Xor(0, a) == a && Xor(a, 0) == a
  {
  }

  lemma XorSwap(a: Word, b: Word, c: Word)
    ensures Xor(a, Xor(b, c)) == Xor(b, Xor(a, c))
  {
    XorAssoc(a, b, c);
    XorAssoc(b, a, c);
    XorComm(a, b);
    hide Xor;
  }

  lemma XorCancel(p: Word, a: Word, b: Word)
    ensures Xor(Xor(p, a), Xor(p, b)) == Xor(a, b)
  {
    XorAssoc(p, a, Xor(p, b));
    XorSwap(a, p, b);
    XorAssoc(p, p, Xor(a, b));
    XorSelf(p);
    XorSelf(Xor(a, b));
    hide Xor;
  }

  lemma NotNot(a: Word)
    ensures Not(Not(a)) == a
  {
  }

  lemma NotXor(a: Word, b: Word)
    ensures Not(Xor(a, b)) == Xor(Not(a), b)
  {
  }

  // ----- shifting -----

  lemma ShiftXor(a: Word, b: Word)
    ensures Odd(Xor(a, b)) <==> (Odd(a) != Odd(b))
    ensures Shr1(Xor(a, b)) == Xor(Shr1(a), Shr1(b))
  {
  }

  lemma Shl1Xor(a: Word, b: Word)
    ensures Shl1(Xor(a, b)) == Xor(Shl1(a), Shl1(b))
  {
  }

  lemma UpDown(a: Word)
    ensures !Odd(Shl1(a)) && (Room1(a) ==> Shr1(Shl1(a)) == a)
  {
  }

  lemma LowBitOut(a: Word)
    ensures a == Xor(if Odd(a) then 1 else 0, Shl1(Shr1(a)))
  {
  }

  lemma LowByteOut(a: Word)
    ensures a == Xor(Low8(a), Shl8(Shr8(a))) && Room8(Shr8(a)) && Low8(Low8(a)) == Low8(a)
  {
  }

  lemma EightUps(a: Word)
    ensures Shl8(a) == Shl1(Shl1(Shl1(Shl1(Shl1(Shl1(Shl1(Shl1(a))))))))
  {
  }

  lemma EightRooms(a: Word)
    requires Room8(a)
    ensures Room1(a) && Room1(Shl1(a)) && Room1(Shl1(Shl1(a))) && Room1(Shl1(Shl1(Shl1(a))))
    ensures var b := Shl1(Shl1(Shl1(Shl1(a))));
      Room1(b) && Room1(Shl1(b)) && Room1(Shl1(Shl1(b))) && Room1(Shl1(Shl1(Shl1(b))))
  {
  }

  lemma ShiftedOut(w: Word)
    ensures Shr8(Shr8(Shr8(Shr8(Shr8(Shr8(Shr8(Shr8(w)))))))) == 0
  {
  }

  lemma EightDowns(a: Word)
    ensures Shr1(Shr1(Shr1(Shr1(Shr1(Shr1(Shr1(Shr1(a)))))))) == Shr8(a)
  {
  }

  lemma TopBitLeft(a: Word)
    requires var b := Shr8(Shr8(Shr8(Shr8(Shr8(Shr8(Shr8(a)))))));
      Shr1(Shr1(Shr1(Shr1(Shr1(Shr1(Shr1(b))))))) == 0
    ensures Room1(a)
  {
  }

  // ----- the remainder register -----

  /** One zero bit through the register. */
  function Bit(c: Word): Word {
    if Odd(c) then Xor(POLY, Shr1(c)) else Shr1(c)
  }

  function Bits(c: Word, n: nat): Word
    decreases n
  {
    if n == 0 then c else Bits(Bit(c), n - 1)
  }

  lemma BitLinear(a: Word, b: Word)
    ensures Bit(Xor(a, b)) == Xor(Bit(a), Bit(b))
  {
    ShiftXor(a, b);
    XorCancel(POLY, Shr1(a), Shr1(b));
    XorAssoc(POLY, Shr1(a), Shr1(b));
    XorSwap(Shr1(a), POLY, Shr1(b));
    hide Xor, Shr1, Odd;
  }

  lemma {:induction false} BitsPlus(c: Word, m: nat, n: nat)
    ensures Bits(c, m + n) == Bits(Bits(c, m), n)
    decreases m
  {
    hide Bit;
    if m > 0 {
      BitsPlus(Bit(c), m - 1, n);
    }
  }

  /** The register is linear over GF(2). */
  lemma {:induction false} BitsLinear(a: Word, b: Word, n: nat)
    ensures Bits(Xor(a, b), n) == Xor(Bits(a, n), Bits(b, n))
    decreases n
  {
    hide Bit, Xor;
    if n > 0 {
      BitLinear(a, b);
      BitsLinear(Bit(a), Bit(b), n - 1);
    }
  }

  lemma BitsZero(n: nat)
    ensures Bits(0, n) == 0
  {
    XorSelf(0);
    BitsLinear(0, 0, n);
    XorSelf(Bits(0, n));
    hide Xor, Bits;
  }

  lemma BitUp(a: Word)
    requires Room1(a)
    ensures Bit(Shl1(a)) == a
  {
    UpDown(a);
    hide Shl1, Shr1, Odd, Room1;
  }

  /** A low byte of zeros is shifted out without a trace. */
  lemma BitsUp8(a: Word)
    requires Room8(a)
    ensures Bits(Shl8(a), 8) == a
  {
    EightUps(a);
    EightRooms(a);
    hide Bit, Bits, Shl1, Shl8, Room1, Room8;
    var b := Shl1(Shl1(Shl1(Shl1(a))));
    FourUps(a);
    FourUps(b);
    BitsPlus(Shl8(a), 4, 4);
  }

  lemma FourUps(a: Word)
    requires Room1(a) && Room1(Shl1(a)) && Room1(Shl1(Shl1(a))) && Room1(Shl1(Shl1(Shl1(a))))
    ensures Bits(Shl1(Shl1(Shl1(Shl1(a)))), 4) == a
  {
    hide Bit, Shl1, Room1;
    var b, c, d := Shl1(a), Shl1(Shl1(a)), Shl1(Shl1(Shl1(a)));
    BitUp(d);
    BitUp(c);
    BitUp(b);
    BitUp(a);
    assert Bits(a, 0) == a;
    assert Bits(b, 1) == a;
    assert Bits(c, 2) == a;
    assert Bits(d, 3) == a;
  }

  /** Eight more zero bits: the low byte decides, the rest moves down. */
  lemma PeelByte(a: Word, n: nat)
    ensures Bits(a, n + 8) == Xor(Bits(Low8(a), n + 8), Bits(Shr8(a), n))
  {
    LowByteOut(a);
    BitsLinear(Low8(a), Shl8(Shr8(a)), n + 8);
    BitsPlus(Shl8(Shr8(a)), 8, n);
    BitsUp8(Shr8(a));
    hide Bits, Xor, Low8, Shl8, Shr8, Room8;
  }
}
