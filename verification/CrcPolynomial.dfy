/**
 * What the checksum is, apart from registers and tables: the complement of a
 * remainder of polynomials over GF(2), divided by the generator of ECMA-182.
 */
module CrcPolynomial {
  import opened CrcAlgebra
  import opened Crc
  import opened Polynomials

  /** The generator; its coefficients below x^64 are the bits of 0x42f0e1eba9ea3693. */
  const EXPONENTS: set<int> := {
    64, 62, 57, 55, 54, 53, 52, 47, 46, 45, 40, 39,
    38, 37, 35, 33, 32, 31, 29, 27, 24, 23, 22, 21,
    19, 17, 13, 12, 10, 9, 7, 4, 1, 0
  }

  function Generator(): Poly {
    seq(65, i => i in EXPONENTS)
  }

  predicate Lowest(w: Word) { w & 1 == 1 }

  function Halved(w: Word): Word { w >> 1 }

  /** The bits of a word, the lowest one first. */
  predicate BitAt(w: Word, i: nat) {
    if i == 0 then Lowest(w) else BitAt(Halved(w), i - 1)
  }

  /** The bits of a message: bytes in order, each with its lowest bit first. */
  function MessageBits(s: seq<Byte>): (m: seq<bool>)
    ensures |m| == 8 * |s|
    decreases |s|
  {
    if s == [] then [] else ByteBits(s[0]) + MessageBits(s[1..])
  }

  function ByteBits(b: Byte): seq<bool> {
    seq(8, i requires 0 <= i < 8 => BitAt(b, i))
  }

  /** A word as a polynomial: the lowest bit is the coefficient of x^63. */
  function WordPoly(w: Word): Poly {
    seq(64, i requires 0 <= i < 64 => BitAt(w, 63 - i))
  }

  function ComplementPoly(w: Word): Poly {
    seq(64, i requires 0 <= i < 64 => !BitAt(w, 63 - i))
  }

  /** The message and 64 zeros, its first bit at the highest place, and the first 64
      bits combined with a start value. */
  function Dividend(start: Poly, m: seq<bool>): Poly
    requires |start| == 64
  {
    var n := |m| + 64;
    seq(n, i requires 0 <= i < n =>
      var j := n - 1 - i;
      (j < |m| && m[j]) != (j < 64 && start[63 - j]))
  }

  // ----- bits of words -----

  lemma HalvedIs(w: Word)
    ensures Halved(w) == Shr1(w) && Lowest(w) == Odd(w)
  {
  }

  lemma {:induction false} BitXor(a: Word, b: Word, i: nat)
    ensures BitAt(Xor(a, b), i) == (BitAt(a, i) != BitAt(b, i))
    decreases i
  {
    ShiftXor(a, b);
    HalvedIs(a);
    HalvedIs(b);
    HalvedIs(Xor(a, b));
    hide Xor, Halved, Lowest, Shr1, Odd;
    if i > 0 {
      BitXor(Halved(a), Halved(b), i - 1);
    }
  }

  /** Eight places at a time. */
  lemma BitChunk(w: Word, i: nat)
    ensures BitAt(w, i + 8) == BitAt(Shr8(w), i)
  {
    EightDowns(w);
    hide Halved, Shr8, Shr1, Lowest;
    var a := FourBits(w, i + 4);
    var b := FourBits(a, i);
  }

  lemma FourBits(w: Word, i: nat) returns (r: Word)
    ensures r == Shr1(Shr1(Shr1(Shr1(w)))) && BitAt(w, i + 4) == BitAt(r, i)
  {
    r := Shr1(Shr1(Shr1(Shr1(w))));
    HalvedIs(w);
    HalvedIs(Shr1(w));
    HalvedIs(Shr1(Shr1(w)));
    HalvedIs(Shr1(Shr1(Shr1(w))));
    hide Halved, Shr1, Lowest;
    assert BitAt(Shr1(Shr1(w)), i + 2) == BitAt(Shr1(Shr1(Shr1(w))), i + 1);
  }

  lemma {:induction false} BitsOfZero(i: nat)
    ensures !BitAt(0, i)
  {
    if i > 0 {
      BitsOfZero(i - 1);
    }
  }

  lemma BitBeyond(w: Word)
    ensures !BitAt(w, 64)
  {
    ShiftedOut(w);
    hide Shr8, BitAt;
    BitChunk(w, 56);
    BitChunk(Shr8(w), 48);
    BitChunk(Shr8(Shr8(w)), 40);
    BitChunk(Shr8(Shr8(Shr8(w))), 32);
    var h := Shr8(Shr8(Shr8(Shr8(w))));
    BitChunk(h, 24);
    BitChunk(Shr8(h), 16);
    BitChunk(Shr8(Shr8(h)), 8);
    BitChunk(Shr8(Shr8(Shr8(h))), 0);
    BitsOfZero(0);
  }

  lemma BitNot(w: Word, i: nat)
    requires i < 64
    ensures BitAt(Not(w), i) == !BitAt(w, i)
  {
    NotIsXor(w);
    OnesBits(i);
    hide Not, BitAt;
    BitXor(Not(0), w, i);
  }

  function Bytes(w: Word, k: nat): Word {
    if k == 0 then w else Bytes(Shr8(w), k - 1)
  }

  lemma {:induction false} BitInByte(w: Word, k: nat, i: nat)
    ensures BitAt(w, 8 * k + i) == BitAt(Bytes(w, k), i)
    decreases k
  {
    hide BitAt, Shr8;
    if k > 0 {
      BitChunk(w, 8 * (k - 1) + i);
      BitInByte(Shr8(w), k - 1, i);
    }
  }

  /** Bit i of the lowest byte. */
  predicate Masked(w: Word, i: nat) {
    match i
    case 0 => w & 0x01 != 0
    case 1 => w & 0x02 != 0
    case 2 => w & 0x04 != 0
    case 3 => w & 0x08 != 0
    case 4 => w & 0x10 != 0
    case 5 => w & 0x20 != 0
    case 6 => w & 0x40 != 0
    case _ => w & 0x80 != 0
  }

  lemma MaskDown(w: Word, i: nat)
    requires i < 7
    ensures Masked(Halved(w), i) == Masked(w, i + 1) && Lowest(w) == Masked(w, 0)
  {
  }

  lemma {:induction false} FirstBits(w: Word, i: nat)
    requires i < 8
    ensures BitAt(w, i) == Masked(w, i)
    decreases i
  {
    hide Masked, Halved, Lowest;
    if i > 0 {
      MaskDown(w, i - 1);
      FirstBits(Halved(w), i - 1);
    } else {
      MaskDown(w, 0);
    }
  }

  lemma BitByMask(w: Word, i: nat)
    ensures BitAt(w, i) == Masked(Bytes(w, i / 8), i % 8)
  {
    BitInByte(w, i / 8, i % 8);
    FirstBits(Bytes(w, i / 8), i % 8);
    hide *;
  }

  lemma OnesBits(i: nat)
    requires i < 64
    ensures BitAt(Not(0), i)
  {
    BitByMask(Not(0), i);
    NotZero();
    OnesDown(0, i / 8);
    OnesMasked(i / 8, i % 8);
    hide BitAt, Bytes, OnesPart;
  }

  /** All ones, without their lowest k bytes. */
  function OnesPart(k: nat): Word {
    match k
    case 0 => 0xffff_ffff_ffff_ffff
    case 1 => 0x00ff_ffff_ffff_ffff
    case 2 => 0x0000_ffff_ffff_ffff
    case 3 => 0x0000_00ff_ffff_ffff
    case 4 => 0x0000_0000_ffff_ffff
    case 5 => 0x0000_0000_00ff_ffff
    case 6 => 0x0000_0000_0000_ffff
    case _ => 0x0000_0000_0000_00ff
  }

  lemma {:induction false} OnesDown(k: nat, n: nat)
    requires k + n < 8
    ensures Bytes(OnesPart(k), n) == OnesPart(k + n)
    decreases n
  {
    if n > 0 {
      assert Shr8(OnesPart(k)) == OnesPart(k + 1);
      hide OnesPart, Shr8;
      OnesDown(k + 1, n - 1);
    }
  }

  lemma NotZero()
    ensures Not(0) == OnesPart(0)
  {
  }

  lemma OnesMasked(k: nat, i: nat)
    requires k < 8 && i < 8
    ensures Masked(OnesPart(k), i)
  {
  }

  /** The generator in the register, the constant of the source. */
  lemma PolyBits(i: nat)
    requires i < 64
    ensures BitAt(POLY, i) == Generator()[63 - i]
  {
    BitByMask(POLY, i);
    PolyDown(0, i / 8);
    hide BitAt, Bytes;
    PolyMasked(i / 8, i % 8);
  }

  /** ... without its lowest k bytes. */
  function PolyPart(k: nat): Word {
    match k
    case 0 => 0xc96c_5795_d787_0f42
    case 1 => 0x00c9_6c57_95d7_870f
    case 2 => 0x0000_c96c_5795_d787
    case 3 => 0x0000_00c9_6c57_95d7
    case 4 => 0x0000_0000_c96c_5795
    case 5 => 0x0000_0000_00c9_6c57
    case 6 => 0x0000_0000_0000_c96c
    case _ => 0x0000_0000_0000_00c9
  }

  lemma {:induction false} PolyDown(k: nat, n: nat)
    requires k + n < 8
    ensures Bytes(PolyPart(k), n) == PolyPart(k + n) && PolyPart(0) == POLY
    decreases n
  {
    if n > 0 {
      assert Shr8(PolyPart(k)) == PolyPart(k + 1);
      hide PolyPart, Shr8;
      PolyDown(k + 1, n - 1);
    }
  }

  lemma PolyMasked(k: nat, i: nat)
    requires k < 8 && i < 8
    ensures Masked(PolyPart(k), i) == (63 - (8 * k + i) in EXPONENTS)
  {
  }

  // ----- one bit through the register -----

  /** The register after a message, one bit at a time. */
  function FeedBits(c: Word, m: seq<bool>): Word {
    if m == [] then c else Bit(Xor(FeedBits(c, m[..|m| - 1]), BitWord(m[|m| - 1])))
  }

  function BitWord(b: bool): Word {
    if b then 1 else 0
  }

  lemma {:induction false} BitWordAt(b: bool, i: nat)
    ensures BitAt(BitWord(b), i) == (b && i == 0)
  {
    if i > 0 {
      BitsOfZero(i - 1);
      assert Halved(BitWord(b)) == 0;
    }
  }

  lemma StepBit(y: Word, k: nat)
    ensures BitAt(Bit(y), k) == (BitAt(y, k + 1) != (Lowest(y) && BitAt(POLY, k)))
  {
    HalvedIs(y);
    BitXor(POLY, Shr1(y), k);
    hide Xor, Shr1, Halved, Lowest, Odd;
    assert BitAt(y, k + 1) == BitAt(Shr1(y), k);
  }

  lemma FedBit(c: Word, b: bool, k: nat)
    ensures BitAt(Xor(c, BitWord(b)), k) == (BitAt(c, k) != (b && k == 0))
  {
    BitXor(c, BitWord(b), k);
    BitWordAt(b, k);
  }

  /** What one bit does to the coefficients. */
  lemma StepAt(c: Word, b: bool, i: int)
    ensures var c', t := Bit(Xor(c, BitWord(b))), BitAt(c, 0) != b;
      Coef(WordPoly(c'), i) == (((Coef(WordPoly(c), i - 1) != (b && i == 64)) != (t && Coef(Generator(), i))))
  {
    hide *;
    var y := Xor(c, BitWord(b));
    LowestIs(y);
    FedBit(c, b, 0);
    WordCoef(c, i - 1);
    WordCoef(Bit(y), i);
    GeneratorCoef(i);
    if 0 <= i < 64 {
      StepBit(y, 63 - i);
      FedBit(c, b, 64 - i);
      BitBeyond(c);
    }
  }

  lemma LowestIs(w: Word)
    ensures Lowest(w) == BitAt(w, 0)
  {
  }

  lemma WordCoef(w: Word, i: int)
    ensures Coef(WordPoly(w), i) == if 0 <= i < 64 then BitAt(w, 63 - i) else false
  {
    hide BitAt;
  }

  lemma GeneratorCoef(i: int)
    ensures Coef(Generator(), i) == if 0 <= i < 64 then BitAt(POLY, 63 - i) else i == 64
  {
    if 0 <= i < 64 {
      PolyBits(63 - i);
    } else if i == 64 {
      assert 64 in EXPONENTS;
    }
    hide BitAt;
  }

  // ----- the whole message -----

  /** What is divided after one more bit. */
  lemma DividendMore(start: Poly, m: seq<bool>, i: int)
    requires |start| == 64 && m != []
    ensures var n := |m| - 1;
      Coef(Dividend(start, m), i) == (Coef(Dividend(start, m[..n]), i - 1) != (m[n] && i == 64))
  {
  }

  /** The register is a remainder of what has been fed, its bits the coefficients. */
  lemma {:induction false} FedRemainder(c: Word, m: seq<bool>) returns (q: Poly)
    ensures Same(Dividend(WordPoly(c), m), Plus(Times(q, Generator()), WordPoly(FeedBits(c, m))))
    decreases |m|
  {
    if m == [] {
      q := [];
      TimesNone(Generator());
      forall i ensures Coef(Dividend(WordPoly(c), m), i) == Coef(Plus([], WordPoly(c)), i) {
        PlusCoef([], WordPoly(c), i);
      }
    } else {
      var n := |m| - 1;
      var before := FeedBits(c, m[..n]);
      var p := FedRemainder(c, m[..n]);
      q := [BitAt(before, 0) != m[n]] + p;
      forall i ensures Coef(Dividend(WordPoly(c), m), i) == Coef(Plus(Times(q, Generator()), WordPoly(FeedBits(c, m))), i) {
        FedStep(c, m, p, q, i);
      }
    }
  }

  lemma FedStep(c: Word, m: seq<bool>, p: Poly, q: Poly, i: int)
    requires m != []
    requires var n := |m| - 1;
      var before := FeedBits(c, m[..n]);
      && Same(Dividend(WordPoly(c), m[..n]), Plus(Times(p, Generator()), WordPoly(before)))
      && q == [BitAt(before, 0) != m[n]] + p
    ensures Coef(Dividend(WordPoly(c), m), i) == Coef(Plus(Times(q, Generator()), WordPoly(FeedBits(c, m))), i)
  {
    var n := |m| - 1;
    var before := FeedBits(c, m[..n]);
    assert Down(q) == p && Coef(q, 0) == (BitAt(before, 0) != m[n]);
    hide Times, Plus, Dividend, WordPoly, Generator, Bit, BitAt, BitWord, Xor, Coef, Down;
    DividendMore(WordPoly(c), m, i);
    StepAt(before, m[n], i);
    PlusCoef(Times(q, Generator()), WordPoly(FeedBits(c, m)), i);
    PlusCoef(Times(p, Generator()), WordPoly(before), i - 1);
    TimesStep(q, Generator(), i);
    assert Coef(Dividend(WordPoly(c), m[..n]), i - 1) == Coef(Plus(Times(p, Generator()), WordPoly(before)), i - 1);
  }

  // ----- bytes and bits -----

  lemma {:induction false} FeedBitsConcat(c: Word, a: seq<bool>, b: seq<bool>)
    ensures FeedBits(c, a + b) == FeedBits(FeedBits(c, a), b)
    decreases |b|
  {
    hide Bit, Xor, BitWord;
    if b == [] {
      assert a + b == a;
    } else {
      var n := |b| - 1;
      assert (a + b)[..|a + b| - 1] == a + b[..n];
      FeedBitsConcat(c, a, b[..n]);
    }
  }

  /** The lowest bit of what is left of a byte goes into the register first. */
  lemma {:induction false} ByteFed(c: Word, w: Word, m: seq<bool>)
    requires forall i | 0 <= i < |m| :: m[i] == BitAt(w, i)
    ensures Bits(Xor(c, w), |m|) == Xor(FeedBits(c, m), BytesDown(w, |m|))
    decreases |m|
  {
    hide Bit, Xor, BitWord;
    if m == [] {
      assert Bits(Xor(c, w), 0) == Xor(c, w);
    } else {
      var n := |m| - 1;
      ByteFed(c, w, m[..n]);
      BitsPlus(Xor(c, w), n, 1);
      BitsOne(Xor(FeedBits(c, m[..n]), BytesDown(w, n)));
      BitsDown(w, n);
      OneIn(FeedBits(c, m[..n]), BytesDown(w, n), m[n]);
    }
  }

  function BytesDown(w: Word, n: nat): Word {
    if n == 0 then w else BytesDown(Halved(w), n - 1)
  }

  lemma {:induction false} BitsDown(w: Word, n: nat)
    ensures BytesDown(w, n + 1) == Halved(BytesDown(w, n)) && BitAt(w, n) == Lowest(BytesDown(w, n))
    decreases n
  {
    hide Halved, Lowest;
    if n > 0 {
      BitsDown(Halved(w), n - 1);
    } else {
      assert BytesDown(w, 1) == BytesDown(Halved(w), 0);
    }
  }

  lemma BitsOne(c: Word)
    ensures Bits(c, 1) == Bit(c)
  {
    hide Bit;
    assert Bits(Bit(c), 0) == Bit(c);
  }

  lemma OneIn(c: Word, w: Word, b: bool)
    requires b == Lowest(w)
    ensures Bit(Xor(c, w)) == Xor(Bit(Xor(c, BitWord(b))), Halved(w))
  {
    LowBitOut(w);
    HalvedIs(w);
    XorAssoc(c, BitWord(b), Shl1(Shr1(w)));
    BitLinear(Xor(c, BitWord(b)), Shl1(Shr1(w)));
    RoomUnder(w);
    BitUp(Shr1(w));
    hide Bit, Xor, Shl1, Shr1, Halved, Lowest, Odd;
  }

  lemma RoomUnder(w: Word)
    ensures Room1(Shr1(w))
  {
  }

  lemma ByteGone(b: Byte)
    ensures BytesDown(b, 8) == 0
  {
    var w: Word := b;
    assert Low8(w) == w;
    assert Halved(Halved(Halved(Halved(Halved(Halved(Halved(Halved(w)))))))) == 0;
    hide Halved;
    assert BytesDown(w, 8) == BytesDown(Halved(Halved(w)), 6) == BytesDown(Halved(Halved(Halved(Halved(w)))), 4);
    var v := Halved(Halved(Halved(Halved(w))));
    assert BytesDown(v, 4) == BytesDown(Halved(Halved(v)), 2);
    assert BytesDown(Halved(Halved(v)), 2) == BytesDown(Halved(Halved(Halved(Halved(v)))), 0);
  }

  lemma {:induction false} FeedIsBits(c: Word, s: seq<Byte>)
    ensures Feed(c, s) == FeedBits(c, MessageBits(s))
    decreases |s|
  {
    hide Bits, Xor, Bit, BitWord, BitAt;
    if s != [] {
      var m := ByteBits(s[0]);
      ByteFed(c, s[0], m);
      ByteGone(s[0]);
      XorSelf(FeedBits(c, m));
      FeedBitsConcat(c, m, MessageBits(s[1..]));
      FeedIsBits(Bits(Xor(c, s[0]), 8), s[1..]);
    }
  }

  // ----- the checksum -----

  /** The complement of the checksum is the remainder of the message, followed by 64
      zeros and with its first 64 bits changed by the complement of the start value,
      on division by the generator. Started from 0, they are complemented. */
  lemma ChecksumIsRemainder(crc: Word, s: seq<Byte>)
    ensures Remainder(Dividend(ComplementPoly(crc), MessageBits(s)), Generator(), ComplementPoly(Checksum(crc, s)))
  {
    var m := MessageBits(s);
    FeedIsBits(Not(crc), s);
    ComplementIs(crc);
    ComplementIs(Feed(Not(crc), s));
    NotNot(Feed(Not(crc), s));
    ComplementIs(Checksum(crc, s));
    hide Not, Feed, FeedBits, WordPoly, ComplementPoly, MessageBits, Dividend, Times, Plus;
    var q := FedRemainder(Not(crc), m);
    Sizes(Checksum(crc, s));
  }

  lemma ComplementIs(w: Word)
    ensures ComplementPoly(w) == WordPoly(Not(w))
  {
    forall i | 0 <= i < 64 ensures ComplementPoly(w)[i] == WordPoly(Not(w))[i] {
      BitNot(w, 63 - i);
    }
  }

  lemma Sizes(w: Word)
    ensures |ComplementPoly(w)| == 64 && |Generator()| == 65
  {
  }

  // ----- the check value -----

  lemma EightBits(a: Word, b: Word, c: Word, d: Word, e: Word, f: Word, g: Word, h: Word, i: Word)
    requires Bit(a) == b && Bit(b) == c && Bit(c) == d && Bit(d) == e && Bit(e) == f && Bit(f) == g && Bit(g) == h && Bit(h) == i
    ensures Bits(a, 8) == i
  {
    hide Bit;
    assert Bits(e, 4) == Bits(g, 2);
    assert Bits(g, 2) == Bits(i, 0);
    assert Bits(a, 8) == Bits(c, 6) == Bits(e, 4);
  }

  /** The text "123456789". */
  const NINE: seq<Byte> := [0x31, 0x32, 0x33, 0x34, 0x35, 0x36, 0x37, 0x38, 0x39]

  lemma CheckValue()
    ensures Checksum(0, NINE) == 0x995d_c9bb_df19_39fa
  {
    assert Not(0) == 0xffff_ffff_ffff_ffff && Not(0x66a2_3644_20e6_c605) == 0x995d_c9bb_df19_39fa;
    var s := NINE;
    assert s[9..] == [];
    FeedNone(0x66a2_3644_20e6_c605);
    CheckBytes(s);
    hide Feed, Not, Bits, Xor;
  }

  lemma FeedNone(c: Word)
    ensures Feed(c, []) == c
  {
  }

  lemma CheckBytes(s: seq<Byte>)
    requires s == NINE
    ensures Feed(0xffff_ffff_ffff_ffff, s) == Feed(0x66a2_3644_20e6_c605, s[9..])
  {
    hide Feed;
    assert s[0..] == s;
    assert s[0..][1..] == s[1..];
    assert s[1..][1..] == s[2..];
    assert s[2..][1..] == s[3..];
    assert s[3..][1..] == s[4..];
    assert s[4..][1..] == s[5..];
    assert s[5..][1..] == s[6..];
    assert s[6..][1..] == s[7..];
    assert s[7..][1..] == s[8..];
    assert s[8..][1..] == s[9..];
    CheckByte1(s[0..]);
    CheckByte2(s[1..]);
    CheckByte3(s[2..]);
    CheckByte4(s[3..]);
    CheckByte5(s[4..]);
    CheckByte6(s[5..]);
    CheckByte7(s[6..]);
    CheckByte8(s[7..]);
    CheckByte9(s[8..]);
  }

  lemma CheckByte1(s: seq<Byte>)
    requires s != [] && s[0] == 0x31
    ensures Feed(0xffff_ffff_ffff_ffff, s) == Feed(0xd5d0_f17a_6b6a_3512, s[1..])
  {
    EightBits(0xffff_ffff_ffff_ffce, 0x7fff_ffff_ffff_ffe7, 0xf693_a86a_2878_f0b1,
              0xb225_83a0_c3bb_771a, 0x5912_c1d0_61dd_bb8d, 0xe5e5_377d_e769_d284,
              0x72f2_9bbe_f3b4_e942, 0x3979_4ddf_79da_74a1, 0xd5d0_f17a_6b6a_3512);
    assert Xor(0xffff_ffff_ffff_ffff, 0x31) == 0xffff_ffff_ffff_ffce;
    hide Bits, Xor;
  }

  lemma CheckByte2(s: seq<Byte>)
    requires s != [] && s[0] == 0x32
    ensures Feed(0xd5d0_f17a_6b6a_3512, s) == Feed(0xfbe2_9281_d80d_a6a7, s[1..])
  {
    EightBits(0xd5d0_f17a_6b6a_3520, 0x6ae8_78bd_35b5_1a90, 0x3574_3c5e_9ada_8d48,
              0x1aba_1e2f_4d6d_46a4, 0x0d5d_0f17_a6b6_a352, 0x06ae_878b_d35b_51a9,
              0xca3b_1450_3e2a_a796, 0x651d_8a28_1f15_53cb, 0xfbe2_9281_d80d_a6a7);
    assert Xor(0xd5d0_f17a_6b6a_3512, 0x32) == 0xd5d0_f17a_6b6a_3520;
    hide Bits, Xor;
  }

  lemma CheckByte3(s: seq<Byte>)
    requires s != [] && s[0] == 0x33
    ensures Feed(0xfbe2_9281_d80d_a6a7, s) == Feed(0xcfdc_d7bb_f8e3_3a9e, s[1..])
  {
    EightBits(0xfbe2_9281_d80d_a694, 0x7df1_4940_ec06_d34a, 0x3ef8_a4a0_7603_69a5,
              0xd610_05c5_ec86_bb90, 0x6b08_02e2_f643_5dc8, 0x3584_0171_7b21_aee4,
              0x1ac2_00b8_bd90_d772, 0x0d61_005c_5ec8_6bb9, 0xcfdc_d7bb_f8e3_3a9e);
    assert Xor(0xfbe2_9281_d80d_a6a7, 0x33) == 0xfbe2_9281_d80d_a694;
    hide Bits, Xor;
  }

  lemma CheckByte4(s: seq<Byte>)
    requires s != [] && s[0] == 0x34
    ensures Feed(0xcfdc_d7bb_f8e3_3a9e, s) == Feed(0x31b1_786c_9947_3cd7, s[1..])
  {
    EightBits(0xcfdc_d7bb_f8e3_3aaa, 0x67ee_6bdd_fc71_9d55, 0xfa9b_627b_29bf_c1e8,
              0x7d4d_b13d_94df_e0f4, 0x3ea6_d89e_ca6f_f07a, 0x1f53_6c4f_6537_f83d,
              0xc6c5_e1b2_651c_f35c, 0x6362_f0d9_328e_79ae, 0x31b1_786c_9947_3cd7);
    assert Xor(0xcfdc_d7bb_f8e3_3a9e, 0x34) == 0xcfdc_d7bb_f8e3_3aaa;
    hide Bits, Xor;
  }

  lemma CheckByte5(s: seq<Byte>)
    requires s != [] && s[0] == 0x35
    ensures Feed(0x31b1_786c_9947_3cd7, s) == Feed(0xa258_b900_5afb_a316, s[1..])
  {
    EightBits(0x31b1_786c_9947_3ce2, 0x18d8_bc36_4ca3_9e71, 0xc500_098e_f1d6_c07a,
              0x6280_04c7_78eb_603d, 0xf82c_55f6_6bf2_bf5c, 0x7c16_2afb_35f9_5fae,
              0x3e0b_157d_9afc_afd7, 0xd669_dd2b_1af9_58a9, 0xa258_b900_5afb_a316);
    assert Xor(0x31b1_786c_9947_3cd7, 0x35) == 0x31b1_786c_9947_3ce2;
    hide Bits, Xor;
  }

  lemma CheckByte6(s: seq<Byte>)
    requires s != [] && s[0] == 0x36
    ensures Feed(0xa258_b900_5afb_a316, s) == Feed(0xfb95_1ac9_a23c_3731, s[1..])
  {
    EightBits(0xa258_b900_5afb_a320, 0x512c_5c80_2d7d_d190, 0x2896_2e40_16be_e8c8,
              0x144b_1720_0b5f_7464, 0x0a25_8b90_05af_ba32, 0x0512_c5c8_02d7_dd19,
              0xcbe5_3571_d6ec_e1ce, 0x65f2_9ab8_eb76_70e7, 0xfb95_1ac9_a23c_3731);
    assert Xor(0xa258_b900_5afb_a316, 0x36) == 0xa258_b900_5afb_a320;
    hide Bits, Xor;
  }

  lemma CheckByte7(s: seq<Byte>)
    requires s != [] && s[0] == 0x37
    ensures Feed(0xfb95_1ac9_a23c_3731, s) == Feed(0x8faf_60c9_9e6d_c25f, s[1..])
  {
    EightBits(0xfb95_1ac9_a23c_3706, 0x7dca_8d64_d11e_1b83, 0xf789_1127_bf08_0283,
              0xb2a8_df06_0803_0e03, 0x9038_3816_d386_8843, 0x8170_4b9e_be44_4b63,
              0x89d4_725a_88a5_2af3, 0x8d86_6eb8_93d5_9a3b, 0x8faf_60c9_9e6d_c25f);
    assert Xor(0xfb95_1ac9_a23c_3731, 0x37) == 0xfb95_1ac9_a23c_3706;
    hide Bits, Xor;
  }

  lemma CheckByte8(s: seq<Byte>)
    requires s != [] && s[0] == 0x38
    ensures Feed(0x8faf_60c9_9e6d_c25f, s) == Feed(0xa374_7fb7_d453_87f6, s[1..])
  {
    EightBits(0x8faf_60c9_9e6d_c267, 0x8ebb_e7f1_18b1_ee71, 0x8e31_a46d_5bdf_f87a,
              0x4718_d236_adef_fc3d, 0xeae0_3e8e_8170_f15c, 0x7570_1f47_40b8_78ae,
              0x3ab8_0fa3_a05c_3c57, 0xd430_5044_07a9_1169, 0xa374_7fb7_d453_87f6);
    assert Xor(0x8faf_60c9_9e6d_c25f, 0x38) == 0x8faf_60c9_9e6d_c267;
    hide Bits, Xor;
  }

  lemma CheckByte9(s: seq<Byte>)
    requires s != [] && s[0] == 0x39
    ensures Feed(0xa374_7fb7_d453_87f6, s) == Feed(0x66a2_3644_20e6_c605, s[1..])
  {
    EightBits(0xa374_7fb7_d453_87cf, 0x98d6_684e_3dae_cca5, 0x8507_63b2_c950_6910,
              0x4283_b1d9_64a8_3488, 0x2141_d8ec_b254_1a44, 0x10a0_ec76_592a_0d22,
              0x0850_763b_2c95_0691, 0xcd44_6c88_41cd_8c0a, 0x66a2_3644_20e6_c605);
    assert Xor(0xa374_7fb7_d453_87f6, 0x39) == 0xa374_7fb7_d453_87cf;
    hide Bits, Xor;
  }
}
