/**
 * The field GF(2^8) of section 4.2 of FIPS 197: polynomials modulo
 * x^8 + x^4 + x^3 + x + 1. What the byte operations of src/aes.c compute in it.
 */
module AesGalois {
  import opened Bytes
  import opened Polynomials
  import opened AesField

  /** m(x). */
  const MODULUS: Poly := [true, true, false, true, true, false, false, false, true]

  /** The bits of a byte, the lowest one first. */
  predicate BitAt(b: byte, i: int) {
    match i
    case 0 => b & 0x01 != 0
    case 1 => b & 0x02 != 0
    case 2 => b & 0x04 != 0
    case 3 => b & 0x08 != 0
    case 4 => b & 0x10 != 0
    case 5 => b & 0x20 != 0
    case 6 => b & 0x40 != 0
    case 7 => b & 0x80 != 0
    case _ => false
  }

  function BytePoly(b: byte): Poly {
    seq(8, i => BitAt(b, i))
  }

  lemma ByteCoef(b: byte, i: int)
    ensures Coef(BytePoly(b), i) == BitAt(b, i)
  {
  }

  /** A byte is determined by its bits. */
  lemma SameBits(a: byte, b: byte)
    requires BitAt(a, 0) == BitAt(b, 0) && BitAt(a, 1) == BitAt(b, 1) && BitAt(a, 2) == BitAt(b, 2) && BitAt(a, 3) == BitAt(b, 3)
    requires BitAt(a, 4) == BitAt(b, 4) && BitAt(a, 5) == BitAt(b, 5) && BitAt(a, 6) == BitAt(b, 6) && BitAt(a, 7) == BitAt(b, 7)
    ensures a == b
  {
  }

  lemma XorAt(a: byte, b: byte, i: int)
    ensures BitAt(Xor(a, b), i) == (BitAt(a, i) != BitAt(b, i))
  {
    if i < 4 {
      LowXor(a, b);
    } else {
      HighXor(a, b);
    }
    hide Xor;
  }

  lemma LowXor(a: byte, b: byte)
    ensures (Xor(a, b) & 0x01 != 0) == ((a & 0x01 != 0) != (b & 0x01 != 0))
    ensures (Xor(a, b) & 0x02 != 0) == ((a & 0x02 != 0) != (b & 0x02 != 0))
    ensures (Xor(a, b) & 0x04 != 0) == ((a & 0x04 != 0) != (b & 0x04 != 0))
    ensures (Xor(a, b) & 0x08 != 0) == ((a & 0x08 != 0) != (b & 0x08 != 0))
  {
  }

  lemma HighXor(a: byte, b: byte)
    ensures (Xor(a, b) & 0x10 != 0) == ((a & 0x10 != 0) != (b & 0x10 != 0))
    ensures (Xor(a, b) & 0x20 != 0) == ((a & 0x20 != 0) != (b & 0x20 != 0))
    ensures (Xor(a, b) & 0x40 != 0) == ((a & 0x40 != 0) != (b & 0x40 != 0))
    ensures (Xor(a, b) & 0x80 != 0) == ((a & 0x80 != 0) != (b & 0x80 != 0))
  {
  }

  /** xtime multiplies by x and takes away m(x) if x^8 comes up. */
  lemma XtimeAt(b: byte, i: int)
    ensures BitAt(Xtime(b), i) == (BitAt(b, i - 1) != (BitAt(b, 7) && Coef(MODULUS, i)))
  {
  }

  // ----- multiplication -----

  /** One step of a product: r is multiplied by x, and a added. */
  function Step(bit: bool, a: byte, r: byte): byte {
    Xor(if bit then a else 0, Xtime(r))
  }

  function Product(a: byte, b: byte): byte {
    Step(BitAt(b, 0), a, Step(BitAt(b, 1), a, Step(BitAt(b, 2), a, Step(BitAt(b, 3), a,
      Step(BitAt(b, 4), a, Step(BitAt(b, 5), a, Step(BitAt(b, 6), a, Step(BitAt(b, 7), a, 0))))))))
  }

  /** The product of a polynomial and a byte, reduced on the way. */
  function Reduced(p: Poly, a: byte): byte {
    if p == [] then 0 else Step(p[0], a, Reduced(p[1..], a))
  }

  lemma {:induction false} ReducedIs(p: Poly, a: byte) returns (q: Poly)
    ensures Same(Times(p, BytePoly(a)), Plus(Times(q, MODULUS), BytePoly(Reduced(p, a))))
    decreases |p|
  {
    if p == [] {
      q := [];
      hide Plus, BitAt;
      forall i ensures Coef(Times(p, BytePoly(a)), i) == Coef(Plus(Times(q, MODULUS), BytePoly(Reduced(p, a))), i) {
        PlusCoef(Times(q, MODULUS), BytePoly(Reduced(p, a)), i);
        TimesNone(BytePoly(a));
        TimesNone(MODULUS);
        ByteCoef(0, i);
        ZeroAt(i);
      }
    } else {
      var r := Reduced(p[1..], a);
      var q1 := ReducedIs(p[1..], a);
      q := [BitAt(r, 7)] + q1;
      forall i ensures Coef(Times(p, BytePoly(a)), i) == Coef(Plus(Times(q, MODULUS), BytePoly(Reduced(p, a))), i) {
        ReducedStep(p, a, q1, q, r, i);
      }
    }
  }

  lemma ZeroAt(i: int)
    ensures !BitAt(0, i)
  {
  }

  lemma StepIs(bit: bool, a: byte, r: byte, i: int)
    ensures BitAt(Step(bit, a, r), i) == ((bit && BitAt(a, i)) != BitAt(Xtime(r), i))
  {
    XorAt(if bit then a else 0, Xtime(r), i);
    ZeroAt(i);
    hide BitAt, Xtime, Xor;
  }

  lemma ReducedStep(p: Poly, a: byte, q1: Poly, q: Poly, r: byte, i: int)
    requires p != [] && r == Reduced(p[1..], a) && q == [BitAt(r, 7)] + q1
    requires Same(Times(p[1..], BytePoly(a)), Plus(Times(q1, MODULUS), BytePoly(r)))
    ensures Coef(Times(p, BytePoly(a)), i) == Coef(Plus(Times(q, MODULUS), BytePoly(Reduced(p, a))), i)
  {
    hide *;
    var r' := Reduced(p, a);
    ReducedParts(p, a, q1, q, r, i);
    TimesStep(p, BytePoly(a), i);
    TimesStep(q, MODULUS, i);
    PlusCoef(Times(q, MODULUS), BytePoly(r'), i);
    PlusCoef(Times(q1, MODULUS), BytePoly(r), i - 1);
    ByteCoef(a, i);
    ByteCoef(r, i - 1);
    ByteCoef(r', i);
    StepIs(p[0], a, r, i);
    XtimeAt(r, i);
  }

  lemma ReducedParts(p: Poly, a: byte, q1: Poly, q: Poly, r: byte, i: int)
    requires p != [] && r == Reduced(p[1..], a) && q == [BitAt(r, 7)] + q1
    requires Same(Times(p[1..], BytePoly(a)), Plus(Times(q1, MODULUS), BytePoly(r)))
    ensures Down(p) == p[1..] && Down(q) == q1 && Coef(q, 0) == BitAt(r, 7) && Coef(p, 0) == p[0]
    ensures Reduced(p, a) == Step(p[0], a, r)
    ensures Coef(Times(p[1..], BytePoly(a)), i - 1) == Coef(Plus(Times(q1, MODULUS), BytePoly(r)), i - 1)
  {
    hide Times, Plus, BytePoly, BitAt, Step;
  }

  /** Multiplication in the field: what is left of the product of the polynomials,
      modulo m(x). */
  lemma ProductIs(a: byte, b: byte)
    ensures Remainder(Times(BytePoly(b), BytePoly(a)), MODULUS, BytePoly(Product(a, b)))
  {
    ProductReduced(a, b);
    hide Times, Plus, BitAt, Product, Reduced;
    var q := ReducedIs(BytePoly(b), a);
  }

  lemma ProductReduced(a: byte, b: byte)
    ensures Reduced(BytePoly(b), a) == Product(a, b)
  {
    hide Step, BitAt;
    var p := BytePoly(b);
    assert p[1..][1..] == p[2..] && p[2..][1..] == p[3..] && p[3..][1..] == p[4..] && p[4..][1..] == p[5..];
    assert p[5..][1..] == p[6..] && p[6..][1..] == p[7..] && p[7..][1..] == [];
    assert Reduced(p[7..], a) == Step(p[7], a, Reduced([], a)) == Step(p[7], a, 0);
    assert Reduced(p[6..], a) == Step(p[6], a, Reduced(p[7..], a));
    assert Reduced(p[4..], a) == Step(p[4], a, Step(p[5], a, Reduced(p[6..], a)));
    assert Reduced(p[2..], a) == Step(p[2], a, Step(p[3], a, Reduced(p[4..], a)));
    assert Reduced(p[1..], a) == Step(p[1], a, Reduced(p[2..], a));
  }

  /** ... and nothing else is. */
  lemma ProductUnique(a: byte, b: byte, c: byte)
    requires Remainder(Times(BytePoly(b), BytePoly(a)), MODULUS, BytePoly(c))
    ensures c == Product(a, b)
  {
    ProductIs(a, b);
    var p := Times(BytePoly(b), BytePoly(a));
    hide Times, Product;
    RemainderUnique(p, MODULUS, BytePoly(c), BytePoly(Product(a, b)));
    forall i ensures BitAt(c, i) == BitAt(Product(a, b), i) {
      ByteCoef(c, i);
      ByteCoef(Product(a, b), i);
      assert Coef(BytePoly(c), i) == Coef(BytePoly(Product(a, b)), i);
    }
    hide BitAt, BytePoly;
    SameBits(c, Product(a, b));
  }

  // ----- the products of the program -----

  /** xtime, the sum of terms in inv_mix_columns, and the round constants. */
  lemma XtimeIs(a: byte)
    ensures Xtime(a) == Product(a, 0x02)
  {
    XtimeZero();
    XorSelf(a, 0);
    XorSelf(0, 0);
    ZeroXor(Xtime(a));
    hide Xor, Xtime;
  }

  lemma XtimeZero()
    ensures Xtime(0) == 0 && Xor(0, 0) == 0
  {
  }

  lemma ZeroXor(a: byte)
    ensures Xor(0, a) == a && Xor(a, 0) == a
  {
  }

  lemma MultiplesAre(a: byte)
    ensures Product(a, 0x01) == a && Product(a, 0x03) == Xor(a, Xtime(a))
    ensures Times9(a) == Product(a, 0x09) && TimesB(a) == Product(a, 0x0b)
  {
    var x := Xtime(a);
    XtimeZero();
    ZeroXor(a);
    ZeroXor(x);
    ZeroXor(Xtime(x));
    ZeroXor(Xtime(Xtime(x)));
    XtimeXor(a, Xtime(x));
    XtimeXor(a, x);
    XorAssoc(a, x, Xtime(Xtime(x)));
    BitsOfFew();
    hide Xor, Xtime, BitAt;
    assert Product(a, 0x0b) == Xor(a, Xtime(Xor(a, Xtime(Xtime(a)))));
  }

  lemma BitsOfFew()
    ensures forall i :: BitAt(0x01, i) == (i == 0) && BitAt(0x03, i) == (i == 0 || i == 1)
    ensures forall i :: BitAt(0x09, i) == (i == 0 || i == 3) && BitAt(0x0b, i) == (i == 0 || i == 1 || i == 3)
    ensures forall i :: BitAt(0x0d, i) == (i == 0 || i == 2 || i == 3) && BitAt(0x0e, i) == (i == 1 || i == 2 || i == 3)
  {
  }

  lemma MoreMultiples(a: byte)
    ensures TimesD(a) == Product(a, 0x0d) && TimesE(a) == Product(a, 0x0e)
  {
    var x := Xtime(a);
    XtimeZero();
    ZeroXor(a);
    ZeroXor(x);
    ZeroXor(Xtime(x));
    ZeroXor(Xtime(Xtime(x)));
    ZeroXor(Xtime(Xor(a, x)));
    ZeroXor(Xtime(Xor(a, Xtime(Xor(a, x)))));
    XtimeXor(a, x);
    XtimeXor(a, Xor(x, Xtime(x)));
    XtimeXor(x, Xtime(x));
    XorAssoc(a, Xtime(x), Xtime(Xtime(x)));
    XorAssoc(x, Xtime(x), Xtime(Xtime(x)));
    XtimeXor(Xtime(x), x);
    BitsOfFew();
    hide Xor, Xtime, BitAt;
    assert Product(a, 0x0d) == Xor(a, Xtime(Xtime(Xor(a, Xtime(a)))));
    assert Product(a, 0x0e) == Xtime(Xor(a, Xtime(Xor(a, Xtime(a)))));
  }

  // ----- columns -----

  /** A column as a polynomial with coefficients in the field, times another one,
      modulo x^4 + 1: the coefficients whose places add up to k, or to k + 4. */
  function ColumnProduct(p: seq<byte>, s: seq<byte>, k: int): byte
    requires |p| == |s| == 4 && 0 <= k < 4
  {
    Xor(Xor(Product(s[k], p[0]), Product(s[(k + 3) % 4], p[1])), Xor(Product(s[(k + 2) % 4], p[2]), Product(s[(k + 1) % 4], p[3])))
  }

  /** {03}x^3 + {01}x^2 + {01}x + {02}, and its inverse {0b}x^3 + {0d}x^2 + {09}x + {0e}. */
  const MIXER: seq<byte> := [0x02, 0x01, 0x01, 0x03]
  const UNMIXER: seq<byte> := [0x0e, 0x09, 0x0d, 0x0b]

  lemma MixIs(s: seq<byte>, k: int)
    requires |s| == 4 && 0 <= k < 4
    ensures Mix(s[k], s[(k + 1) % 4], s[(k + 2) % 4], s[(k + 3) % 4]) == ColumnProduct(MIXER, s, k)
  {
    var a, b, c, d := s[k], s[(k + 1) % 4], s[(k + 2) % 4], s[(k + 3) % 4];
    XtimeIs(a);
    MultiplesAre(b);
    MultiplesAre(c);
    MultiplesAre(d);
    assert ColumnProduct(MIXER, s, k) == Xor(Xor(Xtime(a), d), Xor(c, Xor(b, Xtime(b))));
    hide Product, ColumnProduct;
    MixSorted(a, b, c, d);
  }

  lemma MixSorted(a: byte, b: byte, c: byte, d: byte)
    ensures Mix(a, b, c, d) == Xor(Xor(Xtime(a), d), Xor(c, Xor(b, Xtime(b))))
  {
    XtimeXor(a, b);
    hide Xtime;
    XorSorted(a, b, c, d, Xtime(a), Xtime(b));
  }

  lemma XorSorted(a: byte, b: byte, c: byte, d: byte, x: byte, y: byte)
    ensures Xor(a, Xor(Xor(x, y), Xor(Xor(a, b), Xor(c, d)))) == Xor(Xor(x, d), Xor(c, Xor(b, y)))
  {
    XorAssoc(a, b, Xor(c, d));
    XorTwice(a, Xor(x, y), Xor(b, Xor(c, d)));
    XorTurned(b, c, d);
    XorTurned(y, c, b);
    XorComm(y, b);
    hide Xor;
    Swap(x, y, d, Xor(c, b));
  }

  lemma XorTwice(a: byte, u: byte, w: byte)
    ensures Xor(a, Xor(u, Xor(a, w))) == Xor(u, w)
  {
  }

  lemma XorTurned(b: byte, c: byte, d: byte)
    ensures Xor(b, Xor(c, d)) == Xor(d, Xor(c, b)) && Xor(b, Xor(c, d)) == Xor(c, Xor(d, b))
  {
    XorAssoc(b, c, d);
    XorAssoc(c, d, b);
    XorComm(Xor(b, c), d);
    XorComm(b, c);
    XorComm(Xor(c, d), b);
    hide Xor;
  }

  lemma UnmixIs(s: seq<byte>, k: int)
    requires |s| == 4 && 0 <= k < 4
    ensures Unmix(s[k], s[(k + 1) % 4], s[(k + 2) % 4], s[(k + 3) % 4]) == ColumnProduct(UNMIXER, s, k)
  {
    var a, b, c, d := s[k], s[(k + 1) % 4], s[(k + 2) % 4], s[(k + 3) % 4];
    MoreMultiples(a);
    MultiplesAre(b);
    MoreMultiples(c);
    MultiplesAre(d);
    hide Product, TimesE, TimesB, TimesD, Times9;
    UnmixSorted(TimesE(a), TimesB(b), TimesD(c), Times9(d));
  }

  lemma UnmixSorted(a: byte, b: byte, c: byte, d: byte)
    ensures Xor(Xor(a, b), Xor(c, d)) == Xor(Xor(a, d), Xor(c, b))
  {
  }

  // ----- substitution -----

  /** The affine map of section 5.1.1 of FIPS 197. */
  function Affine(b: byte): byte {
    b ^ Rotl(b, 1) ^ Rotl(b, 2) ^ Rotl(b, 3) ^ Rotl(b, 4) ^ 0x63
  }

  function Rotl(b: byte, n: nat): byte
    requires 0 < n < 8
  {
    (b << n) | (b >> (8 - n))
  }

  /** ... bit by bit: the sum of five bits of b and one of {63}. */
  lemma AffineAt(b: byte, i: int)
    requires 0 <= i < 8
    ensures BitAt(Affine(b), i) == (((((BitAt(b, i) != BitAt(b, (i + 4) % 8)) != BitAt(b, (i + 5) % 8))
      != BitAt(b, (i + 6) % 8)) != BitAt(b, (i + 7) % 8)) != BitAt(0x63, i))
  {
    LowAffine(b);
    HighAffine(b);
    hide Affine;
  }

  lemma LowAffine(b: byte)
    ensures var p, q, r, s := b & 0x10 != 0, b & 0x20 != 0, b & 0x40 != 0, b & 0x80 != 0;
      && (Affine(b) & 0x01 != 0) == !(((((b & 0x01 != 0) != p) != q) != r) != s)
      && (Affine(b) & 0x02 != 0) == !(((((b & 0x02 != 0) != q) != r) != s) != (b & 0x01 != 0))
      && (Affine(b) & 0x04 != 0) == (((((b & 0x04 != 0) != r) != s) != (b & 0x01 != 0)) != (b & 0x02 != 0))
      && (Affine(b) & 0x08 != 0) == (((((b & 0x08 != 0) != s) != (b & 0x01 != 0)) != (b & 0x02 != 0)) != (b & 0x04 != 0))
  {
  }

  lemma HighAffine(b: byte)
    ensures var p, q, r, s := b & 0x01 != 0, b & 0x02 != 0, b & 0x04 != 0, b & 0x08 != 0;
      && (Affine(b) & 0x10 != 0) == (((((b & 0x10 != 0) != p) != q) != r) != s)
      && (Affine(b) & 0x20 != 0) == !(((((b & 0x20 != 0) != q) != r) != s) != (b & 0x10 != 0))
      && (Affine(b) & 0x40 != 0) == !(((((b & 0x40 != 0) != r) != s) != (b & 0x10 != 0)) != (b & 0x20 != 0))
      && (Affine(b) & 0x80 != 0) == (((((b & 0x80 != 0) != s) != (b & 0x10 != 0)) != (b & 0x20 != 0)) != (b & 0x40 != 0))
  {
  }

  function Unaffine(b: byte): byte {
    Rotl(b, 1) ^ Rotl(b, 3) ^ Rotl(b, 6) ^ 0x05
  }

  lemma AffineUndone(b: byte)
    ensures Affine(Unaffine(b)) == b
  {
  }
}
