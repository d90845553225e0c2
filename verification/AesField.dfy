/**
 * Columns of the AES state over GF(2^8) (src/aes.c; sections 4.2 and 5.1.3 of
 * FIPS 197): mixing a column and unmixing it.
 */
module AesField {
  import opened Bytes

  function Xor(x: byte, y: byte): byte {
    x ^ y
  }

  predicate Top(x: byte) {
    x & 0x80 != 0
  }

  function Shl(x: byte): byte {
    x << 1
  }

  /** xtime: multiplication by x, reduced by the polynomial when the top bit is
      shifted out. */
  function Xtime(x: byte): byte {
    if Top(x) then Xor(Shl(x), 0x1b) else Shl(x)
  }

  lemma XorShl(x: byte, y: byte)
    ensures Shl(Xor(x, y)) == Xor(Shl(x), Shl(y))
  {
  }

  lemma XorTop(x: byte, y: byte)
    ensures Top(Xor(x, y)) <==> Top(x) != Top(y)
  {
  }

  lemma XorAssoc(x: byte, y: byte, z: byte)
    ensures Xor(Xor(x, y), z) == Xor(x, Xor(y, z))
  {
  }

  lemma XorComm(x: byte, y: byte)
    ensures Xor(x, y) == Xor(y, x)
  {
  }

  lemma XorSelf(x: byte, y: byte)
    ensures Xor(x, x) == 0 && Xor(x, 0) == x && Xor(x, Xor(x, y)) == y
  {
  }

  lemma XorBoth(x: byte, y: byte, p: byte)
    ensures Xor(Xor(x, p), Xor(y, p)) == Xor(x, y)
    ensures Xor(Xor(x, p), y) == Xor(Xor(x, y), p) && Xor(x, Xor(y, p)) == Xor(Xor(x, y), p)
  {
  }

  /** MULTIPLY by a constant below 16: one term for each of its bits. */
  function Times9(x: byte): byte {
    Xor(x, Xtime(Xtime(Xtime(x))))
  }

  function TimesB(x: byte): byte {
    Xor(Xor(x, Xtime(x)), Xtime(Xtime(Xtime(x))))
  }

  function TimesD(x: byte): byte {
    Xor(Xor(x, Xtime(Xtime(x))), Xtime(Xtime(Xtime(x))))
  }

  function TimesE(x: byte): byte {
    Xor(Xor(Xtime(x), Xtime(Xtime(x))), Xtime(Xtime(Xtime(x))))
  }

  lemma XtimeXor(x: byte, y: byte)
    ensures Xtime(Xor(x, y)) == Xor(Xtime(x), Xtime(y))
  {
    XorShl(x, y);
    XorTop(x, y);
    XorBoth(Shl(x), Shl(y), 0x1b);
    hide Top, Shl, Xor;
  }

  lemma Swap(a: byte, b: byte, c: byte, d: byte)
    ensures Xor(Xor(a, b), Xor(c, d)) == Xor(Xor(a, c), Xor(b, d))
  {
    hide Xor;
    XorAssoc(a, b, Xor(c, d));
    XorAssoc(b, c, d);
    XorComm(b, c);
    XorAssoc(c, b, d);
    XorAssoc(a, c, Xor(b, d));
  }

  lemma Cancel(a: byte, b: byte, c: byte)
    ensures Xor(Xor(a, b), Xor(b, c)) == Xor(a, c) && Xor(Xor(a, b), Xor(a, c)) == Xor(b, c)
    ensures Xor(Xor(a, b), b) == a && Xor(Xor(a, b), a) == b
  {
  }

  /** mix_columns: a byte of the new column from the old one, starting at it. */
  function Mix(a: byte, b: byte, c: byte, d: byte): byte {
    Xor(a, Xor(Xtime(Xor(a, b)), Sum(a, b, c, d)))
  }

  function Sum(a: byte, b: byte, c: byte, d: byte): byte {
    Xor(Xor(a, b), Xor(c, d))
  }

  /** inv_mix_columns, likewise. */
  function Unmix(a: byte, b: byte, c: byte, d: byte): byte {
    Xor(Xor(TimesE(a), TimesB(b)), Xor(TimesD(c), Times9(d)))
  }

  lemma SumTurns(a: byte, b: byte, c: byte, d: byte)
    ensures Sum(b, c, d, a) == Sum(a, b, c, d)
  {
    hide Xor;
    XorComm(d, a);
    Swap(b, c, a, d);
    XorComm(b, a);
  }

  /** Unmixing, sorted by powers of x. */
  lemma UnmixIs(a: byte, b: byte, c: byte, d: byte)
    ensures Unmix(a, b, c, d)
         == Xor(Xor(Xtime(Xor(a, b)), Xor(Xtime(Xtime(Xor(a, c))), Xor(b, Xor(c, d)))), Xtime(Xtime(Xtime(Sum(a, b, c, d)))))
  {
    hide Xor, Xtime;
    var xa, xb, ya, yc := Xtime(a), Xtime(b), Xtime(Xtime(a)), Xtime(Xtime(c));
    var za, zb, zc, zd := Xtime(ya), Xtime(Xtime(xb)), Xtime(yc), Xtime(Xtime(Xtime(d)));
    Swap(Xor(xa, ya), za, Xor(b, xb), zb);
    Swap(Xor(c, yc), zc, d, zd);
    Swap(Xor(Xor(xa, ya), Xor(b, xb)), Xor(za, zb), Xor(Xor(c, yc), d), Xor(zc, zd));
    LowTerms(xa, ya, b, xb, c, yc, d);
    XtimeXor(a, b);
    XtimeXor(a, c);
    XtimeXor(Xtime(a), Xtime(c));
    XtimeSum(a, b, c, d);
    XtimeSum(xa, xb, Xtime(c), Xtime(d));
    XtimeSum(ya, Xtime(xb), yc, Xtime(Xtime(d)));
  }

  lemma LowTerms(xa: byte, ya: byte, b: byte, xb: byte, c: byte, yc: byte, d: byte)
    ensures Xor(Xor(Xor(xa, ya), Xor(b, xb)), Xor(Xor(c, yc), d)) == Xor(Xor(xa, xb), Xor(Xor(ya, yc), Xor(b, Xor(c, d))))
  {
    hide Xor;
    XorComm(b, xb);
    Swap(xa, ya, xb, b);
    XorComm(c, yc);
    XorAssoc(yc, c, d);
    XorAssoc(Xor(xa, xb), Xor(ya, b), Xor(yc, Xor(c, d)));
    Swap(ya, b, yc, Xor(c, d));
  }

  lemma XtimeSum(a: byte, b: byte, c: byte, d: byte)
    ensures Xtime(Sum(a, b, c, d)) == Sum(Xtime(a), Xtime(b), Xtime(c), Xtime(d))
  {
    hide Xtime, Xor;
    XtimeXor(Xor(a, b), Xor(c, d));
    XtimeXor(a, b);
    XtimeXor(c, d);
  }

  /** The sum of two neighbours and of two opposite bytes of a mixed column. */
  lemma MixSums(a: byte, b: byte, c: byte, d: byte)
    ensures Xor(Mix(a, b, c, d), Mix(b, c, d, a)) == Xor(Xor(a, b), Xtime(Xor(a, c)))
    ensures Xor(Mix(a, b, c, d), Mix(c, d, a, b)) == Xor(Xor(a, c), Xtime(Sum(a, b, c, d)))
  {
    hide Xor, Xtime, Sum;
    var s := Sum(a, b, c, d);
    SumTurns(a, b, c, d);
    SumTurns(b, c, d, a);
    var p, q, r := Xtime(Xor(a, b)), Xtime(Xor(b, c)), Xtime(Xor(c, d));
    Swap(a, Xor(p, s), b, Xor(q, s));
    Swap(p, s, q, s);
    Swap(a, Xor(p, s), c, Xor(r, s));
    Swap(p, s, r, s);
    XorSelf(s, s);
    XorSelf(Xor(p, q), s);
    XorSelf(Xor(p, r), s);
    XtimeXor(Xor(a, b), Xor(b, c));
    XtimeXor(Xor(a, b), Xor(c, d));
    Cancel(a, b, c);
    SumIs(a, b, c, d);
  }

  lemma SumIs(a: byte, b: byte, c: byte, d: byte)
    ensures Sum(a, b, c, d) == Xor(Xor(a, b), Xor(c, d))
  {
  }

  /** Mixing keeps the sum of a column. */
  lemma MixSum(a: byte, b: byte, c: byte, d: byte)
    ensures Sum(Mix(a, b, c, d), Mix(b, c, d, a), Mix(c, d, a, b), Mix(d, a, b, c)) == Sum(a, b, c, d)
  {
    MixSums(a, b, c, d);
    MixSums(c, d, a, b);
    hide Xor, Xtime, Mix;
    Swap(Xor(a, b), Xtime(Xor(a, c)), Xor(c, d), Xtime(Xor(c, a)));
    XorComm(a, c);
    XorSelf(Xtime(Xor(a, c)), 0);
    XorSelf(Xor(Xor(a, b), Xor(c, d)), 0);
  }

  /** inv_mix_columns undoes mix_columns, byte by byte. */
  lemma UnmixMix(a: byte, b: byte, c: byte, d: byte)
    ensures Unmix(Mix(a, b, c, d), Mix(b, c, d, a), Mix(c, d, a, b), Mix(d, a, b, c)) == a
  {
    var m0, m1, m2, m3 := Mix(a, b, c, d), Mix(b, c, d, a), Mix(c, d, a, b), Mix(d, a, b, c);
    var s, u, v := Sum(a, b, c, d), Xor(a, b), Xor(a, c);
    UnmixIs(m0, m1, m2, m3);
    MixSums(a, b, c, d);
    MixSum(a, b, c, d);
    LastThree(m0, m1, m2, m3);
    SumIs(m0, m1, m2, m3);
    hide Xor, Xtime, Unmix, Sum;
    XtimeXor(u, Xtime(v));
    XtimeXor(v, Xtime(s));
    XtimeXor(Xtime(v), Xtime(Xtime(s)));
    MixUnfolded(a, b, c, d);
    Collapse(a, Xtime(u), Xtime(Xtime(v)), Xtime(Xtime(Xtime(s))), s);
  }

  lemma LastThree(a: byte, b: byte, c: byte, d: byte)
    ensures Xor(b, Xor(c, d)) == Xor(Sum(a, b, c, d), a)
  {
  }

  lemma MixUnfolded(a: byte, b: byte, c: byte, d: byte)
    ensures Mix(a, b, c, d) == Xor(a, Xor(Xtime(Xor(a, b)), Sum(a, b, c, d)))
  {
  }

  lemma Collapse(a: byte, p: byte, q: byte, z: byte, s: byte)
    ensures Xor(Xor(Xor(p, q), Xor(Xor(q, z), Xor(s, Xor(a, Xor(p, s))))), z) == a
  {
  }
}
