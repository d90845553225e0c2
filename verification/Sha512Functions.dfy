/**
 * The functions of section 4.1.3 of FIPS 180-4 (src/sha2.c), and what they do
 * to every bit.
 */
module Sha512Functions {
  type Word = bv64

  /** How far a word is shifted, and which bit of it is meant. */
  type Index = bv7

  function Ch(x: Word, y: Word, z: Word): Word {
    (x & y) ^ (!x & z)
  }

  function Maj(x: Word, y: Word, z: Word): Word {
    (x & y) ^ (x & z) ^ (y & z)
  }

  function Rotr(x: Word, n: Index): Word
    requires 0 < n < 64
  {
    (x >> n) | (x << (64 - n))
  }

  function Shr(x: Word, n: Index): Word
    requires 0 < n < 64
  {
    x >> n
  }

  function Xor(x: Word, y: Word): Word {
    x ^ y
  }

  function F1(x: Word): Word {
    Xor(Xor(Rotr(x, 28), Rotr(x, 34)), Rotr(x, 39))
  }

  function F2(x: Word): Word {
    Xor(Xor(Rotr(x, 14), Rotr(x, 18)), Rotr(x, 41))
  }

  function F3(x: Word): Word {
    Xor(Xor(Rotr(x, 1), Rotr(x, 8)), Shr(x, 7))
  }

  function F4(x: Word): Word {
    Xor(Xor(Rotr(x, 19), Rotr(x, 61)), Shr(x, 6))
  }

  // ----- bit by bit -----

  /** Where the bits of x are set Ch is y, elsewhere z. */
  lemma ChIs(x: Word, y: Word, z: Word)
    ensures Ch(x, y, z) & x == y & x && Ch(x, y, z) & !x == z & !x
  {
  }

  /** Where x and y agree Maj is what they are, elsewhere z. */
  lemma MajIs(x: Word, y: Word, z: Word)
    ensures Maj(x, y, z) & !(x ^ y) == x & !(x ^ y) && Maj(x, y, z) & (x ^ y) == z & (x ^ y)
  {
  }

  predicate BitAt(x: Word, i: Index)
    requires i < 64
  {
    (x >> i) & 1 == 1
  }

  lemma XorAt(x: Word, y: Word, i: Index)
    requires i < 64
    ensures BitAt(Xor(x, y), i) == (BitAt(x, i) != BitAt(y, i))
  {
    assert ((x ^ y) >> i) & 1 == 1 <==> (((x >> i) & 1 == 1) != ((y >> i) & 1 == 1));
  }

  /** F1 and F2, the upper case sigmas: three rotations. */
  lemma F1At(x: Word, i: Index)
    requires i < 64
    ensures BitAt(F1(x), i) == ((BitAt(x, (i + 28) % 64) != BitAt(x, (i + 34) % 64)) != BitAt(x, (i + 39) % 64))
  {
    hide BitAt, Rotr, Shr, Xor;
    XorAt(Xor(Rotr(x, 28), Rotr(x, 34)), Rotr(x, 39), i);
    XorAt(Rotr(x, 28), Rotr(x, 34), i);
    Rotr28At(x, i); Rotr34At(x, i); Rotr39At(x, i);
  }

  lemma F2At(x: Word, i: Index)
    requires i < 64
    ensures BitAt(F2(x), i) == ((BitAt(x, (i + 14) % 64) != BitAt(x, (i + 18) % 64)) != BitAt(x, (i + 41) % 64))
  {
    hide BitAt, Rotr, Shr, Xor;
    XorAt(Xor(Rotr(x, 14), Rotr(x, 18)), Rotr(x, 41), i);
    XorAt(Rotr(x, 14), Rotr(x, 18), i);
    Rotr14At(x, i); Rotr18At(x, i); Rotr41At(x, i);
  }

  /** F3 and F4, the lower case sigmas: two rotations and a shift. */
  lemma F3At(x: Word, i: Index)
    requires i < 64
    ensures BitAt(F3(x), i) == ((BitAt(x, (i + 1) % 64) != BitAt(x, (i + 8) % 64)) != (i < 57 && BitAt(x, i + 7)))
  {
    hide BitAt, Rotr, Shr, Xor;
    XorAt(Xor(Rotr(x, 1), Rotr(x, 8)), Shr(x, 7), i);
    XorAt(Rotr(x, 1), Rotr(x, 8), i);
    Rotr1At(x, i); Rotr8At(x, i); Shr7At(x, i);
  }

  lemma F4At(x: Word, i: Index)
    requires i < 64
    ensures BitAt(F4(x), i) == ((BitAt(x, (i + 19) % 64) != BitAt(x, (i + 61) % 64)) != (i < 58 && BitAt(x, i + 6)))
  {
    hide BitAt, Rotr, Shr, Xor;
    XorAt(Xor(Rotr(x, 19), Rotr(x, 61)), Shr(x, 6), i);
    XorAt(Rotr(x, 19), Rotr(x, 61), i);
    Rotr19At(x, i); Rotr61At(x, i); Shr6At(x, i);
  }

  lemma Shr7At(x: Word, i: Index)
    requires i < 64
    ensures BitAt(Shr(x, 7), i) == (i < 57 && BitAt(x, i + 7))
  {
  }

  lemma Shr6At(x: Word, i: Index)
    requires i < 64
    ensures BitAt(Shr(x, 6), i) == (i < 58 && BitAt(x, i + 6))
  {
  }

  lemma Rotr1At(x: Word, i: Index)
    requires i < 64
    ensures BitAt(Rotr(x, 1), i) == BitAt(x, (i + 1) % 64)
  {
  }

  lemma Rotr8At(x: Word, i: Index)
    requires i < 64
    ensures BitAt(Rotr(x, 8), i) == BitAt(x, (i + 8) % 64)
  {
  }

  lemma Rotr14At(x: Word, i: Index)
    requires i < 64
    ensures BitAt(Rotr(x, 14), i) == BitAt(x, (i + 14) % 64)
  {
  }

  lemma Rotr18At(x: Word, i: Index)
    requires i < 64
    ensures BitAt(Rotr(x, 18), i) == BitAt(x, (i + 18) % 64)
  {
  }

  lemma Rotr19At(x: Word, i: Index)
    requires i < 64
    ensures BitAt(Rotr(x, 19), i) == BitAt(x, (i + 19) % 64)
  {
  }

  lemma Rotr28At(x: Word, i: Index)
    requires i < 64
    ensures BitAt(Rotr(x, 28), i) == BitAt(x, (i + 28) % 64)
  {
  }

  lemma Rotr34At(x: Word, i: Index)
    requires i < 64
    ensures BitAt(Rotr(x, 34), i) == BitAt(x, (i + 34) % 64)
  {
  }

  lemma Rotr39At(x: Word, i: Index)
    requires i < 64
    ensures BitAt(Rotr(x, 39), i) == BitAt(x, (i + 39) % 64)
  {
  }

  lemma Rotr41At(x: Word, i: Index)
    requires i < 64
    ensures BitAt(Rotr(x, 41), i) == BitAt(x, (i + 41) % 64)
  {
  }

  lemma Rotr61At(x: Word, i: Index)
    requires i < 64
    ensures BitAt(Rotr(x, 61), i) == BitAt(x, (i + 61) % 64)
  {
  }
}
