/**
 * The functions of section 4.1.2 of FIPS 180-4 (src/sha2.c), and what they do
 * to every bit.
 */
module Sha256Functions {
  type Word = bv32

  /** How far a word is shifted, and which bit of it is meant. */
  type Index = bv6

  function Ch(x: Word, y: Word, z: Word): Word {
    (x & y) ^ (!x & z)
  }

  function Maj(x: Word, y: Word, z: Word): Word {
    (x & y) ^ (x & z) ^ (y & z)
  }

  function Rotr(x: Word, n: Index): Word
    requires 0 < n < 32
  {
    (x >> n) | (x << (32 - n))
  }

  function Shr(x: Word, n: Index): Word
    requires 0 < n < 32
  {
    x >> n
  }

  function Xor(x: Word, y: Word): Word {
    x ^ y
  }

  function F1(x: Word): Word {
    Xor(Xor(Rotr(x, 2), Rotr(x, 13)), Rotr(x, 22))
  }

  function F2(x: Word): Word {
    Xor(Xor(Rotr(x, 6), Rotr(x, 11)), Rotr(x, 25))
  }

  function F3(x: Word): Word {
    Xor(Xor(Rotr(x, 7), Rotr(x, 18)), Shr(x, 3))
  }

  function F4(x: Word): Word {
    Xor(Xor(Rotr(x, 17), Rotr(x, 19)), Shr(x, 10))
  }

  // ----- bit by bit -----

  /** Where the bits of x are set Ch is y, elsewhere z. */
  lemma ChIs(x: Word, y: Word, z: Word)
    ensures Ch(x, y, z) & x == y & x && Ch(x, y, z) & !x == z & !x
  {
  }

  /** Where x and y agree Maj is what they are, elsewhere z. */
  lemma MajIs(x: Word, y: Word, z: Word)
    ensures Maj(x, y, z) & !(x ^ y) == x & !(x ^ y) && Maj(x, y, z) & (x ^ y) == z & (x ^ y)
  {
  }

  predicate BitAt(x: Word, i: Index)
    requires i < 32
  {
    (x >> i) & 1 == 1
  }

  lemma XorAt(x: Word, y: Word, i: Index)
    requires i < 32
    ensures BitAt(Xor(x, y), i) == (BitAt(x, i) != BitAt(y, i))
  {
    assert ((x ^ y) >> i) & 1 == 1 <==> (((x >> i) & 1 == 1) != ((y >> i) & 1 == 1));
  }

  /** F1 and F2, the upper case sigmas: three rotations. */
  lemma F1At(x: Word, i: Index)
    requires i < 32
    ensures BitAt(F1(x), i) == ((BitAt(x, (i + 2) % 32) != BitAt(x, (i + 13) % 32)) != BitAt(x, (i + 22) % 32))
  {
    hide BitAt, Rotr, Shr, Xor;
    XorAt(Xor(Rotr(x, 2), Rotr(x, 13)), Rotr(x, 22), i);
    XorAt(Rotr(x, 2), Rotr(x, 13), i);
    Rotr2At(x, i); Rotr13At(x, i); Rotr22At(x, i);
  }

  lemma F2At(x: Word, i: Index)
    requires i < 32
    ensures BitAt(F2(x), i) == ((BitAt(x, (i + 6) % 32) != BitAt(x, (i + 11) % 32)) != BitAt(x, (i + 25) % 32))
  {
    hide BitAt, Rotr, Shr, Xor;
    XorAt(Xor(Rotr(x, 6), Rotr(x, 11)), Rotr(x, 25), i);
    XorAt(Rotr(x, 6), Rotr(x, 11), i);
    Rotr6At(x, i); Rotr11At(x, i); Rotr25At(x, i);
  }

  /** F3 and F4, the lower case sigmas: two rotations and a shift. */
  lemma F3At(x: Word, i: Index)
    requires i < 32
    ensures BitAt(F3(x), i) == ((BitAt(x, (i + 7) % 32) != BitAt(x, (i + 18) % 32)) != (i < 29 && BitAt(x, i + 3)))
  {
    hide BitAt, Rotr, Shr, Xor;
    XorAt(Xor(Rotr(x, 7), Rotr(x, 18)), Shr(x, 3), i);
    XorAt(Rotr(x, 7), Rotr(x, 18), i);
    Rotr7At(x, i); Rotr18At(x, i); Shr3At(x, i);
  }

  lemma F4At(x: Word, i: Index)
    requires i < 32
    ensures BitAt(F4(x), i) == ((BitAt(x, (i + 17) % 32) != BitAt(x, (i + 19) % 32)) != (i < 22 && BitAt(x, i + 10)))
  {
    hide BitAt, Rotr, Shr, Xor;
    XorAt(Xor(Rotr(x, 17), Rotr(x, 19)), Shr(x, 10), i);
    XorAt(Rotr(x, 17), Rotr(x, 19), i);
    Rotr17At(x, i); Rotr19At(x, i); Shr10At(x, i);
  }

  lemma Shr10At(x: Word, i: Index)
    requires i < 32
    ensures BitAt(Shr(x, 10), i) == (i < 22 && BitAt(x, i + 10))
  {
  }

  lemma Shr3At(x: Word, i: Index)
    requires i < 32
    ensures BitAt(Shr(x, 3), i) == (i < 29 && BitAt(x, i + 3))
  {
  }

  lemma Rotr2At(x: Word, i: Index)
    requires i < 32
    ensures BitAt(Rotr(x, 2), i) == BitAt(x, (i + 2) % 32)
  {
  }

  lemma Rotr6At(x: Word, i: Index)
    requires i < 32
    ensures BitAt(Rotr(x, 6), i) == BitAt(x, (i + 6) % 32)
  {
  }

  lemma Rotr7At(x: Word, i: Index)
    requires i < 32
    ensures BitAt(Rotr(x, 7), i) == BitAt(x, (i + 7) % 32)
  {
  }

  lemma Rotr11At(x: Word, i: Index)
    requires i < 32
    ensures BitAt(Rotr(x, 11), i) == BitAt(x, (i + 11) % 32)
  {
  }

  lemma Rotr13At(x: Word, i: Index)
    requires i < 32
    ensures BitAt(Rotr(x, 13), i) == BitAt(x, (i + 13) % 32)
  {
  }

  lemma Rotr17At(x: Word, i: Index)
    requires i < 32
    ensures BitAt(Rotr(x, 17), i) == BitAt(x, (i + 17) % 32)
  {
  }

  lemma Rotr18At(x: Word, i: Index)
    requires i < 32
    ensures BitAt(Rotr(x, 18), i) == BitAt(x, (i + 18) % 32)
  {
  }

  lemma Rotr19At(x: Word, i: Index)
    requires i < 32
    ensures BitAt(Rotr(x, 19), i) == BitAt(x, (i + 19) % 32)
  {
  }

  lemma Rotr22At(x: Word, i: Index)
    requires i < 32
    ensures BitAt(Rotr(x, 22), i) == BitAt(x, (i + 22) % 32)
  {
  }

  lemma Rotr25At(x: Word, i: Index)
    requires i < 32
    ensures BitAt(Rotr(x, 25), i) == BitAt(x, (i + 25) % 32)
  {
  }
}
