/**
 * The substitution table of AES is what section 5.1.1 of FIPS 197 says: the inverse
 * in the field, followed by the affine map.
 */
module AesSubstitution {
  import opened Bytes
  import opened AesTables
  import opened AesGalois

  predicate Inverses(x: byte, y: byte) {
    if x == 0 then y == 0 else Product(x, y) == 1
  }

  lemma FirstLow(x: byte)
    requires 0x00 <= x <= 0x07
    ensures Inverses(x, Unaffine(SboxRow0(x)))
  {
  }

  lemma FirstHigh(x: byte)
    requires 0x08 <= x <= 0x0f
    ensures Inverses(x, Unaffine(SboxRow0(x)))
  {
  }

  lemma SecondLow(x: byte)
    requires 0x10 <= x <= 0x17
    ensures Inverses(x, Unaffine(SboxRow1(x)))
  {
  }

  lemma SecondHigh(x: byte)
    requires 0x18 <= x <= 0x1f
    ensures Inverses(x, Unaffine(SboxRow1(x)))
  {
  }

  lemma ThirdLow(x: byte)
    requires 0x20 <= x <= 0x27
    ensures Inverses(x, Unaffine(SboxRow2(x)))
  {
  }

  lemma ThirdHigh(x: byte)
    requires 0x28 <= x <= 0x2f
    ensures Inverses(x, Unaffine(SboxRow2(x)))
  {
  }

  lemma FourthLow(x: byte)
    requires 0x30 <= x <= 0x37
    ensures Inverses(x, Unaffine(SboxRow3(x)))
  {
  }

  lemma FourthHigh(x: byte)
    requires 0x38 <= x <= 0x3f
    ensures Inverses(x, Unaffine(SboxRow3(x)))
  {
  }

  lemma FifthLow(x: byte)
    requires 0x40 <= x <= 0x47
    ensures Inverses(x, Unaffine(SboxRow4(x)))
  {
  }

  lemma FifthHigh(x: byte)
    requires 0x48 <= x <= 0x4f
    ensures Inverses(x, Unaffine(SboxRow4(x)))
  {
  }

  lemma SixthLow(x: byte)
    requires 0x50 <= x <= 0x57
    ensures Inverses(x, Unaffine(SboxRow5(x)))
  {
  }

  lemma SixthHigh(x: byte)
    requires 0x58 <= x <= 0x5f
    ensures Inverses(x, Unaffine(SboxRow5(x)))
  {
  }

  lemma SeventhLow(x: byte)
    requires 0x60 <= x <= 0x67
    ensures Inverses(x, Unaffine(SboxRow6(x)))
  {
  }

  lemma SeventhHigh(x: byte)
    requires 0x68 <= x <= 0x6f
    ensures Inverses(x, Unaffine(SboxRow6(x)))
  {
  }

  lemma EighthLow(x: byte)
    requires 0x70 <= x <= 0x77
    ensures Inverses(x, Unaffine(SboxRow7(x)))
  {
  }

  lemma EighthHigh(x: byte)
    requires 0x78 <= x <= 0x7f
    ensures Inverses(x, Unaffine(SboxRow7(x)))
  {
  }

  lemma NinthLow(x: byte)
    requires 0x80 <= x <= 0x87
    ensures Inverses(x, Unaffine(SboxRow8(x)))
  {
  }

  lemma NinthHigh(x: byte)
    requires 0x88 <= x <= 0x8f
    ensures Inverses(x, Unaffine(SboxRow8(x)))
  {
  }

  lemma TenthLow(x: byte)
    requires 0x90 <= x <= 0x97
    ensures Inverses(x, Unaffine(SboxRow9(x)))
  {
  }

  lemma TenthHigh(x: byte)
    requires 0x98 <= x <= 0x9f
    ensures Inverses(x, Unaffine(SboxRow9(x)))
  {
  }

  lemma EleventhLow(x: byte)
    requires 0xa0 <= x <= 0xa7
    ensures Inverses(x, Unaffine(SboxRow10(x)))
  {
  }

  lemma EleventhHigh(x: byte)
    requires 0xa8 <= x <= 0xaf
    ensures Inverses(x, Unaffine(SboxRow10(x)))
  {
  }

  lemma TwelfthLow(x: byte)
    requires 0xb0 <= x <= 0xb7
    ensures Inverses(x, Unaffine(SboxRow11(x)))
  {
  }

  lemma TwelfthHigh(x: byte)
    requires 0xb8 <= x <= 0xbf
    ensures Inverses(x, Unaffine(SboxRow11(x)))
  {
  }

  lemma ThirteenthLow(x: byte)
    requires 0xc0 <= x <= 0xc7
    ensures Inverses(x, Unaffine(SboxRow12(x)))
  {
  }

  lemma ThirteenthHigh(x: byte)
    requires 0xc8 <= x <= 0xcf
    ensures Inverses(x, Unaffine(SboxRow12(x)))
  {
  }

  lemma FourteenthLow(x: byte)
    requires 0xd0 <= x <= 0xd7
    ensures Inverses(x, Unaffine(SboxRow13(x)))
  {
  }

  lemma FourteenthHigh(x: byte)
    requires 0xd8 <= x <= 0xdf
    ensures Inverses(x, Unaffine(SboxRow13(x)))
  {
  }

  lemma FifteenthLow(x: byte)
    requires 0xe0 <= x <= 0xe7
    ensures Inverses(x, Unaffine(SboxRow14(x)))
  {
  }

  lemma FifteenthHigh(x: byte)
    requires 0xe8 <= x <= 0xef
    ensures Inverses(x, Unaffine(SboxRow14(x)))
  {
  }

  lemma SixteenthLow(x: byte)
    requires 0xf0 <= x <= 0xf7
    ensures Inverses(x, Unaffine(SboxRow15(x)))
  {
  }

  lemma SixteenthHigh(x: byte)
    requires 0xf8 <= x <= 0xff
    ensures Inverses(x, Unaffine(SboxRow15(x)))
  {
  }

  /** sbox, for every byte. */
  lemma SboxIs(x: byte) returns (y: byte)
    ensures Inverses(x, y) && Sbox(x) == Affine(y)
  {
    hide Product, Affine, Unaffine, Inverses;
    hide SboxRow0, SboxRow1, SboxRow2, SboxRow3, SboxRow4, SboxRow5, SboxRow6, SboxRow7, SboxRow8, SboxRow9, SboxRow10, SboxRow11, SboxRow12, SboxRow13, SboxRow14, SboxRow15;
    y := Unaffine(Sbox(x));
    AffineUndone(Sbox(x));
    if x < 0x80 {
      LowerHalf(x);
    } else {
      UpperHalf(x);
    }
  }

  lemma LowerHalf(x: byte)
    requires x < 0x80
    ensures Inverses(x, Unaffine(Sbox(x)))
  {
    hide Product, Unaffine, Inverses;
    hide SboxRow0, SboxRow1, SboxRow2, SboxRow3, SboxRow4, SboxRow5, SboxRow6, SboxRow7, SboxRow8, SboxRow9, SboxRow10, SboxRow11, SboxRow12, SboxRow13, SboxRow14, SboxRow15;
    if x <= 0x07 {
      FirstLow(x);
    } else if x <= 0x0f {
      FirstHigh(x);
    } else if x <= 0x17 {
      SecondLow(x);
    } else if x <= 0x1f {
      SecondHigh(x);
    } else if x <= 0x27 {
      ThirdLow(x);
    } else if x <= 0x2f {
      ThirdHigh(x);
    } else if x <= 0x37 {
      FourthLow(x);
    } else if x <= 0x3f {
      FourthHigh(x);
    } else if x <= 0x47 {
      FifthLow(x);
    } else if x <= 0x4f {
      FifthHigh(x);
    } else if x <= 0x57 {
      SixthLow(x);
    } else if x <= 0x5f {
      SixthHigh(x);
    } else if x <= 0x67 {
      SeventhLow(x);
    } else if x <= 0x6f {
      SeventhHigh(x);
    } else if x <= 0x77 {
      EighthLow(x);
    } else {
      EighthHigh(x);
    }
  }

  lemma UpperHalf(x: byte)
    requires 0x80 <= x
    ensures Inverses(x, Unaffine(Sbox(x)))
  {
    hide Product, Unaffine, Inverses;
    hide SboxRow0, SboxRow1, SboxRow2, SboxRow3, SboxRow4, SboxRow5, SboxRow6, SboxRow7, SboxRow8, SboxRow9, SboxRow10, SboxRow11, SboxRow12, SboxRow13, SboxRow14, SboxRow15;
    if x <= 0x87 {
      NinthLow(x);
    } else if x <= 0x8f {
      NinthHigh(x);
    } else if x <= 0x97 {
      TenthLow(x);
    } else if x <= 0x9f {
      TenthHigh(x);
    } else if x <= 0xa7 {
      EleventhLow(x);
    } else if x <= 0xaf {
      EleventhHigh(x);
    } else if x <= 0xb7 {
      TwelfthLow(x);
    } else if x <= 0xbf {
      TwelfthHigh(x);
    } else if x <= 0xc7 {
      ThirteenthLow(x);
    } else if x <= 0xcf {
      ThirteenthHigh(x);
    } else if x <= 0xd7 {
      FourteenthLow(x);
    } else if x <= 0xdf {
      FourteenthHigh(x);
    } else if x <= 0xe7 {
      FifteenthLow(x);
    } else if x <= 0xef {
      FifteenthHigh(x);
    } else if x <= 0xf7 {
      SixteenthLow(x);
    } else {
      SixteenthHigh(x);
    }
  }
}
