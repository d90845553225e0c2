/**
 * Eight bytes at a time (src/crc64.c): crc64_little and crc64_big compute the
 * same checksum from words loaded in their own byte order.
 */
module CrcSlicing {
  import opened CrcAlgebra
  import opened Crc

  // ----- words in memory -----

  /** A word whose least significant byte is b, above it w. */
  function Join(b: Byte, w: Word): Word {
    b | (w << 8)
  }

  /** A 64-bit load on a little-endian machine: the first byte is the lowest. */
  function LoadLittle(s: seq<Byte>): Word {
    if s == [] then 0 else Join(s[0], LoadLittle(s[1..]))
  }

  /** ... and on a big-endian machine: the last byte is the lowest. */
  function LoadBig(s: seq<Byte>): Word {
    if s == [] then 0 else Join(s[|s| - 1], LoadBig(s[..|s| - 1]))
  }

  function ShrBytes(w: Word, k: nat): Word
    decreases k
  {
    if k == 0 then w else ShrBytes(Shr8(w), k - 1)
  }

  lemma JoinIsXor(b: Word, w: Word)
    requires Low8(b) == b
    ensures Join(b, w) == Xor(b, Shl8(w))
  {
  }

  lemma JoinDown(b: Word, w: Word)
    requires Low8(b) == b && Room8(w)
    ensures Shr8(Join(b, w)) == w && Low8(Join(b, w)) == b
  {
  }

  lemma SevenBytes(w: Word)
    requires ShrBytes(w, 7) == 0
    ensures Room8(w)
  {
    SevenShifts(w);
    hide Shr8, Room8;
    assert ShrBytes(w, 7) == ShrBytes(Shr8(Shr8(Shr8(Shr8(w)))), 3);
  }

  lemma SevenShifts(w: Word)
    requires Shr8(Shr8(Shr8(Shr8(Shr8(Shr8(Shr8(w))))))) == 0
    ensures Room8(w)
  {
  }

  lemma {:induction false} ShrBytesZero(k: nat)
    ensures ShrBytes(0, k) == 0
  {
    if k > 0 {
      assert Shr8(0) == 0;
      ShrBytesZero(k - 1);
    }
  }

  lemma {:induction false} ShrBytesPlus(w: Word, m: nat, n: nat)
    ensures ShrBytes(w, m + n) == ShrBytes(ShrBytes(w, m), n)
    decreases m
  {
    hide Shr8;
    if m > 0 {
      ShrBytesPlus(Shr8(w), m - 1, n);
    }
  }

  lemma {:induction false} LoadFits(s: seq<Byte>)
    requires |s| <= 8
    ensures ShrBytes(LoadLittle(s), |s|) == 0
    ensures |s| < 8 ==> Room8(LoadLittle(s))
    decreases |s|
  {
    hide Shr8, Join, Room8;
    if s != [] {
      LoadFits(s[1..]);
      JoinDown(s[0], LoadLittle(s[1..]));
    }
    if |s| < 8 {
      ShrBytesPlus(LoadLittle(s), |s|, 7 - |s|);
      ShrBytesZero(7 - |s|);
      SevenBytes(LoadLittle(s));
    }
  }

  /** Taking in a word is taking in its bytes. */
  lemma {:induction false} FeedWord(c: Word, s: seq<Byte>)
    requires |s| <= 8
    ensures Feed(c, s) == Bits(Xor(c, LoadLittle(s)), 8 * |s|)
    decreases |s|
  {
    hide Bits, Xor, Join, Room8, Shl8;
    if s == [] {
      XorSelf(c);
      NoBits(c);
    } else {
      var w := LoadLittle(s[1..]);
      LoadFits(s[1..]);
      FeedWord(Bits(Xor(c, s[0]), 8), s[1..]);
      JoinIsXor(s[0], w);
      XorAssoc(c, s[0], Shl8(w));
      BitsPlus(Xor(c, LoadLittle(s)), 8, 8 * |s[1..]|);
      BitsLinear(Xor(c, s[0]), Shl8(w), 8);
      BitsUp8(w);
    }
  }

  lemma EightShifts(w: Word)
    ensures ShrBytes(w, 8) == 0
  {
    ShiftedOut(w);
    hide Shr8;
    assert ShrBytes(w, 8) == ShrBytes(Shr8(Shr8(Shr8(Shr8(w)))), 4);
  }

  /** Sixty-four bits through the register, by the bytes of the word from the
      lowest up. */
  function Slice(w: Word, k: nat): Word
    decreases k
  {
    if k == 0 then 0 else Xor(Bits(Low8(w), 8 * k), Slice(Shr8(w), k - 1))
  }

  lemma {:induction false} SliceIs(w: Word, k: nat)
    requires ShrBytes(w, k) == 0
    ensures Slice(w, k) == Bits(w, 8 * k)
    decreases k
  {
    hide Bits, Xor, Low8, Shr8;
    if k == 0 {
      NoBits(w);
    } else {
      PeelByte(w, 8 * (k - 1));
      SliceIs(Shr8(w), k - 1);
    }
  }

  // ----- the order of bytes -----

  /** rev8: the bytes of a word in reverse. */
  function Rev8(a: Word): Word {
    var b := ((a >> 8) & 0xff00ff00ff00ff) | ((a & 0xff00ff00ff00ff) << 8);
    var c := ((b >> 16) & 0xffff0000ffff) | ((b & 0xffff0000ffff) << 16);
    (c >> 32) | (c << 32)
  }

  lemma RevRev(a: Word)
    ensures Rev8(Rev8(a)) == a
  {
  }

  lemma RevXor(a: Word, b: Word)
    ensures Rev8(Xor(a, b)) == Xor(Rev8(a), Rev8(b))
  {
  }

  lemma RevNot(a: Word)
    ensures Rev8(Not(a)) == Not(Rev8(a))
  {
    NotIsXor(a);
    NotIsXor(Rev8(a));
    RevXor(Not(0), a);
    RevOnes();
    hide Rev8, Not, Xor;
  }

  lemma RevOnes()
    ensures Rev8(Not(0)) == Not(0)
  {
  }

  function Top8(a: Word): Word { a >> 56 }

  /** The low byte of a word is the top byte of its reverse. */
  lemma RevShift(a: Word)
    ensures Shl8(Rev8(a)) == Rev8(Shr8(a)) && Top8(Rev8(a)) == Low8(a)
  {
  }

  lemma RevUp(a: Word)
    ensures Shr8(Rev8(a)) == Rev8(Shl8(a)) && Low8(Rev8(a)) == Top8(a)
  {
  }

  // ----- a word from the top down -----

  function Shl56(a: Word): Word { a << 56 }

  function Low56(a: Word): Word { a & 0xffffffffffffff }

  lemma TopByteOut(a: Word)
    ensures a == Xor(Shl56(Top8(a)), Low56(a)) && Room8(Low56(a)) && Shl8(Low56(a)) == Shl8(a) && Low8(Top8(a)) == Top8(a)
  {
  }

  lemma Shl56Is(t: Word)
    ensures Shl56(t) == Shl8(Shl8(Shl8(Shl8(Shl8(Shl8(Shl8(t)))))))
  {
  }

  lemma ByteRooms(t: Word)
    requires Low8(t) == t
    ensures Room8(t) && Room8(Shl8(t)) && Room8(Shl8(Shl8(t))) && Room8(Shl8(Shl8(Shl8(t))))
    ensures var u := Shl8(Shl8(Shl8(Shl8(t))));
      Room8(u) && Room8(Shl8(u)) && Room8(Shl8(Shl8(u)))
  {
  }

  /** A byte at the top of the register comes down in 56 steps. */
  lemma BitsUp56(t: Word)
    requires Low8(t) == t
    ensures Bits(Shl56(t), 56) == t
  {
    Shl56Is(t);
    ByteRooms(t);
    hide Bits, Shl8, Shl56, Room8, Low8;
    var u := Shl8(Shl8(Shl8(Shl8(t))));
    BitsUp16(Shl8(u));
    BitsPlus(Shl56(t), 16, 40);
    BitsUp16(Shl8(Shl8(Shl8(t))));
    BitsPlus(Shl8(u), 16, 24);
    BitsUp16(Shl8(t));
    BitsPlus(Shl8(Shl8(Shl8(t))), 16, 8);
    BitsUp8(t);
  }

  lemma BitsUp16(a: Word)
    requires Room8(a) && Room8(Shl8(a))
    ensures Bits(Shl8(Shl8(a)), 16) == a
  {
    hide Bits, Shl8, Room8;
    BitsUp8(Shl8(a));
    BitsUp8(a);
    BitsPlus(Shl8(Shl8(a)), 8, 8);
  }

  function ShlBytes(w: Word, k: nat): Word
    decreases k
  {
    if k == 0 then w else ShlBytes(Shl8(w), k - 1)
  }

  lemma EightUpShifts(w: Word)
    ensures ShlBytes(w, 8) == 0
  {
    ShiftedUp(w);
    hide Shl8;
    assert ShlBytes(w, 8) == ShlBytes(Shl8(Shl8(Shl8(Shl8(w)))), 4);
  }

  lemma ShiftedUp(w: Word)
    ensures Shl8(Shl8(Shl8(Shl8(Shl8(Shl8(Shl8(Shl8(w)))))))) == 0
  {
  }

  /** The same by the bytes of the word from the highest down, j of them done. */
  function TopSlice(w: Word, j: nat): Word
    requires j <= 8
    decreases 8 - j
  {
    if j == 8 then 0 else Xor(Bits(Top8(w), 8 * (j + 1)), TopSlice(Shl8(w), j + 1))
  }

  lemma {:induction false} TopSliceIs(w: Word, j: nat)
    requires j <= 8 && ShlBytes(w, 8 - j) == 0
    ensures TopSlice(w, j) == Bits(w, 64 + 8 * j)
    decreases 8 - j
  {
    hide Bits, Xor, Top8, Low8, Shl8, Shl56, Low56, Room8;
    if j == 8 {
      BitsZero(128);
    } else {
      TopByteOut(w);
      BitsLinear(Shl56(Top8(w)), Low56(w), 64 + 8 * j);
      BitsUp56(Top8(w));
      BitsPlus(Shl56(Top8(w)), 56, 8 * (j + 1));
      BitsUp8(Low56(w));
      BitsPlus(Shl8(w), 8, 64 + 8 * j);
      TopSliceIs(Shl8(w), j + 1);
    }
  }

  // ----- the two loads -----

  lemma EightLoads(b0: Word, b1: Word, b2: Word, b3: Word, b4: Word, b5: Word, b6: Word, b7: Word)
    requires Low8(b0) == b0 && Low8(b1) == b1 && Low8(b2) == b2 && Low8(b3) == b3
    requires Low8(b4) == b4 && Low8(b5) == b5 && Low8(b6) == b6 && Low8(b7) == b7
    ensures Rev8(Join(b0, Join(b1, Join(b2, Join(b3, Join(b4, Join(b5, Join(b6, Join(b7, 0)))))))))
         == Join(b7, Join(b6, Join(b5, Join(b4, Join(b3, Join(b2, Join(b1, Join(b0, 0))))))))
  {
  }

  /** The same eight bytes, loaded in the other order. */
  lemma LoadsAgree(s: seq<Byte>)
    requires |s| == 8
    ensures LoadBig(s) == Rev8(LoadLittle(s))
  {
    hide Join, Rev8, Low8, LoadBig, LoadLittle;
    LoadSteps(s, 0);
    LoadSteps(s, 1);
    LoadSteps(s, 2);
    LoadSteps(s, 3);
    LoadSteps(s, 4);
    LoadSteps(s, 5);
    LoadSteps(s, 6);
    LoadSteps(s, 7);
    LoadNothing(s);
    EightLoads(s[0], s[1], s[2], s[3], s[4], s[5], s[6], s[7]);
  }

  lemma LoadSteps(s: seq<Byte>, k: nat)
    requires k < |s|
    ensures LoadLittle(s[k..]) == Join(s[k], LoadLittle(s[k + 1..]))
    ensures LoadBig(s[..k + 1]) == Join(s[k], LoadBig(s[..k]))
  {
    hide Join;
    assert s[k..][1..] == s[k + 1..] && s[..k + 1][..k] == s[..k];
  }

  lemma LoadNothing(s: seq<Byte>)
    ensures LoadLittle(s[|s|..]) == 0 && LoadBig(s[..0]) == 0 && s[0..] == s && s[..|s|] == s
  {
  }
}
