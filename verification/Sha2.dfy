/**
 * Message digests fed piece by piece (src/sha2.c): a context keeps the digest
 * of the whole blocks so far and the rest that does not fill one.
 */
module Sha2 {
  import opened Bytes
  import Sha256
  import Sha512

  datatype Algorithm = SHA224 | SHA256 | SHA384 | SHA512

  const UINT_MAX1: nat := 0x1_0000_0000
  const INT_MAX1: nat := 0x8000_0000

  predicate Wide(alg: Algorithm) {
    alg == SHA384 || alg == SHA512
  }

  function BlockSize(alg: Algorithm): nat {
    if Wide(alg) then 128 else 64
  }

  /** How many words of the state make the digest. */
  function DigestWords(alg: Algorithm): nat {
    match alg case SHA224 => 7 case SHA256 => 8 case SHA384 => 6 case SHA512 => 8
  }

  function DigestSize(alg: Algorithm): nat {
    (if Wide(alg) then 8 else 4) * DigestWords(alg)
  }

  datatype State = Words(words: seq<Sha256.Word>) | LongWords(longs: seq<Sha512.Word>)

  predicate StateOk(alg: Algorithm, s: State) {
    if Wide(alg) then s.LongWords? && |s.longs| == 8 else s.Words? && |s.words| == 8
  }

  function Start(alg: Algorithm): (s: State)
    ensures StateOk(alg, s)
  {
    match alg
    case SHA224 => Words(Sha256.ShortStart())
    case SHA256 => Words(Sha256.Start())
    case SHA384 => LongWords(Sha512.ShortStart())
    case SHA512 => LongWords(Sha512.Start())
  }

  predicate Blocks(alg: Algorithm, data: seq<byte>) {
    |data| % BlockSize(alg) == 0
  }

  function Absorb(alg: Algorithm, s: State, data: seq<byte>): (r: State)
    requires StateOk(alg, s) && Blocks(alg, data)
    ensures StateOk(alg, r)
  {
    if Wide(alg) then LongWords(Sha512.Absorb(s.longs, data)) else Words(Sha256.Absorb(s.words, data))
  }

  lemma AbsorbConcat(alg: Algorithm, s: State, a: seq<byte>, b: seq<byte>)
    requires StateOk(alg, s) && Blocks(alg, a) && Blocks(alg, b)
    ensures Blocks(alg, a + b) && Absorb(alg, s, a + b) == Absorb(alg, Absorb(alg, s, a), b)
  {
    hide Sha256.Absorb, Sha512.Absorb;
    if Wide(alg) {
      Sha512.AbsorbConcat(s.longs, a, b);
    } else {
      Sha256.AbsorbConcat(s.words, a, b);
    }
  }

  lemma AbsorbNothing(alg: Algorithm, s: State)
    requires StateOk(alg, s)
    ensures Blocks(alg, []) && Absorb(alg, s, []) == s
  {
    hide Sha256.Compress, Sha512.Compress;
    assert Wide(alg) ==> Sha512.Absorb(s.longs, []) == s.longs;
    assert !Wide(alg) ==> Sha256.Absorb(s.words, []) == s.words;
  }

  function Emit(alg: Algorithm, s: State): (d: seq<byte>)
    requires StateOk(alg, s)
    ensures |d| == DigestSize(alg)
  {
    if Wide(alg) then Sha512.Emit(s.longs, DigestWords(alg)) else Sha256.Emit(s.words, DigestWords(alg))
  }

  // ----- padding -----

  /** The byte with a given value. */
  function AsByte(x: nat): byte
    requires x < 256
  {
    if x == 0 then 0 else AsByte(x - 1) + 1
  }

  lemma {:induction false} ByteBack(x: nat)
    requires x < 256
    ensures AsByte(x) as int == x
  {
    if x > 0 {
      ByteBack(x - 1);
      NextByte(AsByte(x - 1));
    }
  }

  lemma NextByte(b: byte)
    requires b as int < 255
    ensures (b + 1) as int == b as int + 1
  {
    assert b != 255;
  }

  /** The last k bytes of a number, most significant first. */
  function BigEndian(x: nat, k: nat): (s: seq<byte>)
    ensures |s| == k
  {
    if k == 0 then [] else BigEndian(x / 256, k - 1) + [AsByte(x % 256)]
  }

  function Zeros(k: nat): (s: seq<byte>)
    ensures |s| == k
  {
    seq(k, _ => 0)
  }

  /** The bytes that section 5.1 of FIPS 180-4 gives to the length of a message. */
  function LengthBytes(alg: Algorithm): nat {
    if Wide(alg) then 16 else 8
  }

  /** The least number of zeros that makes whole blocks. */
  function Gap(alg: Algorithm, n: nat): (k: nat)
    ensures k < BlockSize(alg) && (n + 1 + k + LengthBytes(alg)) % BlockSize(alg) == 0
  {
    var b := BlockSize(alg);
    (b - (n + 1 + LengthBytes(alg)) % b) % b
  }

  /** Section 5.1: a one bit, zeros, and the length in bits. */
  function StandardPadding(alg: Algorithm, n: nat): seq<byte> {
    [0x80] + Zeros(Gap(alg, n)) + BigEndian(8 * n, LengthBytes(alg))
  }

  /** How many blocks the rest of a message and its padding take: sha256_final. */
  function LastBlocks(alg: Algorithm, rest: nat): nat {
    if BlockSize(alg) - (LengthBytes(alg) + 1) < rest then 2 else 1
  }

  /** What sha256_final appends: only the last 32 bits of the length are written. */
  function Padding(alg: Algorithm, n: nat): (s: seq<byte>)
    ensures (n + |s|) % BlockSize(alg) == 0
  {
    PaddingFits(alg, n);
    var rest := n % BlockSize(alg);
    [0x80] + Zeros(LastBlocks(alg, rest) * BlockSize(alg) - rest - 5) + BigEndian(8 * n % UINT_MAX1, 4)
  }

  lemma PaddingFits(alg: Algorithm, n: nat)
    ensures var rest, b := n % BlockSize(alg), BlockSize(alg);
      && LastBlocks(alg, rest) * b - rest >= 1 + LengthBytes(alg)
      && (n + (LastBlocks(alg, rest) * b - rest)) % b == 0
  {
  }

  /** The number of zeros is the least possible. */
  lemma GapIs(alg: Algorithm, n: nat)
    ensures var rest, b := n % BlockSize(alg), BlockSize(alg);
      1 + Gap(alg, n) + LengthBytes(alg) == LastBlocks(alg, rest) * b - rest
  {
    PaddingFits(alg, n);
    Congruent(alg, n, 1 + Gap(alg, n) + LengthBytes(alg), LastBlocks(alg, n % BlockSize(alg)) * BlockSize(alg) - n % BlockSize(alg));
  }

  lemma Congruent(alg: Algorithm, n: nat, a: nat, b: nat)
    requires (n + a) % BlockSize(alg) == 0 && (n + b) % BlockSize(alg) == 0
    requires 1 + LengthBytes(alg) <= a < 1 + LengthBytes(alg) + BlockSize(alg)
    requires 1 + LengthBytes(alg) <= b < 1 + LengthBytes(alg) + BlockSize(alg)
    ensures a == b
  {
  }

  lemma {:induction false} LeadingZeros(x: nat, k: nat, extra: nat)
    requires x < Power256(k)
    ensures BigEndian(x, extra + k) == Zeros(extra) + BigEndian(x, k)
    decreases k
  {
    if k == 0 {
      AllZeros(extra);
    } else {
      LeadingZeros(x / 256, k - 1, extra);
    }
  }

  lemma {:induction false} AllZeros(k: nat)
    ensures BigEndian(0, k) == Zeros(k)
  {
    if k > 0 {
      AllZeros(k - 1);
      assert AsByte(0) == 0;
    }
  }

  function Power256(k: nat): nat {
    if k == 0 then 1 else 256 * Power256(k - 1)
  }

  lemma {:induction false} BigEndianInjective(x: nat, y: nat, k: nat)
    requires x < Power256(k) && y < Power256(k) && BigEndian(x, k) == BigEndian(y, k)
    ensures x == y
    decreases k
  {
    hide AsByte;
    if k > 0 {
      var a, b := BigEndian(x / 256, k - 1), BigEndian(y / 256, k - 1);
      assert BigEndian(x, k)[..k - 1] == a && BigEndian(y, k)[..k - 1] == b;
      assert BigEndian(x, k)[k - 1] == BigEndian(y, k)[k - 1];
      BigEndianInjective(x / 256, y / 256, k - 1);
      ByteInjective(x % 256, y % 256);
    }
  }

  lemma ByteInjective(x: nat, y: nat)
    requires x < 256 && y < 256 && AsByte(x) == AsByte(y)
    ensures x == y
  {
    hide AsByte;
    ByteBack(x);
    ByteBack(y);
  }

  /** The padding is the standard one exactly for messages below 2^29 bytes. */
  lemma PaddingStandard(alg: Algorithm, n: nat)
    requires 8 * n < Power256(LengthBytes(alg))
    ensures Padding(alg, n) == StandardPadding(alg, n) <==> n < 0x2000_0000
  {
    var low := 8 * n % UINT_MAX1;
    LowFits(alg, n);
    LowIsAll(n);
    PaddingWide(alg, n);
    hide *;
    StandardUnfolded(alg, n);
    SameTail(Gap(alg, n), low, 8 * n, LengthBytes(alg));
  }

  lemma StandardUnfolded(alg: Algorithm, n: nat)
    ensures StandardPadding(alg, n) == [0x80] + Zeros(Gap(alg, n)) + BigEndian(8 * n, LengthBytes(alg))
  {
  }

  lemma LowFits(alg: Algorithm, n: nat)
    ensures 8 * n % UINT_MAX1 < Power256(LengthBytes(alg))
  {
    Powers();
    hide Power256;
  }

  lemma LowIsAll(n: nat)
    ensures 8 * n % UINT_MAX1 == 8 * n <==> n < 0x2000_0000
  {
  }

  /** As if the whole length field had been written. */
  lemma PaddingWide(alg: Algorithm, n: nat)
    ensures Padding(alg, n) == [0x80] + Zeros(Gap(alg, n)) + BigEndian(8 * n % UINT_MAX1, LengthBytes(alg))
  {
    var low, gap, extra := 8 * n % UINT_MAX1, Gap(alg, n), LengthBytes(alg) - 4;
    GapIs(alg, n);
    PaddingFits(alg, n);
    Powers();
    LeadingZeros(low, 4, extra);
    ZerosSum(gap, extra);
    hide BigEndian, Zeros, Gap, Power256;
    Assoc([0x80], Zeros(gap), Zeros(extra), BigEndian(low, 4));
  }

  lemma ZerosSum(a: nat, b: nat)
    ensures Zeros(a + b) == Zeros(a) + Zeros(b)
  {
  }

  lemma Assoc(a: seq<byte>, b: seq<byte>, c: seq<byte>, d: seq<byte>)
    ensures a + (b + c) + d == a + b + (c + d)
  {
  }

  lemma SameTail(gap: nat, x: nat, y: nat, k: nat)
    requires x < Power256(k) && y < Power256(k)
    ensures [0x80] + Zeros(gap) + BigEndian(x, k) == [0x80] + Zeros(gap) + BigEndian(y, k) <==> x == y
  {
    hide BigEndian, Zeros, Power256;
    var front := [0x80] + Zeros(gap);
    if front + BigEndian(x, k) == front + BigEndian(y, k) {
      assert (front + BigEndian(x, k))[1 + gap..] == BigEndian(x, k);
      assert (front + BigEndian(y, k))[1 + gap..] == BigEndian(y, k);
      BigEndianInjective(x, y, k);
    }
  }

  lemma Powers()
    ensures Power256(4) == UINT_MAX1 && Power256(4) <= Power256(8) && Power256(8) <= Power256(16)
  {
    assert Power256(4) == 256 * 256 * 256 * 256;
    assert Power256(8) == 256 * 256 * 256 * 256 * Power256(4);
    assert Power256(12) == 256 * 256 * 256 * 256 * Power256(8);
    assert Power256(16) == 256 * 256 * 256 * 256 * Power256(12);
  }

  // ----- digests -----

  /** The digest of a message that is padded as the source does. */
  function Digest(alg: Algorithm, m: seq<byte>): (d: seq<byte>)
    ensures |d| == DigestSize(alg)
  {
    hide Emit, Absorb, Start, Padding;
    Emit(alg, Absorb(alg, Start(alg), m + Padding(alg, |m|)))
  }

  /** The digest of section 6 of FIPS 180-4. */
  function StandardDigest(alg: Algorithm, m: seq<byte>): (d: seq<byte>)
    ensures |d| == DigestSize(alg)
  {
    hide Emit, Absorb, Start, StandardPadding;
    StandardBlocks(alg, m);
    Emit(alg, Absorb(alg, Start(alg), m + StandardPadding(alg, |m|)))
  }

  lemma StandardBlocks(alg: Algorithm, m: seq<byte>)
    ensures Blocks(alg, m + StandardPadding(alg, |m|))
  {
  }

  lemma DigestIsStandard(alg: Algorithm, m: seq<byte>)
    requires |m| < 0x2000_0000
    ensures Digest(alg, m) == StandardDigest(alg, m)
  {
    LengthFits(alg, |m|);
    PaddingStandard(alg, |m|);
    hide Emit, Absorb, Start, Padding, StandardPadding, Power256;
  }

  lemma LengthFits(alg: Algorithm, n: nat)
    requires n < 0x2000_0000
    ensures 8 * n < Power256(LengthBytes(alg))
  {
    Powers();
    hide Power256;
  }
}
