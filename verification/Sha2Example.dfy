/**
 * The examples of FIPS 180-4: the digests of abc under all four algorithms.
 */
module Sha2Example {
  import opened Bytes
  import Sha256
  import Sha256Example
  import Sha512
  import Sha512Example
  import opened Sha2

  /** abc. */
  const MESSAGE: seq<byte> := [0x61, 0x62, 0x63]

  function Published(alg: Algorithm): seq<byte> {
    match alg
    case SHA224 => Sha256Example.ShortAbc()
    case SHA256 => Sha256Example.FullAbc()
    case SHA384 => Sha512Example.ShortAbc()
    case SHA512 => Sha512Example.FullAbc()
  }

  function Padded(alg: Algorithm): seq<byte> {
    if Wide(alg) then Sha512Example.Padded() else Sha256Example.Padded()
  }

  /** Twenty-four bits, in as many bytes as there are. */
  lemma LengthIs(k: nat)
    requires k > 0
    ensures BigEndian(24, k) == Zeros(k - 1) + [0x18]
  {
    assert 24 / 256 == 0 && 24 % 256 == 24;
    AllZeros(k - 1);
    Eighteen();
    hide AsByte;
  }

  lemma Eighteen()
    ensures AsByte(24) == 0x18
  {
    ByteBack(24);
    hide AsByte;
    Same(AsByte(24), 0x18);
  }

  lemma Same(a: byte, b: byte)
    requires a as int == b as int
    ensures a == b
  {
  }

  lemma PaddedIs(alg: Algorithm)
    ensures MESSAGE + StandardPadding(alg, 3) == Padded(alg)
  {
    var gap, k := Gap(alg, 3), LengthBytes(alg) - 1;
    assert gap + k == BlockSize(alg) - 5;
    LengthIs(k + 1);
    Together(gap, k);
    hide BigEndian, Gap;
  }

  lemma Together(gap: nat, k: nat)
    ensures MESSAGE + ([0x80] + Zeros(gap) + (Zeros(k) + [0x18])) == [0x61, 0x62, 0x63, 0x80] + Zeros(gap + k) + [0x18]
  {
    ZerosSum(gap, k);
    hide Zeros;
  }

  /** The published digests are those of the standard and of the code. */
  lemma AbcDigest(alg: Algorithm)
    ensures StandardDigest(alg, MESSAGE) == Published(alg) && Digest(alg, MESSAGE) == Published(alg)
  {
    PaddedIs(alg);
    DigestIsStandard(alg, MESSAGE);
    Sha256Example.ShortDigest();
    Sha256Example.FullDigest();
    Sha512Example.ShortDigest();
    Sha512Example.FullDigest();
    hide StandardPadding, Sha256Example.Padded, Sha512Example.Padded, Sha256.Absorb, Sha512.Absorb, Sha256.Emit, Sha512.Emit;
    hide Sha256.Start, Sha256.ShortStart, Sha512.Start, Sha512.ShortStart;
    hide Sha256Example.ShortAbc, Sha256Example.FullAbc, Sha512Example.ShortAbc, Sha512Example.FullAbc, Digest;
  }
}
