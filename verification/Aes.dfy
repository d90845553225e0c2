/**
 * AES-128 (src/aes.c; section 5 of FIPS 197) on blocks of a buffer, and cipher
 * block chaining (section 6.2 of NIST SP 800-38A). Byte 4i + j of a block is
 * state[i][j]: column i, row j.
 */
module Aes {
  import opened AesOctet

  const NR: nat := 10
  const SCHEDULE: nat := 176

  type Block = s: seq<Octet> | |s| == 16 witness seq(16, _ => ZERO)

  type Keys = s: seq<Octet> | |s| == SCHEDULE witness seq(SCHEDULE, _ => ZERO)

  // ----- the steps of a round -----

  function SubBytes(s: Block): Block {
    seq(16, k requires 0 <= k < 16 => Sub(s[k]))
  }

  function InvSubBytes(s: Block): Block {
    seq(16, k requires 0 <= k < 16 => InvSub(s[k]))
  }

  /** Where a byte of the state comes from: row j turns left by j columns. */
  function Turned(k: int): (n: int)
    requires 0 <= k < 16
    ensures 0 <= n < 16
  {
    (k + 4 * (k % 4)) % 16
  }

  function TurnedBack(k: int): (n: int)
    requires 0 <= k < 16
    ensures 0 <= n < 16
  {
    (k + 16 - 4 * (k % 4)) % 16
  }

  function ShiftRows(s: Block): Block {
    seq(16, k requires 0 <= k < 16 => s[Turned(k)])
  }

  function InvShiftRows(s: Block): Block {
    seq(16, k requires 0 <= k < 16 => s[TurnedBack(k)])
  }

  /** Byte n after byte k, around the column of k. */
  function Around(k: int, n: int): (m: int)
    requires 0 <= k < 16 && 0 <= n < 4
    ensures 0 <= m < 16
  {
    var row := k % 4 + n;
    k - k % 4 + if row < 4 then row else row - 4
  }

  function MixColumns(s: Block): Block {
    seq(16, k requires 0 <= k < 16 => Mix(s[k], s[Around(k, 1)], s[Around(k, 2)], s[Around(k, 3)]))
  }

  function InvMixColumns(s: Block): Block {
    seq(16, k requires 0 <= k < 16 => Unmix(s[k], s[Around(k, 1)], s[Around(k, 2)], s[Around(k, 3)]))
  }

  function XorBlock(s: Block, t: Block): Block {
    seq(16, k requires 0 <= k < 16 => Xor(s[k], t[k]))
  }

  function RoundKey(w: Keys, round: nat): Block
    requires round <= NR
  {
    w[16 * round..16 * round + 16]
  }

  function AddRoundKey(w: Keys, round: nat, s: Block): Block
    requires round <= NR
  {
    XorBlock(s, RoundKey(w, round))
  }

  // ----- the ciphers -----

  /** The first n rounds of cipher. */
  function Rounds(w: Keys, s: Block, n: nat): Block
    requires n < NR
  {
    if n == 0 then AddRoundKey(w, 0, s)
    else AddRoundKey(w, n, MixColumns(ShiftRows(SubBytes(Rounds(w, s, n - 1)))))
  }

  function Cipher(w: Keys, s: Block): Block {
    AddRoundKey(w, NR, ShiftRows(SubBytes(Rounds(w, s, NR - 1))))
  }

  /** The rounds of inv_cipher from n down to 1, and the end. */
  function InvRounds(w: Keys, s: Block, n: nat): Block
    requires n < NR
    decreases n
  {
    if n == 0 then AddRoundKey(w, 0, InvSubBytes(InvShiftRows(s)))
    else InvRounds(w, InvMixColumns(AddRoundKey(w, n, InvSubBytes(InvShiftRows(s)))), n - 1)
  }

  function InvCipher(w: Keys, s: Block): Block {
    InvRounds(w, AddRoundKey(w, NR, s), NR - 1)
  }

  // ----- every step is undone -----

  lemma SubUndone(s: Block)
    ensures InvSubBytes(SubBytes(s)) == s
  {
    hide Sub, InvSub;
    forall k | 0 <= k < 16 ensures InvSubBytes(SubBytes(s))[k] == s[k] {
      AesOctet.SubUndone(s[k]);
    }
  }

  lemma TurnBack(k: int)
    requires 0 <= k < 16
    ensures Turned(TurnedBack(k)) == k
  {
  }

  lemma ShiftUndone(s: Block)
    ensures InvShiftRows(ShiftRows(s)) == s
  {
    hide Turned, TurnedBack;
    forall k | 0 <= k < 16 ensures InvShiftRows(ShiftRows(s))[k] == s[k] {
      TurnBack(k);
    }
  }

  lemma AroundAround(k: int, n: int, m: int)
    requires 0 <= k < 16 && 0 <= n < 4 && 0 <= m < 4
    ensures Around(Around(k, n), m) == if n + m < 4 then (if n + m == 0 then k else Around(k, n + m)) else if n + m == 4 then k else Around(k, n + m - 4)
  {
  }

  lemma MixUndone(s: Block)
    ensures InvMixColumns(MixColumns(s)) == s
  {
    hide Mix, Unmix;
    forall k | 0 <= k < 16 ensures InvMixColumns(MixColumns(s))[k] == s[k] {
      var k1, k2, k3 := Around(k, 1), Around(k, 2), Around(k, 3);
      AroundAround(k, 1, 1);
      AroundAround(k, 1, 2);
      AroundAround(k, 1, 3);
      AroundAround(k, 2, 1);
      AroundAround(k, 2, 2);
      AroundAround(k, 2, 3);
      AroundAround(k, 3, 1);
      AroundAround(k, 3, 2);
      AroundAround(k, 3, 3);
      hide Around;
      UnmixMix(s[k], s[k1], s[k2], s[k3]);
    }
  }

  lemma XorUndone(s: Block, t: Block)
    ensures XorBlock(XorBlock(s, t), t) == s
  {
    hide Xor;
    forall k | 0 <= k < 16 ensures XorBlock(XorBlock(s, t), t)[k] == s[k] {
      AesOctet.XorUndone(s[k], t[k]);
    }
  }

  lemma {:induction false} RoundsUndone(w: Keys, s: Block, n: nat)
    requires n < NR
    ensures InvRounds(w, ShiftRows(SubBytes(Rounds(w, s, n))), n) == s
    decreases n
  {
    hide SubBytes, InvSubBytes, ShiftRows, InvShiftRows, MixColumns, InvMixColumns, XorBlock;
    ShiftUndone(SubBytes(Rounds(w, s, n)));
    SubUndone(Rounds(w, s, n));
    if n == 0 {
      XorUndone(s, RoundKey(w, 0));
    } else {
      var t := MixColumns(ShiftRows(SubBytes(Rounds(w, s, n - 1))));
      XorUndone(t, RoundKey(w, n));
      MixUndone(ShiftRows(SubBytes(Rounds(w, s, n - 1))));
      RoundsUndone(w, s, n - 1);
    }
  }

  /** Decryption undoes encryption, under any expanded key. */
  lemma CipherUndone(w: Keys, s: Block)
    ensures InvCipher(w, Cipher(w, s)) == s
  {
    hide SubBytes, ShiftRows, XorBlock, Rounds, InvRounds;
    XorUndone(ShiftRows(SubBytes(Rounds(w, s, NR - 1))), RoundKey(w, NR));
    RoundsUndone(w, s, NR - 1);
  }

  // ----- cipher block chaining -----

  function CbcEncrypt(w: Keys, iv: Block, p: seq<Octet>): (c: seq<Octet>)
    requires |p| % 16 == 0
    ensures |c| == |p|
    decreases |p|
  {
    hide Cipher, XorBlock;
    if p == [] then []
    else
      var b := Cipher(w, XorBlock(p[..16], iv));
      b + CbcEncrypt(w, b, p[16..])
  }

  function CbcDecrypt(w: Keys, iv: Block, c: seq<Octet>): (p: seq<Octet>)
    requires |c| % 16 == 0
    ensures |p| == |c|
    decreases |c|
  {
    hide InvCipher, XorBlock;
    if c == [] then [] else XorBlock(InvCipher(w, c[..16]), iv) + CbcDecrypt(w, c[..16], c[16..])
  }

  lemma WholeBlocks(n: nat)
    requires n % 16 == 0 && n > 0
    ensures n >= 16 && (n - 16) % 16 == 0
  {
  }

  function BlockOf(s: seq<Octet>, n: nat): Block
    requires 16 * n + 16 <= |s|
  {
    s[16 * n..16 * n + 16]
  }

  /** Every block is enciphered together with the enciphered block before it. */
  lemma {:induction false} CbcChains(w: Keys, iv: Block, p: seq<Octet>, n: nat)
    requires |p| % 16 == 0 && 16 * n + 16 <= |p|
    ensures BlockOf(CbcEncrypt(w, iv, p), n)
         == Cipher(w, XorBlock(BlockOf(p, n), if n == 0 then iv else BlockOf(CbcEncrypt(w, iv, p), n - 1)))
    decreases n
  {
    hide Cipher, XorBlock;
    var b: Block := Cipher(w, XorBlock(p[..16], iv));
    var rest := CbcEncrypt(w, b, p[16..]);
    assert CbcEncrypt(w, iv, p) == b + rest;
    BehindFirst(b, rest, n);
    BehindFirst(p[..16], p[16..], n);
    assert p == p[..16] + p[16..];
    if n > 0 {
      BehindFirst(b, rest, n - 1);
      CbcChains(w, b, p[16..], n - 1);
    }
  }

  lemma BehindFirst(b: Block, rest: seq<Octet>, n: nat)
    requires 16 * n <= |rest|
    ensures BlockOf(b + rest, n) == if n == 0 then b else BlockOf(rest, n - 1)
  {
    if n > 0 {
      assert BlockOf(b + rest, n) == BlockOf(rest, n - 1);
    }
  }

  /** Chained decryption undoes chained encryption, for any number of blocks. */
  lemma {:induction false} CbcUndone(w: Keys, iv: Block, p: seq<Octet>)
    requires |p| % 16 == 0
    ensures CbcDecrypt(w, iv, CbcEncrypt(w, iv, p)) == p
    decreases |p|
  {
    hide Cipher, InvCipher, XorBlock;
    if p != [] {
      WholeBlocks(|p|);
      var x: Block := XorBlock(p[..16], iv);
      var b: Block := Cipher(w, x);
      var rest := CbcEncrypt(w, b, p[16..]);
      assert (b + rest)[..16] == b && (b + rest)[16..] == rest;
      CipherUndone(w, x);
      XorUndone(p[..16], iv);
      CbcUndone(w, b, p[16..]);
      assert p == p[..16] + p[16..];
    }
  }
}
