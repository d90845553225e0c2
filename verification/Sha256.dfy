/**
 * SHA-224 and SHA-256 (src/sha2.c): the compression of one block after
 * section 6.2.2 of FIPS 180-4, and the loops that compute it.
 */
module Sha256 {
  import opened Bytes
  import opened Sha256Functions

  type Word = bv32

  const ROUNDS: nat := 64
  const BLOCK: nat := 64

  /** Addition modulo 2^32. */
  function Plus(x: Word, y: Word): Word {
    x + y
  }

  // ----- the constants -----

  /** sha256_k, eight words at a time. */
  function KeyRow(r: nat): (k: seq<Word>)
    requires r < 8
    ensures |k| == 8
  {
    if r == 0 then [
      0x428a_2f98, 0x7137_4491, 0xb5c0_fbcf, 0xe9b5_dba5,
      0x3956_c25b, 0x59f1_11f1, 0x923f_82a4, 0xab1c_5ed5
    ]
    else if r == 1 then [
      0xd807_aa98, 0x1283_5b01, 0x2431_85be, 0x550c_7dc3,
      0x72be_5d74, 0x80de_b1fe, 0x9bdc_06a7, 0xc19b_f174
    ]
    else if r == 2 then [
      0xe49b_69c1, 0xefbe_4786, 0x0fc1_9dc6, 0x240c_a1cc,
      0x2de9_2c6f, 0x4a74_84aa, 0x5cb0_a9dc, 0x76f9_88da
    ]
    else if r == 3 then [
      0x983e_5152, 0xa831_c66d, 0xb003_27c8, 0xbf59_7fc7,
      0xc6e0_0bf3, 0xd5a7_9147, 0x06ca_6351, 0x1429_2967
    ]
    else if r == 4 then [
      0x27b7_0a85, 0x2e1b_2138, 0x4d2c_6dfc, 0x5338_0d13,
      0x650a_7354, 0x766a_0abb, 0x81c2_c92e, 0x9272_2c85
    ]
    else if r == 5 then [
      0xa2bf_e8a1, 0xa81a_664b, 0xc24b_8b70, 0xc76c_51a3,
      0xd192_e819, 0xd699_0624, 0xf40e_3585, 0x106a_a070
    ]
    else if r == 6 then [
      0x19a4_c116, 0x1e37_6c08, 0x2748_774c, 0x34b0_bcb5,
      0x391c_0cb3, 0x4ed8_aa4a, 0x5b9c_ca4f, 0x682e_6ff3
    ]
    else [
      0x748f_82ee, 0x78a5_636f, 0x84c8_7814, 0x8cc7_0208,
      0x90be_fffa, 0xa450_6ceb, 0xbef9_a3f7, 0xc671_78f2
    ]
  }

  function Constants(): (k: seq<Word>)
    ensures |k| == ROUNDS
  {
    seq(ROUNDS, t requires 0 <= t < ROUNDS => KeyRow(t / 8)[t % 8])
  }

  /** sha256_h0. */
  function Start(): (h: seq<Word>)
    ensures |h| == 8
  {
    [
      0x6a09_e667, 0xbb67_ae85, 0x3c6e_f372, 0xa54f_f53a,
      0x510e_527f, 0x9b05_688c, 0x1f83_d9ab, 0x5be0_cd19
    ]
  }

  /** sha224_h0, for the shorter digest. */
  function ShortStart(): (h: seq<Word>)
    ensures |h| == 8
  {
    [
      0xc105_9ed8, 0x367c_d507, 0x3070_dd17, 0xf70e_5939,
      0xffc0_0b31, 0x6858_1511, 0x64f9_8fa7, 0xbefa_4fa4
    ]
  }

  // ----- one block -----

  /** PACK32: a big-endian word. */
  function Pack(s: seq<byte>): Word
    requires |s| == 4
  {
    ((s[0] as Word) << 24) | ((s[1] as Word) << 16) | ((s[2] as Word) << 8) | (s[3] as Word)
  }

  function Low(x: Word): byte {
    (x & 0xff) as byte
  }

  /** UNPACK32. */
  function Unpack(x: Word): (s: seq<byte>)
    ensures |s| == 4
  {
    [Low(x >> 24), Low(x >> 16), Low(x >> 8), Low(x >> 0)]
  }

  /** The message schedule. */
  function Schedule(b: seq<byte>, t: nat): Word
    requires |b| == BLOCK
  {
    if t < 16 then Pack(b[4 * t..4 * t + 4])
    else Extend(Schedule(b, t - 2), Schedule(b, t - 7), Schedule(b, t - 15), Schedule(b, t - 16))
  }

  function Extend(a: Word, b: Word, c: Word, d: Word): Word {
    Plus(Plus(Plus(F4(a), b), F3(c)), d)
  }

  /** One round: everything moves down by one register, two of them change. */
  function Round(v: seq<Word>, k: Word, w: Word): (r: seq<Word>)
    requires |v| == 8
    ensures |r| == 8
  {
    var t1, t2 := First(v[4], v[5], v[6], v[7], k, w), Second(v[0], v[1], v[2]);
    [Plus(t1, t2), v[0], v[1], v[2], Plus(v[3], t1), v[4], v[5], v[6]]
  }

  function First(e: Word, f: Word, g: Word, h: Word, k: Word, w: Word): Word {
    Plus(Plus(Plus(Plus(h, F2(e)), Ch(e, f, g)), k), w)
  }

  function Second(a: Word, b: Word, c: Word): Word {
    Plus(F1(a), Maj(a, b, c))
  }

  function Rounds(v: seq<Word>, b: seq<byte>, n: nat): (r: seq<Word>)
    requires |v| == 8 && |b| == BLOCK && n <= ROUNDS
    ensures |r| == 8
  {
    if n == 0 then v else Round(Rounds(v, b, n - 1), Constants()[n - 1], Schedule(b, n - 1))
  }

  function Compress(h: seq<Word>, b: seq<byte>): (r: seq<Word>)
    requires |h| == 8 && |b| == BLOCK
    ensures |r| == 8
  {
    hide Rounds;
    AddWords(h, Rounds(h, b, ROUNDS))
  }

  function AddWords(h: seq<Word>, v: seq<Word>): (r: seq<Word>)
    requires |h| == 8 && |v| == 8
    ensures |r| == 8
  {
    seq(8, i requires 0 <= i < 8 => Plus(h[i], v[i]))
  }

  function Absorb(h: seq<Word>, data: seq<byte>): (r: seq<Word>)
    requires |h| == 8 && |data| % BLOCK == 0
    ensures |r| == 8
    decreases |data|
  {
    hide Compress;
    WholeBlocks(|data|);
    if data == [] then h else Absorb(Compress(h, data[..BLOCK]), data[BLOCK..])
  }

  lemma WholeBlocks(n: nat)
    requires n % BLOCK == 0
    ensures n == 0 || (n >= BLOCK && (n - BLOCK) % BLOCK == 0)
  {
  }

  lemma {:induction false} AbsorbConcat(h: seq<Word>, a: seq<byte>, b: seq<byte>)
    requires |h| == 8 && |a| % BLOCK == 0 && |b| % BLOCK == 0
    ensures |a + b| % BLOCK == 0 && Absorb(h, a + b) == Absorb(Absorb(h, a), b)
    decreases |a|
  {
    hide Compress;
    if a == [] {
      assert a + b == b;
    } else {
      assert (a + b)[..BLOCK] == a[..BLOCK] && (a + b)[BLOCK..] == a[BLOCK..] + b;
      AbsorbConcat(Compress(h, a[..BLOCK]), a[BLOCK..], b);
    }
  }

  /** The words of a digest as bytes. */
  function Emit(h: seq<Word>, n: nat): (s: seq<byte>)
    requires n <= |h|
    ensures |s| == 4 * n
  {
    if n == 0 then [] else Emit(h, n - 1) + Unpack(h[n - 1])
  }

  /** sha256_transf. The offset of a block is a signed 32-bit number. */
  method Transf(h: array<Word>, message: seq<byte>, blocks: nat)
    requires h.Length == 8 && BLOCK * blocks <= |message| && BLOCK * blocks <= 0x8000_0000
    modifies h
    ensures (BLOCK * blocks) % BLOCK == 0 && h[..] == Absorb(old(h[..]), message[..BLOCK * blocks])
  {
    hide Compress;
    ghost var start := h[..];
    assert message[..0] == [];
    for i := 0 to blocks
      invariant BLOCK * i % BLOCK == 0 && h[..] == Absorb(start, message[..BLOCK * i])
    {
      var sub := message[BLOCK * i..BLOCK * i + BLOCK];
      ghost var before := h[..];
      TransfBlock(h, sub);
      assert message[..BLOCK * (i + 1)] == message[..BLOCK * i] + sub;
      AbsorbConcat(start, message[..BLOCK * i], sub);
      assert sub[..BLOCK] == sub && sub[BLOCK..] == [];
      assert Absorb(Compress(before, sub), []) == Compress(before, sub);
    }
  }

  /** One round of the outer loop. */
  method TransfBlock(h: array<Word>, b: seq<byte>)
    requires h.Length == 8 && |b| == BLOCK
    modifies h
    ensures h[..] == Compress(old(h[..]), b)
  {
    hide Schedule, Extend, Rounds, Constants, Round;
    var w := Expand(b);
    var wv := new Word[8](i requires 0 <= i < 8 reads h => h[i]);
    ghost var start := h[..];
    assert wv[..] == start;
    assert Rounds(start, b, 0) == start by {
      NoRounds(start, b);
    }
    var k := Constants();
    for j := 0 to ROUNDS
      invariant wv[..] == Rounds(start, b, j) && h[..] == start
      invariant forall t | 0 <= t < ROUNDS :: w[t] == Schedule(b, t)
    {
      NextRound(start, b, j);
      RoundInPlace(wv, k[j], w[j]);
    }
    AddInto(h, wv);
  }

  /** The last loop: the registers are added to the digest so far. */
  method AddInto(h: array<Word>, wv: array<Word>)
    requires h.Length == 8 && wv.Length == 8 && h != wv
    modifies h
    ensures h[..] == AddWords(old(h[..]), wv[..])
  {
    hide Plus;
    for j := 0 to 8
      invariant forall i | 0 <= i < j :: h[i] == Plus(old(h[i]), wv[i])
      invariant forall i | j <= i < 8 :: h[i] == old(h[i])
    {
      h[j] := Plus(h[j], wv[j]);
    }
  }

  lemma NoRounds(v: seq<Word>, b: seq<byte>)
    requires |v| == 8 && |b| == BLOCK
    ensures Rounds(v, b, 0) == v
  {
  }

  lemma NextRound(v: seq<Word>, b: seq<byte>, n: nat)
    requires |v| == 8 && |b| == BLOCK && n < ROUNDS
    ensures Rounds(v, b, n + 1) == Round(Rounds(v, b, n), Constants()[n], Schedule(b, n))
  {
    hide Round, Constants, Schedule;
  }

  lemma RoundAt(v: seq<Word>, k: Word, w: Word)
    requires |v| == 8
    ensures var r := Round(v, k, w); var t1 := First(v[4], v[5], v[6], v[7], k, w);
      && r[0] == Plus(t1, Second(v[0], v[1], v[2])) && r[1] == v[0] && r[2] == v[1] && r[3] == v[2]
      && r[4] == Plus(v[3], t1) && r[5] == v[4] && r[6] == v[5] && r[7] == v[6]
  {
    hide First, Second, Plus;
  }

  /** The shifting of the registers. */
  method RoundInPlace(wv: array<Word>, k: Word, w: Word)
    requires wv.Length == 8
    modifies wv
    ensures wv[..] == Round(old(wv[..]), k, w)
  {
    hide First, Second, Round, Plus;
    RoundAt(wv[..], k, w);
    var t1 := First(wv[4], wv[5], wv[6], wv[7], k, w);
    var t2 := Second(wv[0], wv[1], wv[2]);
    wv[7] := wv[6];
    wv[6] := wv[5];
    wv[5] := wv[4];
    wv[4] := Plus(wv[3], t1);
    wv[3] := wv[2];
    wv[2] := wv[1];
    wv[1] := wv[0];
    wv[0] := Plus(t1, t2);
    SameEight(wv[..], Round(old(wv[..]), k, w));
  }

  lemma SameEight(a: seq<Word>, b: seq<Word>)
    requires |a| == 8 && |b| == 8 && a[0] == b[0] && a[1] == b[1] && a[2] == b[2] && a[3] == b[3]
    requires a[4] == b[4] && a[5] == b[5] && a[6] == b[6] && a[7] == b[7]
    ensures a == b
  {
  }

  /** The message schedule, as an array. */
  method Expand(b: seq<byte>) returns (w: array<Word>)
    requires |b| == BLOCK
    ensures fresh(w) && w.Length == ROUNDS && forall t | 0 <= t < ROUNDS :: w[t] == Schedule(b, t)
  {
    hide Extend, Pack;
    w := new Word[ROUNDS];
    for j := 0 to 16
      invariant forall t | 0 <= t < j :: w[t] == Schedule(b, t)
    {
      w[j] := Pack(b[4 * j..4 * j + 4]);
    }
    for j := 16 to ROUNDS
      invariant forall t | 0 <= t < j :: w[t] == Schedule(b, t)
    {
      w[j] := Extend(w[j - 2], w[j - 7], w[j - 15], w[j - 16]);
    }
  }
}
