/**
 * The example of appendix C.1 of FIPS 197, round by round: the block
 * 00112233445566778899aabbccddeeff under the key 000102030405060708090a0b0c0d0e0f.
 */
module AesExample {
  import opened Bytes
  import AesTables
  import AesField
  import opened AesOctet
  import opened Aes
  import opened AesBuffer

  function Octets(s: seq<byte>): (r: seq<Octet>)
    ensures |r| == |s|
  {
    seq(|s|, i requires 0 <= i < |s| => Octet(s[i]))
  }

  // ----- the round keys -----

  /** From one round key to the next. */
  predicate NextKey(k: seq<byte>, l: seq<byte>, c: byte) {
    && |k| == |l| == 16
    && l[0] == AesField.Xor(k[0], AesField.Xor(AesTables.Sbox(k[13]), c)) && l[1] == AesField.Xor(k[1], AesTables.Sbox(k[14]))
    && l[2] == AesField.Xor(k[2], AesTables.Sbox(k[15])) && l[3] == AesField.Xor(k[3], AesTables.Sbox(k[12]))
    && l[4] == AesField.Xor(k[4], l[0]) && l[5] == AesField.Xor(k[5], l[1])
    && l[6] == AesField.Xor(k[6], l[2]) && l[7] == AesField.Xor(k[7], l[3])
    && l[8] == AesField.Xor(k[8], l[4]) && l[9] == AesField.Xor(k[9], l[5])
    && l[10] == AesField.Xor(k[10], l[6]) && l[11] == AesField.Xor(k[11], l[7])
    && l[12] == AesField.Xor(k[12], l[8]) && l[13] == AesField.Xor(k[13], l[9])
    && l[14] == AesField.Xor(k[14], l[10]) && l[15] == AesField.Xor(k[15], l[11])
  }

  ghost predicate HasKey(key: Block, n: nat, k: seq<byte>) {
    && n <= NR && |k| == 16
    && Word(key, 4 * n) == Octets(k[0..4]) && Word(key, 4 * n + 1) == Octets(k[4..8])
    && Word(key, 4 * n + 2) == Octets(k[8..12]) && Word(key, 4 * n + 3) == Octets(k[12..16])
  }

  /** The first word of a round key, and the others. */
  predicate FirstNext(a: seq<byte>, b: seq<byte>, d: seq<byte>, c: byte) {
    && |a| == |b| == |d| == 4
    && d[0] == AesField.Xor(a[0], AesField.Xor(AesTables.Sbox(b[1]), c)) && d[1] == AesField.Xor(a[1], AesTables.Sbox(b[2]))
    && d[2] == AesField.Xor(a[2], AesTables.Sbox(b[3])) && d[3] == AesField.Xor(a[3], AesTables.Sbox(b[0]))
  }

  predicate OtherNext(a: seq<byte>, b: seq<byte>, d: seq<byte>) {
    && |a| == |b| == |d| == 4
    && d[0] == AesField.Xor(a[0], b[0]) && d[1] == AesField.Xor(a[1], b[1])
    && d[2] == AesField.Xor(a[2], b[2]) && d[3] == AesField.Xor(a[3], b[3])
  }

  lemma NextParts(k: seq<byte>, l: seq<byte>, c: byte)
    requires NextKey(k, l, c)
    ensures |k| == |l| == 16
    ensures FirstNext(k[0..4], k[12..16], l[0..4], c) && OtherNext(k[4..8], l[0..4], l[4..8])
    ensures OtherNext(k[8..12], l[4..8], l[8..12]) && OtherNext(k[12..16], l[8..12], l[12..16])
  {
    hide AesTables.Sbox, AesField.Xor;
  }

  lemma KeyStep(key: Block, n: nat, k: seq<byte>, l: seq<byte>)
    requires n < NR && HasKey(key, n, k) && NextKey(k, l, Rcon(n + 1).bits)
    ensures HasKey(key, n + 1, l)
  {
    hide FirstNext, OtherNext, NextKey, Octets, Word, Rcon;
    assert (4 * n + 4) / 4 == n + 1;
    NextParts(k, l, Rcon(n + 1).bits);
    FirstOfKey(key, 4 * n + 4, k[0..4], k[12..16], l[0..4]);
    OtherOfKey(key, 4 * n + 5, k[4..8], l[0..4], l[4..8]);
    OtherOfKey(key, 4 * n + 6, k[8..12], l[4..8], l[8..12]);
    OtherOfKey(key, 4 * n + 7, k[12..16], l[8..12], l[12..16]);
  }

  lemma FirstOfKey(key: Block, i: nat, a: seq<byte>, b: seq<byte>, c: seq<byte>)
    requires 4 <= i < 44 && i % 4 == 0
    requires Word(key, i - 4) == Octets(a) && Word(key, i - 1) == Octets(b) && FirstNext(a, b, c, Rcon(i / 4).bits)
    ensures Word(key, i) == Octets(c)
  {
    hide AesTables.Sbox, AesField.Xor, Rcon, Word;
    NextWord(key, i);
  }

  lemma OtherOfKey(key: Block, i: nat, a: seq<byte>, b: seq<byte>, c: seq<byte>)
    requires 4 <= i < 44 && i % 4 != 0
    requires Word(key, i - 4) == Octets(a) && Word(key, i - 1) == Octets(b) && OtherNext(a, b, c)
    ensures Word(key, i) == Octets(c)
  {
    hide AesField.Xor, Word;
    NextWord(key, i);
  }

  lemma KeyStart(key: Block, k: seq<byte>)
    requires |k| == 16 && key == Octets(k)
    ensures HasKey(key, 0, k)
  {
    FirstWord(key, 0);
    FirstWord(key, 1);
    FirstWord(key, 2);
    FirstWord(key, 3);
  }

  lemma KeyOfRound(key: Block, n: nat, k: seq<byte>)
    requires HasKey(key, n, k)
    ensures RoundKey(Expanded(key), n) == Octets(k)
  {
    hide Word;
    var w := Expanded(key);
    forall i | 0 <= i < 16 ensures w[16 * n + i] == Octets(k)[i] {
      assert (16 * n + i) / 4 == 4 * n + i / 4 && (16 * n + i) % 4 == i % 4;
    }
  }

  // ----- the rounds -----

  /** Substituted and shifted: the first two columns, and the last two. */
  predicate ShiftedLow(s: seq<byte>, t: seq<byte>) {
    && |s| == |t| == 16
    && t[0] == AesTables.Sbox(s[0]) && t[1] == AesTables.Sbox(s[5])
    && t[2] == AesTables.Sbox(s[10]) && t[3] == AesTables.Sbox(s[15])
    && t[4] == AesTables.Sbox(s[4]) && t[5] == AesTables.Sbox(s[9])
    && t[6] == AesTables.Sbox(s[14]) && t[7] == AesTables.Sbox(s[3])
  }

  predicate ShiftedHigh(s: seq<byte>, t: seq<byte>) {
    && |s| == |t| == 16
    && t[8] == AesTables.Sbox(s[8]) && t[9] == AesTables.Sbox(s[13])
    && t[10] == AesTables.Sbox(s[2]) && t[11] == AesTables.Sbox(s[7])
    && t[12] == AesTables.Sbox(s[12]) && t[13] == AesTables.Sbox(s[1])
    && t[14] == AesTables.Sbox(s[6]) && t[15] == AesTables.Sbox(s[11])
  }

  predicate Shifted(s: seq<byte>, t: seq<byte>) {
    ShiftedLow(s, t) && ShiftedHigh(s, t)
  }

  /** The columns mixed, and the round key added. */
  predicate Mixed(t: seq<byte>, k: seq<byte>, s: seq<byte>) {
    && |t| == |k| == |s| == 16
    && s[0] == AesField.Xor(AesField.Mix(t[0], t[1], t[2], t[3]), k[0])
    && s[1] == AesField.Xor(AesField.Mix(t[1], t[2], t[3], t[0]), k[1])
    && s[2] == AesField.Xor(AesField.Mix(t[2], t[3], t[0], t[1]), k[2])
    && s[3] == AesField.Xor(AesField.Mix(t[3], t[0], t[1], t[2]), k[3])
    && s[4] == AesField.Xor(AesField.Mix(t[4], t[5], t[6], t[7]), k[4])
    && s[5] == AesField.Xor(AesField.Mix(t[5], t[6], t[7], t[4]), k[5])
    && s[6] == AesField.Xor(AesField.Mix(t[6], t[7], t[4], t[5]), k[6])
    && s[7] == AesField.Xor(AesField.Mix(t[7], t[4], t[5], t[6]), k[7])
    && s[8] == AesField.Xor(AesField.Mix(t[8], t[9], t[10], t[11]), k[8])
    && s[9] == AesField.Xor(AesField.Mix(t[9], t[10], t[11], t[8]), k[9])
    && s[10] == AesField.Xor(AesField.Mix(t[10], t[11], t[8], t[9]), k[10])
    && s[11] == AesField.Xor(AesField.Mix(t[11], t[8], t[9], t[10]), k[11])
    && s[12] == AesField.Xor(AesField.Mix(t[12], t[13], t[14], t[15]), k[12])
    && s[13] == AesField.Xor(AesField.Mix(t[13], t[14], t[15], t[12]), k[13])
    && s[14] == AesField.Xor(AesField.Mix(t[14], t[15], t[12], t[13]), k[14])
    && s[15] == AesField.Xor(AesField.Mix(t[15], t[12], t[13], t[14]), k[15])
  }

  predicate Added(t: seq<byte>, k: seq<byte>, s: seq<byte>) {
    && |t| == |k| == |s| == 16
    && s[0] == AesField.Xor(t[0], k[0]) && s[1] == AesField.Xor(t[1], k[1]) && s[2] == AesField.Xor(t[2], k[2]) && s[3] == AesField.Xor(t[3], k[3])
    && s[4] == AesField.Xor(t[4], k[4]) && s[5] == AesField.Xor(t[5], k[5]) && s[6] == AesField.Xor(t[6], k[6]) && s[7] == AesField.Xor(t[7], k[7])
    && s[8] == AesField.Xor(t[8], k[8]) && s[9] == AesField.Xor(t[9], k[9]) && s[10] == AesField.Xor(t[10], k[10]) && s[11] == AesField.Xor(t[11], k[11])
    && s[12] == AesField.Xor(t[12], k[12]) && s[13] == AesField.Xor(t[13], k[13]) && s[14] == AesField.Xor(t[14], k[14]) && s[15] == AesField.Xor(t[15], k[15])
  }

  lemma ShiftedAt(s: seq<byte>, k: nat)
    requires |s| == 16 && k < 16
    ensures ShiftRows(SubBytes(Octets(s)))[k] == Octet(AesTables.Sbox(s[Turned(k)]))
  {
    hide AesTables.Sbox, Turned;
  }

  lemma ShiftedIs(s: seq<byte>, t: seq<byte>)
    requires Shifted(s, t)
    ensures ShiftRows(SubBytes(Octets(s))) == Octets(t)
  {
    var r := ShiftRows(SubBytes(Octets(s)));
    LowIs(s, t);
    HighIs(s, t);
    hide *;
    assert forall k :: 0 <= k < 16 ==> r[k] == Octets(t)[k];
  }

  lemma LowIs(s: seq<byte>, t: seq<byte>)
    requires ShiftedLow(s, t)
    ensures forall k :: 0 <= k < 8 ==> ShiftRows(SubBytes(Octets(s)))[k] == Octets(t)[k]
  {
    hide AesTables.Sbox, ShiftRows, SubBytes;
    forall k | 0 <= k < 8 ensures ShiftRows(SubBytes(Octets(s)))[k] == Octets(t)[k] {
      ShiftedAt(s, k);
    }
  }

  lemma HighIs(s: seq<byte>, t: seq<byte>)
    requires ShiftedHigh(s, t)
    ensures forall k :: 8 <= k < 16 ==> ShiftRows(SubBytes(Octets(s)))[k] == Octets(t)[k]
  {
    hide AesTables.Sbox, ShiftRows, SubBytes;
    forall k | 8 <= k < 16 ensures ShiftRows(SubBytes(Octets(s)))[k] == Octets(t)[k] {
      ShiftedAt(s, k);
    }
  }

  lemma MixedAt(t: seq<byte>, k: seq<byte>, i: nat)
    requires |t| == |k| == 16 && i < 16
    ensures XorBlock(MixColumns(Octets(t)), Octets(k))[i]
         == Octet(AesField.Xor(AesField.Mix(t[i], t[Around(i, 1)], t[Around(i, 2)], t[Around(i, 3)]), k[i]))
  {
    hide AesField.Mix, AesField.Xor, Around;
  }

  predicate SameColumn(a: Block, b: Block, c: nat)
    requires c <= 12
  {
    a[c] == b[c] && a[c + 1] == b[c + 1] && a[c + 2] == b[c + 2] && a[c + 3] == b[c + 3]
  }

  lemma SameColumns(a: Block, b: Block)
    requires SameColumn(a, b, 0) && SameColumn(a, b, 4) && SameColumn(a, b, 8) && SameColumn(a, b, 12)
    ensures a == b
  {
  }

  lemma MixedIs(t: seq<byte>, k: seq<byte>, s: seq<byte>)
    requires Mixed(t, k, s)
    ensures XorBlock(MixColumns(Octets(t)), Octets(k)) == Octets(s)
  {
    var r := XorBlock(MixColumns(Octets(t)), Octets(k));
    MixedColumnIs(t, k, s, 0);
    MixedColumnIs(t, k, s, 4);
    MixedColumnIs(t, k, s, 8);
    MixedColumnIs(t, k, s, 12);
    hide *;
    SameColumns(r, Octets(s));
  }

  lemma AroundColumn(c: nat)
    requires c < 16 && c % 4 == 0
    ensures Around(c, 1) == c + 1 && Around(c, 2) == c + 2 && Around(c, 3) == c + 3
    ensures Around(c + 1, 1) == c + 2 && Around(c + 1, 2) == c + 3 && Around(c + 1, 3) == c
    ensures Around(c + 2, 1) == c + 3 && Around(c + 2, 2) == c && Around(c + 2, 3) == c + 1
    ensures Around(c + 3, 1) == c && Around(c + 3, 2) == c + 1 && Around(c + 3, 3) == c + 2
  {
  }

  lemma MixedColumnIs(t: seq<byte>, k: seq<byte>, s: seq<byte>, c: nat)
    requires |t| == |k| == |s| == 16 && c <= 12 && c % 4 == 0
    requires s[c] == AesField.Xor(AesField.Mix(t[c], t[c + 1], t[c + 2], t[c + 3]), k[c])
    requires s[c + 1] == AesField.Xor(AesField.Mix(t[c + 1], t[c + 2], t[c + 3], t[c]), k[c + 1])
    requires s[c + 2] == AesField.Xor(AesField.Mix(t[c + 2], t[c + 3], t[c], t[c + 1]), k[c + 2])
    requires s[c + 3] == AesField.Xor(AesField.Mix(t[c + 3], t[c], t[c + 1], t[c + 2]), k[c + 3])
    ensures SameColumn(XorBlock(MixColumns(Octets(t)), Octets(k)), Octets(s), c)
  {
    AroundColumn(c);
    hide AesField.Mix, AesField.Xor, Around, XorBlock, MixColumns;
    MixedAt(t, k, c);
    MixedAt(t, k, c + 1);
    MixedAt(t, k, c + 2);
    MixedAt(t, k, c + 3);
  }

  lemma AddedIs(t: seq<byte>, k: seq<byte>, s: seq<byte>)
    requires Added(t, k, s)
    ensures XorBlock(Octets(t), Octets(k)) == Octets(s)
  {
    hide AesField.Xor;
  }

  lemma RoundStep(key: Block, block: Block, n: nat, s: seq<byte>, t: seq<byte>, k: seq<byte>, r: seq<byte>)
    requires 0 < n < NR && Rounds(Expanded(key), block, n - 1) == Octets(s) && HasKey(key, n, k)
    requires Shifted(s, t) && Mixed(t, k, r)
    ensures Rounds(Expanded(key), block, n) == Octets(r)
  {
    ShiftedIs(s, t);
    MixedIs(t, k, r);
    KeyOfRound(key, n, k);
    hide Expanded, ShiftRows, SubBytes, MixColumns, XorBlock, RoundKey, Octets, Shifted, Mixed, HasKey;
  }

  const KEY0: seq<byte> := [0x00, 0x01, 0x02, 0x03, 0x04, 0x05, 0x06, 0x07, 0x08, 0x09, 0x0a, 0x0b, 0x0c, 0x0d, 0x0e, 0x0f]
  const KEY1: seq<byte> := [0xd6, 0xaa, 0x74, 0xfd, 0xd2, 0xaf, 0x72, 0xfa, 0xda, 0xa6, 0x78, 0xf1, 0xd6, 0xab, 0x76, 0xfe]
  const KEY2: seq<byte> := [0xb6, 0x92, 0xcf, 0x0b, 0x64, 0x3d, 0xbd, 0xf1, 0xbe, 0x9b, 0xc5, 0x00, 0x68, 0x30, 0xb3, 0xfe]
  const KEY3: seq<byte> := [0xb6, 0xff, 0x74, 0x4e, 0xd2, 0xc2, 0xc9, 0xbf, 0x6c, 0x59, 0x0c, 0xbf, 0x04, 0x69, 0xbf, 0x41]
  const KEY4: seq<byte> := [0x47, 0xf7, 0xf7, 0xbc, 0x95, 0x35, 0x3e, 0x03, 0xf9, 0x6c, 0x32, 0xbc, 0xfd, 0x05, 0x8d, 0xfd]
  const KEY5: seq<byte> := [0x3c, 0xaa, 0xa3, 0xe8, 0xa9, 0x9f, 0x9d, 0xeb, 0x50, 0xf3, 0xaf, 0x57, 0xad, 0xf6, 0x22, 0xaa]
  const KEY6: seq<byte> := [0x5e, 0x39, 0x0f, 0x7d, 0xf7, 0xa6, 0x92, 0x96, 0xa7, 0x55, 0x3d, 0xc1, 0x0a, 0xa3, 0x1f, 0x6b]
  const KEY7: seq<byte> := [0x14, 0xf9, 0x70, 0x1a, 0xe3, 0x5f, 0xe2, 0x8c, 0x44, 0x0a, 0xdf, 0x4d, 0x4e, 0xa9, 0xc0, 0x26]
  const KEY8: seq<byte> := [0x47, 0x43, 0x87, 0x35, 0xa4, 0x1c, 0x65, 0xb9, 0xe0, 0x16, 0xba, 0xf4, 0xae, 0xbf, 0x7a, 0xd2]
  const KEY9: seq<byte> := [0x54, 0x99, 0x32, 0xd1, 0xf0, 0x85, 0x57, 0x68, 0x10, 0x93, 0xed, 0x9c, 0xbe, 0x2c, 0x97, 0x4e]
  const KEY10: seq<byte> := [0x13, 0x11, 0x1d, 0x7f, 0xe3, 0x94, 0x4a, 0x17, 0xf3, 0x07, 0xa7, 0x8b, 0x4d, 0x2b, 0x30, 0xc5]

  const PLAIN: seq<byte> := [0x00, 0x11, 0x22, 0x33, 0x44, 0x55, 0x66, 0x77, 0x88, 0x99, 0xaa, 0xbb, 0xcc, 0xdd, 0xee, 0xff]
  const STATE0: seq<byte> := [0x00, 0x10, 0x20, 0x30, 0x40, 0x50, 0x60, 0x70, 0x80, 0x90, 0xa0, 0xb0, 0xc0, 0xd0, 0xe0, 0xf0]
  const STATE1: seq<byte> := [0x89, 0xd8, 0x10, 0xe8, 0x85, 0x5a, 0xce, 0x68, 0x2d, 0x18, 0x43, 0xd8, 0xcb, 0x12, 0x8f, 0xe4]
  const STATE2: seq<byte> := [0x49, 0x15, 0x59, 0x8f, 0x55, 0xe5, 0xd7, 0xa0, 0xda, 0xca, 0x94, 0xfa, 0x1f, 0x0a, 0x63, 0xf7]
  const STATE3: seq<byte> := [0xfa, 0x63, 0x6a, 0x28, 0x25, 0xb3, 0x39, 0xc9, 0x40, 0x66, 0x8a, 0x31, 0x57, 0x24, 0x4d, 0x17]
  const STATE4: seq<byte> := [0x24, 0x72, 0x40, 0x23, 0x69, 0x66, 0xb3, 0xfa, 0x6e, 0xd2, 0x75, 0x32, 0x88, 0x42, 0x5b, 0x6c]
  const STATE5: seq<byte> := [0xc8, 0x16, 0x77, 0xbc, 0x9b, 0x7a, 0xc9, 0x3b, 0x25, 0x02, 0x79, 0x92, 0xb0, 0x26, 0x19, 0x96]
  const STATE6: seq<byte> := [0xc6, 0x2f, 0xe1, 0x09, 0xf7, 0x5e, 0xed, 0xc3, 0xcc, 0x79, 0x39, 0x5d, 0x84, 0xf9, 0xcf, 0x5d]
  const STATE7: seq<byte> := [0xd1, 0x87, 0x6c, 0x0f, 0x79, 0xc4, 0x30, 0x0a, 0xb4, 0x55, 0x94, 0xad, 0xd6, 0x6f, 0xf4, 0x1f]
  const STATE8: seq<byte> := [0xfd, 0xe3, 0xba, 0xd2, 0x05, 0xe5, 0xd0, 0xd7, 0x35, 0x47, 0x96, 0x4e, 0xf1, 0xfe, 0x37, 0xf1]
  const STATE9: seq<byte> := [0xbd, 0x6e, 0x7c, 0x3d, 0xf2, 0xb5, 0x77, 0x9e, 0x0b, 0x61, 0x21, 0x6e, 0x8b, 0x10, 0xb6, 0x89]
  const SECRET: seq<byte> := [0x69, 0xc4, 0xe0, 0xd8, 0x6a, 0x7b, 0x04, 0x30, 0xd8, 0xcd, 0xb7, 0x80, 0x70, 0xb4, 0xc5, 0x5a]

  const MOVED1: seq<byte> := [0x63, 0x53, 0xe0, 0x8c, 0x09, 0x60, 0xe1, 0x04, 0xcd, 0x70, 0xb7, 0x51, 0xba, 0xca, 0xd0, 0xe7]
  const MOVED2: seq<byte> := [0xa7, 0xbe, 0x1a, 0x69, 0x97, 0xad, 0x73, 0x9b, 0xd8, 0xc9, 0xca, 0x45, 0x1f, 0x61, 0x8b, 0x61]
  const MOVED3: seq<byte> := [0x3b, 0xd9, 0x22, 0x68, 0xfc, 0x74, 0xfb, 0x73, 0x57, 0x67, 0xcb, 0xe0, 0xc0, 0x59, 0x0e, 0x2d]
  const MOVED4: seq<byte> := [0x2d, 0x6d, 0x7e, 0xf0, 0x3f, 0x33, 0xe3, 0x34, 0x09, 0x36, 0x02, 0xdd, 0x5b, 0xfb, 0x12, 0xc7]
  const MOVED5: seq<byte> := [0x36, 0x33, 0x9d, 0x50, 0xf9, 0xb5, 0x39, 0x26, 0x9f, 0x2c, 0x09, 0x2d, 0xc4, 0x40, 0x6d, 0x23]
  const MOVED6: seq<byte> := [0xe8, 0xda, 0xb6, 0x90, 0x14, 0x77, 0xd4, 0x65, 0x3f, 0xf7, 0xf5, 0xe2, 0xe7, 0x47, 0xdd, 0x4f]
  const MOVED7: seq<byte> := [0xb4, 0x58, 0x12, 0x4c, 0x68, 0xb6, 0x8a, 0x01, 0x4b, 0x99, 0xf8, 0x2e, 0x5f, 0x15, 0x55, 0x4c]
  const MOVED8: seq<byte> := [0x3e, 0x1c, 0x22, 0xc0, 0xb6, 0xfc, 0xbf, 0x76, 0x8d, 0xa8, 0x50, 0x67, 0xf6, 0x17, 0x04, 0x95]
  const MOVED9: seq<byte> := [0x54, 0xd9, 0x90, 0xa1, 0x6b, 0xa0, 0x9a, 0xb5, 0x96, 0xbb, 0xf4, 0x0e, 0xa1, 0x11, 0x70, 0x2f]
  const MOVED10: seq<byte> := [0x7a, 0xd5, 0xfd, 0xa7, 0x89, 0xef, 0x4e, 0x27, 0x2b, 0xca, 0x10, 0x0b, 0x3d, 0x9f, 0xf5, 0x9f]

  lemma Key1()
    ensures NextKey(KEY0, KEY1, 0x01)
  {
  }

  lemma Key2()
    ensures NextKey(KEY1, KEY2, 0x02)
  {
  }

  lemma Key3()
    ensures NextKey(KEY2, KEY3, 0x04)
  {
  }

  lemma Key4()
    ensures NextKey(KEY3, KEY4, 0x08)
  {
  }

  lemma Key5()
    ensures NextKey(KEY4, KEY5, 0x10)
  {
  }

  lemma Key6()
    ensures NextKey(KEY5, KEY6, 0x20)
  {
  }

  lemma Key7()
    ensures NextKey(KEY6, KEY7, 0x40)
  {
  }

  lemma Key8()
    ensures NextKey(KEY7, KEY8, 0x80)
  {
  }

  lemma Key9()
    ensures NextKey(KEY8, KEY9, 0x1b)
  {
  }

  lemma Key10()
    ensures NextKey(KEY9, KEY10, 0x36)
  {
  }

  lemma Moved1()
    ensures Shifted(STATE0, MOVED1)
  {
    hide ShiftedLow, ShiftedHigh;
    MovedLow1();
    MovedHigh1();
  }

  lemma MovedLow1()
    ensures ShiftedLow(STATE0, MOVED1)
  {
  }

  lemma MovedHigh1()
    ensures ShiftedHigh(STATE0, MOVED1)
  {
  }

  lemma Moved2()
    ensures Shifted(STATE1, MOVED2)
  {
    hide ShiftedLow, ShiftedHigh;
    MovedLow2();
    MovedHigh2();
  }

  lemma MovedLow2()
    ensures ShiftedLow(STATE1, MOVED2)
  {
  }

  lemma MovedHigh2()
    ensures ShiftedHigh(STATE1, MOVED2)
  {
  }

  lemma Moved3()
    ensures Shifted(STATE2, MOVED3)
  {
    hide ShiftedLow, ShiftedHigh;
    MovedLow3();
    MovedHigh3();
  }

  lemma MovedLow3()
    ensures ShiftedLow(STATE2, MOVED3)
  {
  }

  lemma MovedHigh3()
    ensures ShiftedHigh(STATE2, MOVED3)
  {
  }

  lemma Moved4()
    ensures Shifted(STATE3, MOVED4)
  {
    hide ShiftedLow, ShiftedHigh;
    MovedLow4();
    MovedHigh4();
  }

  lemma MovedLow4()
    ensures ShiftedLow(STATE3, MOVED4)
  {
  }

  lemma MovedHigh4()
    ensures ShiftedHigh(STATE3, MOVED4)
  {
  }

  lemma Moved5()
    ensures Shifted(STATE4, MOVED5)
  {
    hide ShiftedLow, ShiftedHigh;
    MovedLow5();
    MovedHigh5();
  }

  lemma MovedLow5()
    ensures ShiftedLow(STATE4, MOVED5)
  {
  }

  lemma MovedHigh5()
    ensures ShiftedHigh(STATE4, MOVED5)
  {
  }

  lemma Moved6()
    ensures Shifted(STATE5, MOVED6)
  {
    hide ShiftedLow, ShiftedHigh;
    MovedLow6();
    MovedHigh6();
  }

  lemma MovedLow6()
    ensures ShiftedLow(STATE5, MOVED6)
  {
  }

  lemma MovedHigh6()
    ensures ShiftedHigh(STATE5, MOVED6)
  {
  }

  lemma Moved7()
    ensures Shifted(STATE6, MOVED7)
  {
    hide ShiftedLow, ShiftedHigh;
    MovedLow7();
    MovedHigh7();
  }

  lemma MovedLow7()
    ensures ShiftedLow(STATE6, MOVED7)
  {
  }

  lemma MovedHigh7()
    ensures ShiftedHigh(STATE6, MOVED7)
  {
  }

  lemma Moved8()
    ensures Shifted(STATE7, MOVED8)
  {
    hide ShiftedLow, ShiftedHigh;
    MovedLow8();
    MovedHigh8();
  }

  lemma MovedLow8()
    ensures ShiftedLow(STATE7, MOVED8)
  {
  }

  lemma MovedHigh8()
    ensures ShiftedHigh(STATE7, MOVED8)
  {
  }

  lemma Moved9()
    ensures Shifted(STATE8, MOVED9)
  {
    hide ShiftedLow, ShiftedHigh;
    MovedLow9();
    MovedHigh9();
  }

  lemma MovedLow9()
    ensures ShiftedLow(STATE8, MOVED9)
  {
  }

  lemma MovedHigh9()
    ensures ShiftedHigh(STATE8, MOVED9)
  {
  }

  lemma Moved10()
    ensures Shifted(STATE9, MOVED10)
  {
    hide ShiftedLow, ShiftedHigh;
    MovedLow10();
    MovedHigh10();
  }

  lemma MovedLow10()
    ensures ShiftedLow(STATE9, MOVED10)
  {
  }

  lemma MovedHigh10()
    ensures ShiftedHigh(STATE9, MOVED10)
  {
  }

  lemma Mixed1()
    ensures Mixed(MOVED1, KEY1, STATE1)
  {
  }

  lemma Mixed2()
    ensures Mixed(MOVED2, KEY2, STATE2)
  {
  }

  lemma Mixed3()
    ensures Mixed(MOVED3, KEY3, STATE3)
  {
  }

  lemma Mixed4()
    ensures Mixed(MOVED4, KEY4, STATE4)
  {
  }

  lemma Mixed5()
    ensures Mixed(MOVED5, KEY5, STATE5)
  {
  }

  lemma Mixed6()
    ensures Mixed(MOVED6, KEY6, STATE6)
  {
  }

  lemma Mixed7()
    ensures Mixed(MOVED7, KEY7, STATE7)
  {
  }

  lemma Mixed8()
    ensures Mixed(MOVED8, KEY8, STATE8)
  {
  }

  lemma Mixed9()
    ensures Mixed(MOVED9, KEY9, STATE9)
  {
  }

  lemma Ends()
    ensures Added(PLAIN, KEY0, STATE0) && Added(MOVED10, KEY10, SECRET)
  {
  }

  lemma Keys(key: Block)
    requires key == Octets(KEY0)
    ensures HasKey(key, 0, KEY0) && HasKey(key, 1, KEY1)
    ensures HasKey(key, 2, KEY2) && HasKey(key, 3, KEY3)
    ensures HasKey(key, 4, KEY4) && HasKey(key, 5, KEY5)
    ensures HasKey(key, 6, KEY6) && HasKey(key, 7, KEY7)
    ensures HasKey(key, 8, KEY8) && HasKey(key, 9, KEY9)
    ensures HasKey(key, 10, KEY10)
  {
    hide NextKey, HasKey;
    KeyStart(key, KEY0);
    Key1();
    KeyStep(key, 0, KEY0, KEY1);
    Key2();
    KeyStep(key, 1, KEY1, KEY2);
    Key3();
    KeyStep(key, 2, KEY2, KEY3);
    Key4();
    KeyStep(key, 3, KEY3, KEY4);
    Key5();
    KeyStep(key, 4, KEY4, KEY5);
    Key6();
    KeyStep(key, 5, KEY5, KEY6);
    Key7();
    KeyStep(key, 6, KEY6, KEY7);
    Key8();
    KeyStep(key, 7, KEY7, KEY8);
    Key9();
    KeyStep(key, 8, KEY8, KEY9);
    Key10();
    KeyStep(key, 9, KEY9, KEY10);
  }

  lemma FirstRounds(key: Block, block: Block)
    requires key == Octets(KEY0) && block == Octets(PLAIN)
    ensures Rounds(Expanded(key), block, 5) == Octets(STATE5)
  {
    Keys(key);
    Ends();
    hide HasKey, Shifted, Mixed, Added, Expanded, XorBlock, SubBytes, ShiftRows, MixColumns, RoundKey, Octets;
    KeyOfRound(key, 0, KEY0);
    AddedIs(PLAIN, KEY0, STATE0);
    Moved1();
    Mixed1();
    RoundStep(key, block, 1, STATE0, MOVED1, KEY1, STATE1);
    Moved2();
    Mixed2();
    RoundStep(key, block, 2, STATE1, MOVED2, KEY2, STATE2);
    Moved3();
    Mixed3();
    RoundStep(key, block, 3, STATE2, MOVED3, KEY3, STATE3);
    Moved4();
    Mixed4();
    RoundStep(key, block, 4, STATE3, MOVED4, KEY4, STATE4);
    Moved5();
    Mixed5();
    RoundStep(key, block, 5, STATE4, MOVED5, KEY5, STATE5);
  }

  /** The ciphertext 69c4e0d86a7b0430d8cdb78070b4c55a. */
  lemma Example(key: Block, block: Block)
    requires key == Octets(KEY0) && block == Octets(PLAIN)
    ensures Cipher(Expanded(key), block) == Octets(SECRET)
  {
    Keys(key);
    Ends();
    hide HasKey, Shifted, Mixed, Added, Expanded, XorBlock, SubBytes, ShiftRows, MixColumns, RoundKey, Octets;
    FirstRounds(key, block);
    Moved6();
    Mixed6();
    RoundStep(key, block, 6, STATE5, MOVED6, KEY6, STATE6);
    Moved7();
    Mixed7();
    RoundStep(key, block, 7, STATE6, MOVED7, KEY7, STATE7);
    Moved8();
    Mixed8();
    RoundStep(key, block, 8, STATE7, MOVED8, KEY8, STATE8);
    Moved9();
    Mixed9();
    RoundStep(key, block, 9, STATE8, MOVED9, KEY9, STATE9);
    Moved10();
    ShiftedIs(STATE9, MOVED10);
    KeyOfRound(key, 10, KEY10);
    AddedIs(MOVED10, KEY10, SECRET);
  }
}
