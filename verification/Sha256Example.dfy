/**
 * The example of FIPS 180-4 for SHA-224 and SHA-256: the one block of the
 * message abc, its schedule, and the registers after every eight rounds.
 */
module Sha256Example {
  import opened Bytes
  import opened Sha256Functions
  import opened Sha256

  /** abc with its padding. */
  function Padded(): (s: seq<byte>)
    ensures |s| == BLOCK
  {
    [0x61, 0x62, 0x63, 0x80] + seq(59, _ => 0) + [0x18]
  }

  // ----- the schedule -----

  lemma NextWord(b: seq<byte>, t: nat)
    requires |b| == BLOCK && t >= 16
    ensures Schedule(b, t) == Extend(Schedule(b, t - 2), Schedule(b, t - 7), Schedule(b, t - 15), Schedule(b, t - 16))
  {
    hide Extend;
  }

  lemma FirstWord(b: seq<byte>)
    requires b == Padded()
    ensures Schedule(b, 0) == 0x6162_6380
  {
    assert b[0..4] == [0x61, 0x62, 0x63, 0x80];
  }

  lemma LastWord(b: seq<byte>)
    requires b == Padded()
    ensures Schedule(b, 15) == 0x0000_0018
  {
    assert b[60..64] == [0, 0, 0, 0x18];
  }

  lemma ZeroWord(b: seq<byte>, t: nat)
    requires b == Padded() && 0 < t < 15
    ensures Schedule(b, t) == 0
  {
    assert b[4 * t..4 * t + 4] == [0, 0, 0, 0];
  }

  lemma Words0(b: seq<byte>, n: nat)
    requires b == Padded() && n == 0
    ensures Schedule(b, n) == 0x6162_6380 && Schedule(b, n + 1) == 0x0000_0000
    ensures Schedule(b, n + 2) == 0x0000_0000 && Schedule(b, n + 3) == 0x0000_0000
    ensures Schedule(b, n + 4) == 0x0000_0000 && Schedule(b, n + 5) == 0x0000_0000
    ensures Schedule(b, n + 6) == 0x0000_0000 && Schedule(b, n + 7) == 0x0000_0000
  {
    FirstWord(b);
    hide Padded, Schedule;
    ZeroWord(b, n + 1);
    ZeroWord(b, n + 2);
    ZeroWord(b, n + 3);
    ZeroWord(b, n + 4);
    ZeroWord(b, n + 5);
    ZeroWord(b, n + 6);
    ZeroWord(b, n + 7);
  }

  lemma Words1(b: seq<byte>, n: nat)
    requires b == Padded() && n == 8
    ensures Schedule(b, n) == 0x0000_0000 && Schedule(b, n + 1) == 0x0000_0000
    ensures Schedule(b, n + 2) == 0x0000_0000 && Schedule(b, n + 3) == 0x0000_0000
    ensures Schedule(b, n + 4) == 0x0000_0000 && Schedule(b, n + 5) == 0x0000_0000
    ensures Schedule(b, n + 6) == 0x0000_0000 && Schedule(b, n + 7) == 0x0000_0018
  {
    hide Padded, Schedule;
    ZeroWord(b, n);
    ZeroWord(b, n + 1);
    ZeroWord(b, n + 2);
    ZeroWord(b, n + 3);
    ZeroWord(b, n + 4);
    ZeroWord(b, n + 5);
    ZeroWord(b, n + 6);
    LastWord(b);
  }

  lemma Extended2()
    ensures Extend(0x0000_0000, 0x0000_0000, 0x0000_0000, 0x6162_6380) == 0x6162_6380
    ensures Extend(0x0000_0018, 0x0000_0000, 0x0000_0000, 0x0000_0000) == 0x000f_0000
    ensures Extend(0x6162_6380, 0x0000_0000, 0x0000_0000, 0x0000_0000) == 0x7da8_6405
    ensures Extend(0x000f_0000, 0x0000_0000, 0x0000_0000, 0x0000_0000) == 0x6000_03c6
    ensures Extend(0x7da8_6405, 0x0000_0000, 0x0000_0000, 0x0000_0000) == 0x3e9d_7b78
    ensures Extend(0x6000_03c6, 0x0000_0000, 0x0000_0000, 0x0000_0000) == 0x0183_fc00
    ensures Extend(0x3e9d_7b78, 0x0000_0018, 0x0000_0000, 0x0000_0000) == 0x12dc_bfdb
    ensures Extend(0x0183_fc00, 0x6162_6380, 0x0000_0000, 0x0000_0000) == 0xe2e2_c38e
  {
  }

  lemma Words2(b: seq<byte>, n: nat)
    requires b == Padded() && n == 16
    ensures Schedule(b, n) == 0x6162_6380 && Schedule(b, n + 1) == 0x000f_0000
    ensures Schedule(b, n + 2) == 0x7da8_6405 && Schedule(b, n + 3) == 0x6000_03c6
    ensures Schedule(b, n + 4) == 0x3e9d_7b78 && Schedule(b, n + 5) == 0x0183_fc00
    ensures Schedule(b, n + 6) == 0x12dc_bfdb && Schedule(b, n + 7) == 0xe2e2_c38e
  {
    hide *;
    Words1(b, n - 8);
    Words0(b, n - 16);
    Extended2();
    NextWord(b, n);
    NextWord(b, n + 1);
    NextWord(b, n + 2);
    NextWord(b, n + 3);
    NextWord(b, n + 4);
    NextWord(b, n + 5);
    NextWord(b, n + 6);
    NextWord(b, n + 7);
  }

  lemma Extended3()
    ensures Extend(0x12dc_bfdb, 0x000f_0000, 0x0000_0000, 0x0000_0000) == 0xc821_5c1a
    ensures Extend(0xe2e2_c38e, 0x7da8_6405, 0x0000_0000, 0x0000_0000) == 0xb736_79a2
    ensures Extend(0xc821_5c1a, 0x6000_03c6, 0x0000_0000, 0x0000_0000) == 0xe5bc_3909
    ensures Extend(0xb736_79a2, 0x3e9d_7b78, 0x0000_0000, 0x0000_0000) == 0x3266_3c5b
    ensures Extend(0xe5bc_3909, 0x0183_fc00, 0x0000_0000, 0x0000_0000) == 0x9d20_9d67
    ensures Extend(0x3266_3c5b, 0x12dc_bfdb, 0x0000_0000, 0x0000_0000) == 0xec87_26cb
    ensures Extend(0x9d20_9d67, 0xe2e2_c38e, 0x0000_0018, 0x0000_0000) == 0x7021_38a4
    ensures Extend(0xec87_26cb, 0xc821_5c1a, 0x6162_6380, 0x0000_0018) == 0xd3b7_973b
  {
  }

  lemma Words3(b: seq<byte>, n: nat)
    requires b == Padded() && n == 24
    ensures Schedule(b, n) == 0xc821_5c1a && Schedule(b, n + 1) == 0xb736_79a2
    ensures Schedule(b, n + 2) == 0xe5bc_3909 && Schedule(b, n + 3) == 0x3266_3c5b
    ensures Schedule(b, n + 4) == 0x9d20_9d67 && Schedule(b, n + 5) == 0xec87_26cb
    ensures Schedule(b, n + 6) == 0x7021_38a4 && Schedule(b, n + 7) == 0xd3b7_973b
  {
    hide *;
    Words2(b, n - 8);
    Words1(b, n - 16);
    Extended3();
    NextWord(b, n);
    NextWord(b, n + 1);
    NextWord(b, n + 2);
    NextWord(b, n + 3);
    NextWord(b, n + 4);
    NextWord(b, n + 5);
    NextWord(b, n + 6);
    NextWord(b, n + 7);
  }

  lemma Extended4()
    ensures Extend(0x7021_38a4, 0xb736_79a2, 0x000f_0000, 0x6162_6380) == 0x93f5_997f
    ensures Extend(0xd3b7_973b, 0xe5bc_3909, 0x7da8_6405, 0x000f_0000) == 0x3b68_ba73
    ensures Extend(0x93f5_997f, 0x3266_3c5b, 0x6000_03c6, 0x7da8_6405) == 0xaff4_ffc1
    ensures Extend(0x3b68_ba73, 0x9d20_9d67, 0x3e9d_7b78, 0x6000_03c6) == 0xf10a_5c62
    ensures Extend(0xaff4_ffc1, 0xec87_26cb, 0x0183_fc00, 0x3e9d_7b78) == 0x0a8b_3996
    ensures Extend(0xf10a_5c62, 0x7021_38a4, 0x12dc_bfdb, 0x0183_fc00) == 0x72af_830a
    ensures Extend(0x0a8b_3996, 0xd3b7_973b, 0xe2e2_c38e, 0x12dc_bfdb) == 0x9409_e33e
    ensures Extend(0x72af_830a, 0x93f5_997f, 0xc821_5c1a, 0xe2e2_c38e) == 0x2464_1522
  {
  }

  lemma Words4(b: seq<byte>, n: nat)
    requires b == Padded() && n == 32
    ensures Schedule(b, n) == 0x93f5_997f && Schedule(b, n + 1) == 0x3b68_ba73
    ensures Schedule(b, n + 2) == 0xaff4_ffc1 && Schedule(b, n + 3) == 0xf10a_5c62
    ensures Schedule(b, n + 4) == 0x0a8b_3996 && Schedule(b, n + 5) == 0x72af_830a
    ensures Schedule(b, n + 6) == 0x9409_e33e && Schedule(b, n + 7) == 0x2464_1522
  {
    hide *;
    Words3(b, n - 8);
    Words2(b, n - 16);
    Extended4();
    NextWord(b, n);
    NextWord(b, n + 1);
    NextWord(b, n + 2);
    NextWord(b, n + 3);
    NextWord(b, n + 4);
    NextWord(b, n + 5);
    NextWord(b, n + 6);
    NextWord(b, n + 7);
  }

  lemma Extended5()
    ensures Extend(0x9409_e33e, 0x3b68_ba73, 0xb736_79a2, 0xc821_5c1a) == 0x9f47_bf94
    ensures Extend(0x2464_1522, 0xaff4_ffc1, 0xe5bc_3909, 0xb736_79a2) == 0xf0a6_4f5a
    ensures Extend(0x9f47_bf94, 0xf10a_5c62, 0x3266_3c5b, 0xe5bc_3909) == 0x3e24_6a79
    ensures Extend(0xf0a6_4f5a, 0x0a8b_3996, 0x9d20_9d67, 0x3266_3c5b) == 0x2733_3ba3
    ensures Extend(0x3e24_6a79, 0x72af_830a, 0xec87_26cb, 0x9d20_9d67) == 0x0c47_63f2
    ensures Extend(0x2733_3ba3, 0x9409_e33e, 0x7021_38a4, 0xec87_26cb) == 0x840a_bf27
    ensures Extend(0x0c47_63f2, 0x2464_1522, 0xd3b7_973b, 0x7021_38a4) == 0x7a29_0d5d
    ensures Extend(0x840a_bf27, 0x9f47_bf94, 0x93f5_997f, 0xd3b7_973b) == 0x065c_43da
  {
  }

  lemma Words5(b: seq<byte>, n: nat)
    requires b == Padded() && n == 40
    ensures Schedule(b, n) == 0x9f47_bf94 && Schedule(b, n + 1) == 0xf0a6_4f5a
    ensures Schedule(b, n + 2) == 0x3e24_6a79 && Schedule(b, n + 3) == 0x2733_3ba3
    ensures Schedule(b, n + 4) == 0x0c47_63f2 && Schedule(b, n + 5) == 0x840a_bf27
    ensures Schedule(b, n + 6) == 0x7a29_0d5d && Schedule(b, n + 7) == 0x065c_43da
  {
    hide *;
    Words4(b, n - 8);
    Words3(b, n - 16);
    Extended5();
    NextWord(b, n);
    NextWord(b, n + 1);
    NextWord(b, n + 2);
    NextWord(b, n + 3);
    NextWord(b, n + 4);
    NextWord(b, n + 5);
    NextWord(b, n + 6);
    NextWord(b, n + 7);
  }

  lemma Extended6()
    ensures Extend(0x7a29_0d5d, 0xf0a6_4f5a, 0x3b68_ba73, 0x93f5_997f) == 0xfb3e_89cb
    ensures Extend(0x065c_43da, 0x3e24_6a79, 0xaff4_ffc1, 0x3b68_ba73) == 0xcc76_17db
    ensures Extend(0xfb3e_89cb, 0x2733_3ba3, 0xf10a_5c62, 0xaff4_ffc1) == 0xb9e6_6c34
    ensures Extend(0xcc76_17db, 0x0c47_63f2, 0x0a8b_3996, 0xf10a_5c62) == 0xa999_3667
    ensures Extend(0xb9e6_6c34, 0x840a_bf27, 0x72af_830a, 0x0a8b_3996) == 0x84ba_dedd
    ensures Extend(0xa999_3667, 0x7a29_0d5d, 0x9409_e33e, 0x72af_830a) == 0xc214_62bc
    ensures Extend(0x84ba_dedd, 0x065c_43da, 0x2464_1522, 0x9409_e33e) == 0x1487_472c
    ensures Extend(0xc214_62bc, 0xfb3e_89cb, 0x9f47_bf94, 0x2464_1522) == 0xb20f_7a99
  {
  }

  lemma Words6(b: seq<byte>, n: nat)
    requires b == Padded() && n == 48
    ensures Schedule(b, n) == 0xfb3e_89cb && Schedule(b, n + 1) == 0xcc76_17db
    ensures Schedule(b, n + 2) == 0xb9e6_6c34 && Schedule(b, n + 3) == 0xa999_3667
    ensures Schedule(b, n + 4) == 0x84ba_dedd && Schedule(b, n + 5) == 0xc214_62bc
    ensures Schedule(b, n + 6) == 0x1487_472c && Schedule(b, n + 7) == 0xb20f_7a99
  {
    hide *;
    Words5(b, n - 8);
    Words4(b, n - 16);
    Extended6();
    NextWord(b, n);
    NextWord(b, n + 1);
    NextWord(b, n + 2);
    NextWord(b, n + 3);
    NextWord(b, n + 4);
    NextWord(b, n + 5);
    NextWord(b, n + 6);
    NextWord(b, n + 7);
  }

  lemma Extended7()
    ensures Extend(0x1487_472c, 0xcc76_17db, 0xf0a6_4f5a, 0x9f47_bf94) == 0xef57_b9cd
    ensures Extend(0xb20f_7a99, 0xb9e6_6c34, 0x3e24_6a79, 0xf0a6_4f5a) == 0xebe6_b238
    ensures Extend(0xef57_b9cd, 0xa999_3667, 0x2733_3ba3, 0x3e24_6a79) == 0x9fe3_095e
    ensures Extend(0xebe6_b238, 0x84ba_dedd, 0x0c47_63f2, 0x2733_3ba3) == 0x78bc_8d4b
    ensures Extend(0x9fe3_095e, 0xc214_62bc, 0x840a_bf27, 0x0c47_63f2) == 0xa43f_cf15
    ensures Extend(0x78bc_8d4b, 0x1487_472c, 0x7a29_0d5d, 0x840a_bf27) == 0x668b_2ff8
    ensures Extend(0xa43f_cf15, 0xb20f_7a99, 0x065c_43da, 0x7a29_0d5d) == 0xeeab_a2cc
    ensures Extend(0x668b_2ff8, 0xef57_b9cd, 0xfb3e_89cb, 0x065c_43da) == 0x12b1_edeb
  {
  }

  lemma Words7(b: seq<byte>, n: nat)
    requires b == Padded() && n == 56
    ensures Schedule(b, n) == 0xef57_b9cd && Schedule(b, n + 1) == 0xebe6_b238
    ensures Schedule(b, n + 2) == 0x9fe3_095e && Schedule(b, n + 3) == 0x78bc_8d4b
    ensures Schedule(b, n + 4) == 0xa43f_cf15 && Schedule(b, n + 5) == 0x668b_2ff8
    ensures Schedule(b, n + 6) == 0xeeab_a2cc && Schedule(b, n + 7) == 0x12b1_edeb
  {
    hide *;
    Words6(b, n - 8);
    Words5(b, n - 16);
    Extended7();
    NextWord(b, n);
    NextWord(b, n + 1);
    NextWord(b, n + 2);
    NextWord(b, n + 3);
    NextWord(b, n + 4);
    NextWord(b, n + 5);
    NextWord(b, n + 6);
    NextWord(b, n + 7);
  }

  // ----- the rounds -----

  lemma Keys0(n: nat)
    requires n == 0
    ensures var k := Constants();
      && k[n] == 0x428a_2f98 && k[n + 1] == 0x7137_4491
      && k[n + 2] == 0xb5c0_fbcf && k[n + 3] == 0xe9b5_dba5
      && k[n + 4] == 0x3956_c25b && k[n + 5] == 0x59f1_11f1
      && k[n + 6] == 0x923f_82a4 && k[n + 7] == 0xab1c_5ed5
  {
  }

  lemma Keys1(n: nat)
    requires n == 8
    ensures var k := Constants();
      && k[n] == 0xd807_aa98 && k[n + 1] == 0x1283_5b01
      && k[n + 2] == 0x2431_85be && k[n + 3] == 0x550c_7dc3
      && k[n + 4] == 0x72be_5d74 && k[n + 5] == 0x80de_b1fe
      && k[n + 6] == 0x9bdc_06a7 && k[n + 7] == 0xc19b_f174
  {
  }

  lemma Keys2(n: nat)
    requires n == 16
    ensures var k := Constants();
      && k[n] == 0xe49b_69c1 && k[n + 1] == 0xefbe_4786
      && k[n + 2] == 0x0fc1_9dc6 && k[n + 3] == 0x240c_a1cc
      && k[n + 4] == 0x2de9_2c6f && k[n + 5] == 0x4a74_84aa
      && k[n + 6] == 0x5cb0_a9dc && k[n + 7] == 0x76f9_88da
  {
  }

  lemma Keys3(n: nat)
    requires n == 24
    ensures var k := Constants();
      && k[n] == 0x983e_5152 && k[n + 1] == 0xa831_c66d
      && k[n + 2] == 0xb003_27c8 && k[n + 3] == 0xbf59_7fc7
      && k[n + 4] == 0xc6e0_0bf3 && k[n + 5] == 0xd5a7_9147
      && k[n + 6] == 0x06ca_6351 && k[n + 7] == 0x1429_2967
  {
  }

  lemma Keys4(n: nat)
    requires n == 32
    ensures var k := Constants();
      && k[n] == 0x27b7_0a85 && k[n + 1] == 0x2e1b_2138
      && k[n + 2] == 0x4d2c_6dfc && k[n + 3] == 0x5338_0d13
      && k[n + 4] == 0x650a_7354 && k[n + 5] == 0x766a_0abb
      && k[n + 6] == 0x81c2_c92e && k[n + 7] == 0x9272_2c85
  {
  }

  lemma Keys5(n: nat)
    requires n == 40
    ensures var k := Constants();
      && k[n] == 0xa2bf_e8a1 && k[n + 1] == 0xa81a_664b
      && k[n + 2] == 0xc24b_8b70 && k[n + 3] == 0xc76c_51a3
      && k[n + 4] == 0xd192_e819 && k[n + 5] == 0xd699_0624
      && k[n + 6] == 0xf40e_3585 && k[n + 7] == 0x106a_a070
  {
  }

  lemma Keys6(n: nat)
    requires n == 48
    ensures var k := Constants();
      && k[n] == 0x19a4_c116 && k[n + 1] == 0x1e37_6c08
      && k[n + 2] == 0x2748_774c && k[n + 3] == 0x34b0_bcb5
      && k[n + 4] == 0x391c_0cb3 && k[n + 5] == 0x4ed8_aa4a
      && k[n + 6] == 0x5b9c_ca4f && k[n + 7] == 0x682e_6ff3
  {
  }

  lemma Keys7(n: nat)
    requires n == 56
    ensures var k := Constants();
      && k[n] == 0x748f_82ee && k[n + 1] == 0x78a5_636f
      && k[n + 2] == 0x84c8_7814 && k[n + 3] == 0x8cc7_0208
      && k[n + 4] == 0x90be_fffa && k[n + 5] == 0xa450_6ceb
      && k[n + 6] == 0xbef9_a3f7 && k[n + 7] == 0xc671_78f2
  {
  }

  lemma Short0(h: seq<Word>, b: seq<byte>)
    requires h == ShortStart() && |b| == BLOCK
    ensures Rounds(h, b, 0) == [
      0xc105_9ed8, 0x367c_d507, 0x3070_dd17, 0xf70e_5939,
      0xffc0_0b31, 0x6858_1511, 0x64f9_8fa7, 0xbefa_4fa4
    ]
  {
    NoRounds(h, b);
    hide Rounds;
  }

  lemma Short1(h: seq<Word>, b: seq<byte>)
    requires h == ShortStart() && b == Padded()
    ensures Rounds(h, b, 4) == [
      0x8253_cc1a, 0xab11_3b7a, 0xc20d_ab6b, 0x0e96_b2da,
      0x8346_b27d, 0x8217_7fe8, 0x9cab_416f, 0x0434_225e
    ]
  {
    hide Schedule, Padded, Rounds, Constants, ShortStart;
    Short0(h, b);
    Words0(b, 0);
    Keys0(0);
    NextRound(h, b, 0);
    NextRound(h, b, 1);
    NextRound(h, b, 2);
    NextRound(h, b, 3);
  }

  lemma Short2(h: seq<Word>, b: seq<byte>)
    requires h == ShortStart() && b == Padded()
    ensures Rounds(h, b, 5) == [
      0x08a0_dc0c, 0x8253_cc1a, 0xab11_3b7a, 0xc20d_ab6b,
      0x05b5_57db, 0x8346_b27d, 0x8217_7fe8, 0x9cab_416f
    ]
  {
    hide Schedule, Padded, Rounds, Constants, ShortStart;
    Short1(h, b);
    Words0(b, 0);
    Keys0(0);
    NextRound(h, b, 4);
  }

  lemma Short3(h: seq<Word>, b: seq<byte>)
    requires h == ShortStart() && b == Padded()
    ensures Rounds(h, b, 6) == [
      0xb2ca_3a91, 0x08a0_dc0c, 0x8253_cc1a, 0xab11_3b7a,
      0x898d_c7bb, 0x05b5_57db, 0x8346_b27d, 0x8217_7fe8
    ]
  {
    hide Schedule, Padded, Rounds, Constants, ShortStart;
    Short2(h, b);
    Words0(b, 0);
    Keys0(0);
    NextRound(h, b, 5);
  }

  lemma Short4(h: seq<Word>, b: seq<byte>)
    requires h == ShortStart() && b == Padded()
    ensures Rounds(h, b, 7) == [
      0x0b6b_9023, 0xb2ca_3a91, 0x08a0_dc0c, 0x8253_cc1a,
      0xa2e4_9147, 0x898d_c7bb, 0x05b5_57db, 0x8346_b27d
    ]
  {
    hide Schedule, Padded, Rounds, Constants, ShortStart;
    Short3(h, b);
    Words0(b, 0);
    Keys0(0);
    NextRound(h, b, 6);
  }

  lemma Short5(h: seq<Word>, b: seq<byte>)
    requires h == ShortStart() && b == Padded()
    ensures Rounds(h, b, 8) == [
      0xf09d_116d, 0x0b6b_9023, 0xb2ca_3a91, 0x08a0_dc0c,
      0x7a84_120d, 0xa2e4_9147, 0x898d_c7bb, 0x05b5_57db
    ]
  {
    hide Schedule, Padded, Rounds, Constants, ShortStart;
    Short4(h, b);
    Words0(b, 0);
    Keys0(0);
    NextRound(h, b, 7);
  }

  lemma Short6(h: seq<Word>, b: seq<byte>)
    requires h == ShortStart() && b == Padded()
    ensures Rounds(h, b, 16) == [
      0x9f34_1a45, 0x1d80_d178, 0xbe31_6902, 0xfc4f_023e,
      0x6a61_c411, 0x4545_f53a, 0x6514_1125, 0x87be_a51a
    ]
  {
    hide Schedule, Padded, Rounds, Constants, ShortStart;
    Short5(h, b);
    Words1(b, 8);
    Keys1(8);
    NextRound(h, b, 8);
    NextRound(h, b, 9);
    NextRound(h, b, 10);
    NextRound(h, b, 11);
    NextRound(h, b, 12);
    NextRound(h, b, 13);
    NextRound(h, b, 14);
    NextRound(h, b, 15);
  }

  lemma Short7(h: seq<Word>, b: seq<byte>, n: nat)
    requires h == ShortStart() && b == Padded() && n == 16
    ensures Rounds(h, b, n + 8) == [
      0x5720_6fb8, 0xe62a_812e, 0xdece_98a4, 0x07d5_5ccb,
      0xc760_84ea, 0x28fe_0fd9, 0x293f_fb5d, 0x9ba5_a6ea
    ]
  {
    hide Schedule, Padded, Rounds, Constants, ShortStart;
    Short6(h, b);
    Words2(b, n);
    Keys2(n);
    NextRound(h, b, n);
    NextRound(h, b, n + 1);
    NextRound(h, b, n + 2);
    NextRound(h, b, n + 3);
    NextRound(h, b, n + 4);
    NextRound(h, b, n + 5);
    NextRound(h, b, n + 6);
    NextRound(h, b, n + 7);
  }

  lemma Short8(h: seq<Word>, b: seq<byte>, n: nat)
    requires h == ShortStart() && b == Padded() && n == 24
    ensures Rounds(h, b, n + 8) == [
      0xcce1_951d, 0x0d7c_ce07, 0xfe3c_8658, 0x2d15_76c4,
      0x4be9_475c, 0xa4a4_a3a4, 0xfc4b_36c5, 0x0164_1929
    ]
  {
    hide Schedule, Padded, Rounds, Constants, ShortStart;
    Short7(h, b, n - 8);
    Words3(b, n);
    Keys3(n);
    NextRound(h, b, n);
    NextRound(h, b, n + 1);
    NextRound(h, b, n + 2);
    NextRound(h, b, n + 3);
    NextRound(h, b, n + 4);
    NextRound(h, b, n + 5);
    NextRound(h, b, n + 6);
    NextRound(h, b, n + 7);
  }

  lemma Short9(h: seq<Word>, b: seq<byte>, n: nat)
    requires h == ShortStart() && b == Padded() && n == 32
    ensures Rounds(h, b, n + 8) == [
      0xf3c8_0288, 0x7902_369c, 0x0d27_5ca8, 0x2a2e_32f4,
      0x00e3_a7bb, 0xd9f8_c2e0, 0xf6c3_9382, 0x22e1_5c59
    ]
  {
    hide Schedule, Padded, Rounds, Constants, ShortStart;
    Short8(h, b, n - 8);
    Words4(b, n);
    Keys4(n);
    NextRound(h, b, n);
    NextRound(h, b, n + 1);
    NextRound(h, b, n + 2);
    NextRound(h, b, n + 3);
    NextRound(h, b, n + 4);
    NextRound(h, b, n + 5);
    NextRound(h, b, n + 6);
    NextRound(h, b, n + 7);
  }

  lemma Short10(h: seq<Word>, b: seq<byte>, n: nat)
    requires h == ShortStart() && b == Padded() && n == 40
    ensures Rounds(h, b, n + 8) == [
      0x847e_a00e, 0xfb37_77d9, 0x131d_4c09, 0xa370_1bd9,
      0x503a_7b95, 0x1d60_1f44, 0xecb7_7e1b, 0xaf1b_ef5f
    ]
  {
    hide Schedule, Padded, Rounds, Constants, ShortStart;
    Short9(h, b, n - 8);
    Words5(b, n);
    Keys5(n);
    NextRound(h, b, n);
    NextRound(h, b, n + 1);
    NextRound(h, b, n + 2);
    NextRound(h, b, n + 3);
    NextRound(h, b, n + 4);
    NextRound(h, b, n + 5);
    NextRound(h, b, n + 6);
    NextRound(h, b, n + 7);
  }

  lemma Short11(h: seq<Word>, b: seq<byte>, n: nat)
    requires h == ShortStart() && b == Padded() && n == 48
    ensures Rounds(h, b, n + 8) == [
      0x8d25_bd94, 0x909c_c059, 0x308b_8799, 0x0df9_857a,
      0x1273_c622, 0x6f2a_444a, 0x0252_4f02, 0x2d86_4d9f
    ]
  {
    hide Schedule, Padded, Rounds, Constants, ShortStart;
    Short10(h, b, n - 8);
    Words6(b, n);
    Keys6(n);
    NextRound(h, b, n);
    NextRound(h, b, n + 1);
    NextRound(h, b, n + 2);
    NextRound(h, b, n + 3);
    NextRound(h, b, n + 4);
    NextRound(h, b, n + 5);
    NextRound(h, b, n + 6);
    NextRound(h, b, n + 7);
  }

  lemma Short12(h: seq<Word>, b: seq<byte>, n: nat)
    requires h == ShortStart() && b == Padded() && n == 56
    ensures Rounds(h, b, n + 8) == [
      0x6203_de4a, 0xfd89_031b, 0x55d1_c760, 0xc693_fc7a,
      0x2aed_b1b3, 0x5548_9ee6, 0x7e73_0e00, 0x13df_b889
    ]
  {
    hide Schedule, Padded, Rounds, Constants, ShortStart;
    Short11(h, b, n - 8);
    Words7(b, n);
    Keys7(n);
    NextRound(h, b, n);
    NextRound(h, b, n + 1);
    NextRound(h, b, n + 2);
    NextRound(h, b, n + 3);
    NextRound(h, b, n + 4);
    NextRound(h, b, n + 5);
    NextRound(h, b, n + 6);
    NextRound(h, b, n + 7);
  }

  lemma ShortSum(h: seq<Word>, b: seq<byte>)
    requires h == ShortStart() && b == Padded()
    ensures Compress(h, b) == [
      0x2309_7d22, 0x3405_d822, 0x8642_a477, 0xbda2_55b3,
      0x2aad_bce4, 0xbda0_b3f7, 0xe36c_9da7, 0xd2da_082d
    ]
  {
    hide Padded, Rounds;
    Short12(h, b, 56);
  }

  lemma Full0(h: seq<Word>, b: seq<byte>)
    requires h == Start() && |b| == BLOCK
    ensures Rounds(h, b, 0) == [
      0x6a09_e667, 0xbb67_ae85, 0x3c6e_f372, 0xa54f_f53a,
      0x510e_527f, 0x9b05_688c, 0x1f83_d9ab, 0x5be0_cd19
    ]
  {
    NoRounds(h, b);
    hide Rounds;
  }

  lemma Full1(h: seq<Word>, b: seq<byte>)
    requires h == Start() && b == Padded()
    ensures Rounds(h, b, 4) == [
      0xd550_f666, 0xc8c3_47a7, 0x5a6a_d9ad, 0x5d6a_ebcd,
      0x24e0_0850, 0xf929_39eb, 0x78ce_7989, 0xfa2a_4622
    ]
  {
    hide Schedule, Padded, Rounds, Constants, Start;
    Full0(h, b);
    Words0(b, 0);
    Keys0(0);
    NextRound(h, b, 0);
    NextRound(h, b, 1);
    NextRound(h, b, 2);
    NextRound(h, b, 3);
  }

  lemma Full2(h: seq<Word>, b: seq<byte>)
    requires h == Start() && b == Padded()
    ensures Rounds(h, b, 5) == [
      0x0440_9a6a, 0xd550_f666, 0xc8c3_47a7, 0x5a6a_d9ad,
      0x43ad_a245, 0x24e0_0850, 0xf929_39eb, 0x78ce_7989
    ]
  {
    hide Schedule, Padded, Rounds, Constants, Start;
    Full1(h, b);
    Words0(b, 0);
    Keys0(0);
    NextRound(h, b, 4);
  }

  lemma Full3(h: seq<Word>, b: seq<byte>)
    requires h == Start() && b == Padded()
    ensures Rounds(h, b, 6) == [
      0x2b42_09f5, 0x0440_9a6a, 0xd550_f666, 0xc8c3_47a7,
      0x7142_60ad, 0x43ad_a245, 0x24e0_0850, 0xf929_39eb
    ]
  {
    hide Schedule, Padded, Rounds, Constants, Start;
    Full2(h, b);
    Words0(b, 0);
    Keys0(0);
    NextRound(h, b, 5);
  }

  lemma Full4(h: seq<Word>, b: seq<byte>)
    requires h == Start() && b == Padded()
    ensures Rounds(h, b, 7) == [
      0xe503_0380, 0x2b42_09f5, 0x0440_9a6a, 0xd550_f666,
      0x9b27_a401, 0x7142_60ad, 0x43ad_a245, 0x24e0_0850
    ]
  {
    hide Schedule, Padded, Rounds, Constants, Start;
    Full3(h, b);
    Words0(b, 0);
    Keys0(0);
    NextRound(h, b, 6);
  }

  lemma Full5(h: seq<Word>, b: seq<byte>)
    requires h == Start() && b == Padded()
    ensures Rounds(h, b, 8) == [
      0x85a0_7b5f, 0xe503_0380, 0x2b42_09f5, 0x0440_9a6a,
      0x0c65_7a79, 0x9b27_a401, 0x7142_60ad, 0x43ad_a245
    ]
  {
    hide Schedule, Padded, Rounds, Constants, Start;
    Full4(h, b);
    Words0(b, 0);
    Keys0(0);
    NextRound(h, b, 7);
  }

  lemma Full6(h: seq<Word>, b: seq<byte>)
    requires h == Start() && b == Padded()
    ensures Rounds(h, b, 16) == [
      0xb0fa_238e, 0xc064_5fde, 0xd932_eb16, 0x8791_2990,
      0x0759_0dcd, 0x0b92_f20c, 0x745a_48de, 0x1e57_8218
    ]
  {
    hide Schedule, Padded, Rounds, Constants, Start;
    Full5(h, b);
    Words1(b, 8);
    Keys1(8);
    NextRound(h, b, 8);
    NextRound(h, b, 9);
    NextRound(h, b, 10);
    NextRound(h, b, 11);
    NextRound(h, b, 12);
    NextRound(h, b, 13);
    NextRound(h, b, 14);
    NextRound(h, b, 15);
  }

  lemma Full7(h: seq<Word>, b: seq<byte>, n: nat)
    requires h == Start() && b == Padded() && n == 16
    ensures Rounds(h, b, n + 8) == [
      0xc5d5_3d8d, 0xa7a3_623f, 0xc260_6d6d, 0x9dc6_8b63,
      0xaa47_c347, 0x49f5_114a, 0xe125_7970, 0x8ada_8930
    ]
  {
    hide Schedule, Padded, Rounds, Constants, Start;
    Full6(h, b);
    Words2(b, n);
    Keys2(n);
    NextRound(h, b, n);
    NextRound(h, b, n + 1);
    NextRound(h, b, n + 2);
    NextRound(h, b, n + 3);
    NextRound(h, b, n + 4);
    NextRound(h, b, n + 5);
    NextRound(h, b, n + 6);
    NextRound(h, b, n + 7);
  }

  lemma Full8(h: seq<Word>, b: seq<byte>, n: nat)
    requires h == Start() && b == Padded() && n == 24
    ensures Rounds(h, b, n + 8) == [
      0x73b3_3bf5, 0xea99_2a22, 0xa006_0b30, 0x3634_82c9,
      0xba59_1112, 0x0109_ab3a, 0xade7_9437, 0x6112_a3b7
    ]
  {
    hide Schedule, Padded, Rounds, Constants, Start;
    Full7(h, b, n - 8);
    Words3(b, n);
    Keys3(n);
    NextRound(h, b, n);
    NextRound(h, b, n + 1);
    NextRound(h, b, n + 2);
    NextRound(h, b, n + 3);
    NextRound(h, b, n + 4);
    NextRound(h, b, n + 5);
    NextRound(h, b, n + 6);
    NextRound(h, b, n + 7);
  }

  lemma Full9(h: seq<Word>, b: seq<byte>, n: nat)
    requires h == Start() && b == Padded() && n == 32
    ensures Rounds(h, b, n + 8) == [
      0x79ea_687a, 0x6dc5_7a8a, 0x34df_1604, 0x41a6_5cb1,
      0x1efb_c0a0, 0xf078_1bc8, 0xa507_a53d, 0x0772_a26b
    ]
  {
    hide Schedule, Padded, Rounds, Constants, Start;
    Full8(h, b, n - 8);
    Words4(b, n);
    Keys4(n);
    NextRound(h, b, n);
    NextRound(h, b, n + 1);
    NextRound(h, b, n + 2);
    NextRound(h, b, n + 3);
    NextRound(h, b, n + 4);
    NextRound(h, b, n + 5);
    NextRound(h, b, n + 6);
    NextRound(h, b, n + 7);
  }

  lemma Full10(h: seq<Word>, b: seq<byte>, n: nat)
    requires h == Start() && b == Padded() && n == 40
    ensures Rounds(h, b, n + 8) == [
      0x4172_328d, 0xa14c_14b0, 0x72ab_4b91, 0x2662_8815,
      0xfecf_0bc6, 0xd57b_94a9, 0xb775_5da1, 0xa80f_11f0
    ]
  {
    hide Schedule, Padded, Rounds, Constants, Start;
    Full9(h, b, n - 8);
    Words5(b, n);
    Keys5(n);
    NextRound(h, b, n);
    NextRound(h, b, n + 1);
    NextRound(h, b, n + 2);
    NextRound(h, b, n + 3);
    NextRound(h, b, n + 4);
    NextRound(h, b, n + 5);
    NextRound(h, b, n + 6);
    NextRound(h, b, n + 7);
  }

  lemma Full11(h: seq<Word>, b: seq<byte>, n: nat)
    requires h == Start() && b == Padded() && n == 48
    ensures Rounds(h, b, n + 8) == [
      0x38cc_9913, 0x3ec4_5cdb, 0xf570_2fdb, 0x101f_d28f,
      0x54cb_266b, 0xe50e_1b4f, 0x9f47_87c3, 0x529e_7d00
    ]
  {
    hide Schedule, Padded, Rounds, Constants, Start;
    Full10(h, b, n - 8);
    Words6(b, n);
    Keys6(n);
    NextRound(h, b, n);
    NextRound(h, b, n + 1);
    NextRound(h, b, n + 2);
    NextRound(h, b, n + 3);
    NextRound(h, b, n + 4);
    NextRound(h, b, n + 5);
    NextRound(h, b, n + 6);
    NextRound(h, b, n + 7);
  }

  lemma Full12(h: seq<Word>, b: seq<byte>, n: nat)
    requires h == Start() && b == Padded() && n == 56
    ensures Rounds(h, b, n + 8) == [
      0x506e_3058, 0xd39a_2165, 0x04d2_4d6c, 0xb85e_2ce9,
      0x5ef5_0f24, 0xfb12_1210, 0x948d_25b6, 0x961f_4894
    ]
  {
    hide Schedule, Padded, Rounds, Constants, Start;
    Full11(h, b, n - 8);
    Words7(b, n);
    Keys7(n);
    NextRound(h, b, n);
    NextRound(h, b, n + 1);
    NextRound(h, b, n + 2);
    NextRound(h, b, n + 3);
    NextRound(h, b, n + 4);
    NextRound(h, b, n + 5);
    NextRound(h, b, n + 6);
    NextRound(h, b, n + 7);
  }

  lemma FullSum(h: seq<Word>, b: seq<byte>)
    requires h == Start() && b == Padded()
    ensures Compress(h, b) == [
      0xba78_16bf, 0x8f01_cfea, 0x4141_40de, 0x5dae_2223,
      0xb003_61a3, 0x9617_7a9c, 0xb410_ff61, 0xf200_15ad
    ]
  {
    hide Padded, Rounds;
    Full12(h, b, 56);
  }

  // ----- the digests -----

  lemma OneBlock(h: seq<Word>, b: seq<byte>)
    requires |h| == 8 && |b| == BLOCK
    ensures |b| % BLOCK == 0 && Absorb(h, b) == Compress(h, b)
  {
    hide Compress;
    assert b[..BLOCK] == b && b[BLOCK..] == [];
    assert Absorb(Compress(h, b), []) == Compress(h, b);
  }

  lemma EmitFirst(h: seq<Word>)
    requires |h| > 0
    ensures Emit(h, 1) == Unpack(h[0])
  {
    hide Unpack;
  }

  lemma EmitNext(h: seq<Word>, n: nat)
    requires n < |h|
    ensures Emit(h, n + 1) == Emit(h, n) + Unpack(h[n])
  {
    hide Unpack;
  }

  lemma ShortBytes()
    ensures Unpack(0x2309_7d22) == [0x23, 0x09, 0x7d, 0x22] && Unpack(0x3405_d822) == [0x34, 0x05, 0xd8, 0x22]
    ensures Unpack(0x8642_a477) == [0x86, 0x42, 0xa4, 0x77] && Unpack(0xbda2_55b3) == [0xbd, 0xa2, 0x55, 0xb3]
    ensures Unpack(0x2aad_bce4) == [0x2a, 0xad, 0xbc, 0xe4] && Unpack(0xbda0_b3f7) == [0xbd, 0xa0, 0xb3, 0xf7]
    ensures Unpack(0xe36c_9da7) == [0xe3, 0x6c, 0x9d, 0xa7]
  {
  }

  /** The digest that is published for SHA-224. */
  function ShortAbc(): seq<byte> {
    [0x23, 0x09, 0x7d, 0x22] + [0x34, 0x05, 0xd8, 0x22]
      + [0x86, 0x42, 0xa4, 0x77] + [0xbd, 0xa2, 0x55, 0xb3]
      + [0x2a, 0xad, 0xbc, 0xe4] + [0xbd, 0xa0, 0xb3, 0xf7]
      + [0xe3, 0x6c, 0x9d, 0xa7]
  }

  lemma ShortDigest()
    ensures |Padded()| % BLOCK == 0
    ensures Emit(Absorb(ShortStart(), Padded()), 7) == ShortAbc()
  {
    hide Padded, Compress, Absorb, Emit, Unpack, ShortStart;
    OneBlock(ShortStart(), Padded());
    ShortSum(ShortStart(), Padded());
    ShortBytes();
    var h := Absorb(ShortStart(), Padded());
    EmitFirst(h);
    EmitNext(h, 1);
    EmitNext(h, 2);
    EmitNext(h, 3);
    EmitNext(h, 4);
    EmitNext(h, 5);
    EmitNext(h, 6);
  }

  lemma FullBytes()
    ensures Unpack(0xba78_16bf) == [0xba, 0x78, 0x16, 0xbf] && Unpack(0x8f01_cfea) == [0x8f, 0x01, 0xcf, 0xea]
    ensures Unpack(0x4141_40de) == [0x41, 0x41, 0x40, 0xde] && Unpack(0x5dae_2223) == [0x5d, 0xae, 0x22, 0x23]
    ensures Unpack(0xb003_61a3) == [0xb0, 0x03, 0x61, 0xa3] && Unpack(0x9617_7a9c) == [0x96, 0x17, 0x7a, 0x9c]
    ensures Unpack(0xb410_ff61) == [0xb4, 0x10, 0xff, 0x61] && Unpack(0xf200_15ad) == [0xf2, 0x00, 0x15, 0xad]
  {
  }

  /** The digest that is published for SHA-256. */
  function FullAbc(): seq<byte> {
    [0xba, 0x78, 0x16, 0xbf] + [0x8f, 0x01, 0xcf, 0xea]
      + [0x41, 0x41, 0x40, 0xde] + [0x5d, 0xae, 0x22, 0x23]
      + [0xb0, 0x03, 0x61, 0xa3] + [0x96, 0x17, 0x7a, 0x9c]
      + [0xb4, 0x10, 0xff, 0x61] + [0xf2, 0x00, 0x15, 0xad]
  }

  lemma FullDigest()
    ensures |Padded()| % BLOCK == 0
    ensures Emit(Absorb(Start(), Padded()), 8) == FullAbc()
  {
    hide Padded, Compress, Absorb, Emit, Unpack, Start;
    OneBlock(Start(), Padded());
    FullSum(Start(), Padded());
    FullBytes();
    var h := Absorb(Start(), Padded());
    EmitFirst(h);
    EmitNext(h, 1);
    EmitNext(h, 2);
    EmitNext(h, 3);
    EmitNext(h, 4);
    EmitNext(h, 5);
    EmitNext(h, 6);
    EmitNext(h, 7);
  }
}
