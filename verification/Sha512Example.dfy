/**
 * The example of FIPS 180-4 for SHA-384 and SHA-512: the one block of the
 * message abc, its schedule, and the registers after every eight rounds.
 */
module Sha512Example {
  import opened Bytes
  import opened Sha512Functions
  import opened Sha512

  /** abc with its padding. */
  function Padded(): (s: seq<byte>)
    ensures |s| == BLOCK
  {
    [0x61, 0x62, 0x63, 0x80] + seq(123, _ => 0) + [0x18]
  }

  // ----- the schedule -----

  lemma NextWord(b: seq<byte>, t: nat)
    requires |b| == BLOCK && t >= 16
    ensures Schedule(b, t) == Extend(Schedule(b, t - 2), Schedule(b, t - 7), Schedule(b, t - 15), Schedule(b, t - 16))
  {
    hide Extend;
  }

  lemma FirstWord(b: seq<byte>)
    requires b == Padded()
    ensures Schedule(b, 0) == 0x6162_6380_0000_0000
  {
    assert b[0..8] == [0x61, 0x62, 0x63, 0x80, 0, 0, 0, 0];
  }

  lemma LastWord(b: seq<byte>)
    requires b == Padded()
    ensures Schedule(b, 15) == 0x0000_0000_0000_0018
  {
    assert b[120..128] == [0, 0, 0, 0, 0, 0, 0, 0x18];
  }

  lemma ZeroWord(b: seq<byte>, t: nat)
    requires b == Padded() && 0 < t < 15
    ensures Schedule(b, t) == 0
  {
    assert b[8 * t..8 * t + 8] == [0, 0, 0, 0, 0, 0, 0, 0];
  }

  lemma Words0(b: seq<byte>, n: nat)
    requires b == Padded() && n == 0
    ensures Schedule(b, n) == 0x6162_6380_0000_0000 && Schedule(b, n + 1) == 0x0000_0000_0000_0000
    ensures Schedule(b, n + 2) == 0x0000_0000_0000_0000 && Schedule(b, n + 3) == 0x0000_0000_0000_0000
    ensures Schedule(b, n + 4) == 0x0000_0000_0000_0000 && Schedule(b, n + 5) == 0x0000_0000_0000_0000
    ensures Schedule(b, n + 6) == 0x0000_0000_0000_0000 && Schedule(b, n + 7) == 0x0000_0000_0000_0000
  {
    FirstWord(b);
    hide Padded, Schedule;
    ZeroWord(b, n + 1);
    ZeroWord(b, n + 2);
    ZeroWord(b, n + 3);
    ZeroWord(b, n + 4);
    ZeroWord(b, n + 5);
    ZeroWord(b, n + 6);
    ZeroWord(b, n + 7);
  }

  lemma Words1(b: seq<byte>, n: nat)
    requires b == Padded() && n == 8
    ensures Schedule(b, n) == 0x0000_0000_0000_0000 && Schedule(b, n + 1) == 0x0000_0000_0000_0000
    ensures Schedule(b, n + 2) == 0x0000_0000_0000_0000 && Schedule(b, n + 3) == 0x0000_0000_0000_0000
    ensures Schedule(b, n + 4) == 0x0000_0000_0000_0000 && Schedule(b, n + 5) == 0x0000_0000_0000_0000
    ensures Schedule(b, n + 6) == 0x0000_0000_0000_0000 && Schedule(b, n + 7) == 0x0000_0000_0000_0018
  {
    hide Padded, Schedule;
    ZeroWord(b, n);
    ZeroWord(b, n + 1);
    ZeroWord(b, n + 2);
    ZeroWord(b, n + 3);
    ZeroWord(b, n + 4);
    ZeroWord(b, n + 5);
    ZeroWord(b, n + 6);
    LastWord(b);
  }

  lemma Extended2()
    ensures Extend(0x0000_0000_0000_0000, 0x0000_0000_0000_0000, 0x0000_0000_0000_0000, 0x6162_6380_0000_0000) == 0x6162_6380_0000_0000
    ensures Extend(0x0000_0000_0000_0018, 0x0000_0000_0000_0000, 0x0000_0000_0000_0000, 0x0000_0000_0000_0000) == 0x0003_0000_0000_00c0
    ensures Extend(0x6162_6380_0000_0000, 0x0000_0000_0000_0000, 0x0000_0000_0000_0000, 0x0000_0000_0000_0000) == 0x0a96_99a2_4c70_0003
    ensures Extend(0x0003_0000_0000_00c0, 0x0000_0000_0000_0000, 0x0000_0000_0000_0000, 0x0000_0000_0000_0000) == 0x0000_0c00_6000_0603
    ensures Extend(0x0a96_99a2_4c70_0003, 0x0000_0000_0000_0000, 0x0000_0000_0000_0000, 0x0000_0000_0000_0000) == 0x549e_f626_3985_8996
    ensures Extend(0x0000_0c00_6000_0603, 0x0000_0000_0000_0000, 0x0000_0000_0000_0000, 0x0000_0000_0000_0000) == 0x00c0_0033_0000_3c00
    ensures Extend(0x549e_f626_3985_8996, 0x0000_0000_0000_0018, 0x0000_0000_0000_0000, 0x0000_0000_0000_0000) == 0x1497_007a_8a0e_9dbc
    ensures Extend(0x00c0_0033_0000_3c00, 0x6162_6380_0000_0000, 0x0000_0000_0000_0000, 0x0000_0000_0000_0000) == 0x62e5_6500_cc07_80f0
  {
  }

  lemma Words2(b: seq<byte>, n: nat)
    requires b == Padded() && n == 16
    ensures Schedule(b, n) == 0x6162_6380_0000_0000 && Schedule(b, n + 1) == 0x0003_0000_0000_00c0
    ensures Schedule(b, n + 2) == 0x0a96_99a2_4c70_0003 && Schedule(b, n + 3) == 0x0000_0c00_6000_0603
    ensures Schedule(b, n + 4) == 0x549e_f626_3985_8996 && Schedule(b, n + 5) == 0x00c0_0033_0000_3c00
    ensures Schedule(b, n + 6) == 0x1497_007a_8a0e_9dbc && Schedule(b, n + 7) == 0x62e5_6500_cc07_80f0
  {
    hide *;
    Words1(b, n - 8);
    Words0(b, n - 16);
    Extended2();
    NextWord(b, n);
    NextWord(b, n + 1);
    NextWord(b, n + 2);
    NextWord(b, n + 3);
    NextWord(b, n + 4);
    NextWord(b, n + 5);
    NextWord(b, n + 6);
    NextWord(b, n + 7);
  }

  lemma Extended3()
    ensures Extend(0x1497_007a_8a0e_9dbc, 0x0003_0000_0000_00c0, 0x0000_0000_0000_0000, 0x0000_0000_0000_0000) == 0x7760_dd47_5a53_8797
    ensures Extend(0x62e5_6500_cc07_80f0, 0x0a96_99a2_4c70_0003, 0x0000_0000_0000_0000, 0x0000_0000_0000_0000) == 0xf155_4b71_1c1c_0003
    ensures Extend(0x7760_dd47_5a53_8797, 0x0000_0c00_6000_0603, 0x0000_0000_0000_0000, 0x0000_0000_0000_0000) == 0xca29_93a4_345d_9ff2
    ensures Extend(0xf155_4b71_1c1c_0003, 0x549e_f626_3985_8996, 0x0000_0000_0000_0000, 0x0000_0000_0000_0000) == 0x5e0e_66b5_c783_dd32
    ensures Extend(0xca29_93a4_345d_9ff2, 0x00c0_0033_0000_3c00, 0x0000_0000_0000_0000, 0x0000_0000_0000_0000) == 0xe25a_625d_0049_4b62
    ensures Extend(0x5e0e_66b5_c783_dd32, 0x1497_007a_8a0e_9dbc, 0x0000_0000_0000_0000, 0x0000_0000_0000_0000) == 0x9f44_486f_b1e4_fbd2
    ensures Extend(0xe25a_625d_0049_4b62, 0x62e5_6500_cc07_80f0, 0x0000_0000_0000_0018, 0x0000_0000_0000_0000) == 0xb31b_8c2b_0608_5f2f
    ensures Extend(0x9f44_486f_b1e4_fbd2, 0x7760_dd47_5a53_8797, 0x6162_6380_0000_0000, 0x0000_0000_0000_0018) == 0x0e98_7660_9341_42f6
  {
  }

  lemma Words3(b: seq<byte>, n: nat)
    requires b == Padded() && n == 24
    ensures Schedule(b, n) == 0x7760_dd47_5a53_8797 && Schedule(b, n + 1) == 0xf155_4b71_1c1c_0003
    ensures Schedule(b, n + 2) == 0xca29_93a4_345d_9ff2 && Schedule(b, n + 3) == 0x5e0e_66b5_c783_dd32
    ensures Schedule(b, n + 4) == 0xe25a_625d_0049_4b62 && Schedule(b, n + 5) == 0x9f44_486f_b1e4_fbd2
    ensures Schedule(b, n + 6) == 0xb31b_8c2b_0608_5f2f && Schedule(b, n + 7) == 0x0e98_7660_9341_42f6
  {
    hide *;
    Words2(b, n - 8);
    Words1(b, n - 16);
    Extended3();
    NextWord(b, n);
    NextWord(b, n + 1);
    NextWord(b, n + 2);
    NextWord(b, n + 3);
    NextWord(b, n + 4);
    NextWord(b, n + 5);
    NextWord(b, n + 6);
    NextWord(b, n + 7);
  }

  lemma Extended4()
    ensures Extend(0xb31b_8c2b_0608_5f2f, 0xf155_4b71_1c1c_0003, 0x0003_0000_0000_00c0, 0x6162_6380_0000_0000) == 0xa4af_2cfd_09fb_b924
    ensures Extend(0x0e98_7660_9341_42f6, 0xca29_93a4_345d_9ff2, 0x0a96_99a2_4c70_0003, 0x0003_0000_0000_00c0) == 0xad28_9e2e_0bd5_3186
    ensures Extend(0xa4af_2cfd_09fb_b924, 0x5e0e_66b5_c783_dd32, 0x0000_0c00_6000_0603, 0x0a96_99a2_4c70_0003) == 0x3c74_563a_a2f9_673e
    ensures Extend(0xad28_9e2e_0bd5_3186, 0xe25a_625d_0049_4b62, 0x549e_f626_3985_8996, 0x0000_0c00_6000_0603) == 0x6ccd_cd14_cc14_b53f
    ensures Extend(0x3c74_563a_a2f9_673e, 0x9f44_486f_b1e4_fbd2, 0x00c0_0033_0000_3c00, 0x549e_f626_3985_8996) == 0xc3f9_25b3_37f2_2bde
    ensures Extend(0x6ccd_cd14_cc14_b53f, 0xb31b_8c2b_0608_5f2f, 0x1497_007a_8a0e_9dbc, 0x00c0_0033_0000_3c00) == 0x5bcc_77a7_5ad9_5b54
    ensures Extend(0xc3f9_25b3_37f2_2bde, 0x0e98_7660_9341_42f6, 0x62e5_6500_cc07_80f0, 0x1497_007a_8a0e_9dbc) == 0x3ec2_257a_dca0_9a52
    ensures Extend(0x5bcc_77a7_5ad9_5b54, 0xa4af_2cfd_09fb_b924, 0x7760_dd47_5a53_8797, 0x62e5_6500_cc07_80f0) == 0x2824_6960_001f_c5eb
  {
  }

  lemma Words4(b: seq<byte>, n: nat)
    requires b == Padded() && n == 32
    ensures Schedule(b, n) == 0xa4af_2cfd_09fb_b924 && Schedule(b, n + 1) == 0xad28_9e2e_0bd5_3186
    ensures Schedule(b, n + 2) == 0x3c74_563a_a2f9_673e && Schedule(b, n + 3) == 0x6ccd_cd14_cc14_b53f
    ensures Schedule(b, n + 4) == 0xc3f9_25b3_37f2_2bde && Schedule(b, n + 5) == 0x5bcc_77a7_5ad9_5b54
    ensures Schedule(b, n + 6) == 0x3ec2_257a_dca0_9a52 && Schedule(b, n + 7) == 0x2824_6960_001f_c5eb
  {
    hide *;
    Words3(b, n - 8);
    Words2(b, n - 16);
    Extended4();
    NextWord(b, n);
    NextWord(b, n + 1);
    NextWord(b, n + 2);
    NextWord(b, n + 3);
    NextWord(b, n + 4);
    NextWord(b, n + 5);
    NextWord(b, n + 6);
    NextWord(b, n + 7);
  }

  lemma Extended5()
    ensures Extend(0x3ec2_257a_dca0_9a52, 0xad28_9e2e_0bd5_3186, 0xf155_4b71_1c1c_0003, 0x7760_dd47_5a53_8797) == 0x04e3_3a75_ce2b_e88a
    ensures Extend(0x2824_6960_001f_c5eb, 0x3c74_563a_a2f9_673e, 0xca29_93a4_345d_9ff2, 0xf155_4b71_1c1c_0003) == 0x7d53_14b3_c359_e0e7
    ensures Extend(0x04e3_3a75_ce2b_e88a, 0x6ccd_cd14_cc14_b53f, 0x5e0e_66b5_c783_dd32, 0xca29_93a4_345d_9ff2) == 0xaef7_a285_ff25_1266
    ensures Extend(0x7d53_14b3_c359_e0e7, 0xc3f9_25b3_37f2_2bde, 0xe25a_625d_0049_4b62, 0x5e0e_66b5_c783_dd32) == 0x0b84_7258_1dee_a04f
    ensures Extend(0xaef7_a285_ff25_1266, 0x5bcc_77a7_5ad9_5b54, 0x9f44_486f_b1e4_fbd2, 0xe25a_625d_0049_4b62) == 0xb174_e26e_ddc7_b033
    ensures Extend(0x0b84_7258_1dee_a04f, 0x3ec2_257a_dca0_9a52, 0xb31b_8c2b_0608_5f2f, 0x9f44_486f_b1e4_fbd2) == 0x5d63_bae5_8ddd_88de
    ensures Extend(0xb174_e26e_ddc7_b033, 0x2824_6960_001f_c5eb, 0x0e98_7660_9341_42f6, 0xb31b_8c2b_0608_5f2f) == 0x4c04_4007_b744_ccbb
    ensures Extend(0x5d63_bae5_8ddd_88de, 0x04e3_3a75_ce2b_e88a, 0xa4af_2cfd_09fb_b924, 0x0e98_7660_9341_42f6) == 0xe6a9_aa4d_74dc_7d43
  {
  }

  lemma Words5(b: seq<byte>, n: nat)
    requires b == Padded() && n == 40
    ensures Schedule(b, n) == 0x04e3_3a75_ce2b_e88a && Schedule(b, n + 1) == 0x7d53_14b3_c359_e0e7
    ensures Schedule(b, n + 2) == 0xaef7_a285_ff25_1266 && Schedule(b, n + 3) == 0x0b84_7258_1dee_a04f
    ensures Schedule(b, n + 4) == 0xb174_e26e_ddc7_b033 && Schedule(b, n + 5) == 0x5d63_bae5_8ddd_88de
    ensures Schedule(b, n + 6) == 0x4c04_4007_b744_ccbb && Schedule(b, n + 7) == 0xe6a9_aa4d_74dc_7d43
  {
    hide *;
    Words4(b, n - 8);
    Words3(b, n - 16);
    Extended5();
    NextWord(b, n);
    NextWord(b, n + 1);
    NextWord(b, n + 2);
    NextWord(b, n + 3);
    NextWord(b, n + 4);
    NextWord(b, n + 5);
    NextWord(b, n + 6);
    NextWord(b, n + 7);
  }

  lemma Extended6()
    ensures Extend(0x4c04_4007_b744_ccbb, 0x7d53_14b3_c359_e0e7, 0xad28_9e2e_0bd5_3186, 0xa4af_2cfd_09fb_b924) == 0xebea_f123_7248_019c
    ensures Extend(0xe6a9_aa4d_74dc_7d43, 0xaef7_a285_ff25_1266, 0x3c74_563a_a2f9_673e, 0xad28_9e2e_0bd5_3186) == 0x361e_80b2_d00f_3193
    ensures Extend(0xebea_f123_7248_019c, 0x0b84_7258_1dee_a04f, 0x6ccd_cd14_cc14_b53f, 0x3c74_563a_a2f9_673e) == 0x2e98_3912_5df3_b175
    ensures Extend(0x361e_80b2_d00f_3193, 0xb174_e26e_ddc7_b033, 0xc3f9_25b3_37f2_2bde, 0x6ccd_cd14_cc14_b53f) == 0x3319_6292_93ad_5363
    ensures Extend(0x2e98_3912_5df3_b175, 0x5d63_bae5_8ddd_88de, 0x5bcc_77a7_5ad9_5b54, 0xc3f9_25b3_37f2_2bde) == 0x9cbc_5d89_ac1b_89d5
    ensures Extend(0x3319_6292_93ad_5363, 0x4c04_4007_b744_ccbb, 0x3ec2_257a_dca0_9a52, 0x5bcc_77a7_5ad9_5b54) == 0x275e_23ff_eeca_50b7
    ensures Extend(0x9cbc_5d89_ac1b_89d5, 0xe6a9_aa4d_74dc_7d43, 0x2824_6960_001f_c5eb, 0x3ec2_257a_dca0_9a52) == 0x3b80_d680_bf69_ef58
    ensures Extend(0x275e_23ff_eeca_50b7, 0xebea_f123_7248_019c, 0x04e3_3a75_ce2b_e88a, 0x2824_6960_001f_c5eb) == 0x0d06_9693_3945_a125
  {
  }

  lemma Words6(b: seq<byte>, n: nat)
    requires b == Padded() && n == 48
    ensures Schedule(b, n) == 0xebea_f123_7248_019c && Schedule(b, n + 1) == 0x361e_80b2_d00f_3193
    ensures Schedule(b, n + 2) == 0x2e98_3912_5df3_b175 && Schedule(b, n + 3) == 0x3319_6292_93ad_5363
    ensures Schedule(b, n + 4) == 0x9cbc_5d89_ac1b_89d5 && Schedule(b, n + 5) == 0x275e_23ff_eeca_50b7
    ensures Schedule(b, n + 6) == 0x3b80_d680_bf69_ef58 && Schedule(b, n + 7) == 0x0d06_9693_3945_a125
  {
    hide *;
    Words5(b, n - 8);
    Words4(b, n - 16);
    Extended6();
    NextWord(b, n);
    NextWord(b, n + 1);
    NextWord(b, n + 2);
    NextWord(b, n + 3);
    NextWord(b, n + 4);
    NextWord(b, n + 5);
    NextWord(b, n + 6);
    NextWord(b, n + 7);
  }

  lemma Extended7()
    ensures Extend(0x3b80_d680_bf69_ef58, 0x361e_80b2_d00f_3193, 0x7d53_14b3_c359_e0e7, 0x04e3_3a75_ce2b_e88a) == 0x7533_eabc_b786_ff00
    ensures Extend(0x0d06_9693_3945_a125, 0x2e98_3912_5df3_b175, 0xaef7_a285_ff25_1266, 0x7d53_14b3_c359_e0e7) == 0xb898_26ce_e6fb_f0e5
    ensures Extend(0x7533_eabc_b786_ff00, 0x3319_6292_93ad_5363, 0x0b84_7258_1dee_a04f, 0xaef7_a285_ff25_1266) == 0x249b_4fbc_ad62_3e9f
    ensures Extend(0xb898_26ce_e6fb_f0e5, 0x9cbc_5d89_ac1b_89d5, 0xb174_e26e_ddc7_b033, 0x0b84_7258_1dee_a04f) == 0x4aea_9df2_b02d_6f1e
    ensures Extend(0x249b_4fbc_ad62_3e9f, 0x275e_23ff_eeca_50b7, 0x5d63_bae5_8ddd_88de, 0xb174_e26e_ddc7_b033) == 0x2cc5_7475_a55e_8d8f
    ensures Extend(0x4aea_9df2_b02d_6f1e, 0x3b80_d680_bf69_ef58, 0x4c04_4007_b744_ccbb, 0x5d63_bae5_8ddd_88de) == 0xb257_4ae9_38d8_be89
    ensures Extend(0x2cc5_7475_a55e_8d8f, 0x0d06_9693_3945_a125, 0xe6a9_aa4d_74dc_7d43, 0x4c04_4007_b744_ccbb) == 0xc1b3_5a57_b16d_6aea
    ensures Extend(0xb257_4ae9_38d8_be89, 0x7533_eabc_b786_ff00, 0xebea_f123_7248_019c, 0xe6a9_aa4d_74dc_7d43) == 0xcc49_18b5_9492_06bb
  {
  }

  lemma Words7(b: seq<byte>, n: nat)
    requires b == Padded() && n == 56
    ensures Schedule(b, n) == 0x7533_eabc_b786_ff00 && Schedule(b, n + 1) == 0xb898_26ce_e6fb_f0e5
    ensures Schedule(b, n + 2) == 0x249b_4fbc_ad62_3e9f && Schedule(b, n + 3) == 0x4aea_9df2_b02d_6f1e
    ensures Schedule(b, n + 4) == 0x2cc5_7475_a55e_8d8f && Schedule(b, n + 5) == 0xb257_4ae9_38d8_be89
    ensures Schedule(b, n + 6) == 0xc1b3_5a57_b16d_6aea && Schedule(b, n + 7) == 0xcc49_18b5_9492_06bb
  {
    hide *;
    Words6(b, n - 8);
    Words5(b, n - 16);
    Extended7();
    NextWord(b, n);
    NextWord(b, n + 1);
    NextWord(b, n + 2);
    NextWord(b, n + 3);
    NextWord(b, n + 4);
    NextWord(b, n + 5);
    NextWord(b, n + 6);
    NextWord(b, n + 7);
  }

  lemma Extended8()
    ensures Extend(0xc1b3_5a57_b16d_6aea, 0xb898_26ce_e6fb_f0e5, 0x361e_80b2_d00f_3193, 0xebea_f123_7248_019c) == 0x5099_c3ad_d79f_90ec
    ensures Extend(0xcc49_18b5_9492_06bb, 0x249b_4fbc_ad62_3e9f, 0x2e98_3912_5df3_b175, 0x361e_80b2_d00f_3193) == 0x5ea8_1d78_e766_0bf1
    ensures Extend(0x5099_c3ad_d79f_90ec, 0x4aea_9df2_b02d_6f1e, 0x3319_6292_93ad_5363, 0x2e98_3912_5df3_b175) == 0xebee_6267_405a_c2a9
    ensures Extend(0x5ea8_1d78_e766_0bf1, 0x2cc5_7475_a55e_8d8f, 0x9cbc_5d89_ac1b_89d5, 0x3319_6292_93ad_5363) == 0xb01f_2192_6108_a4ab
    ensures Extend(0xebee_6267_405a_c2a9, 0xb257_4ae9_38d8_be89, 0x275e_23ff_eeca_50b7, 0x9cbc_5d89_ac1b_89d5) == 0x7864_33dd_2fe6_5556
    ensures Extend(0xb01f_2192_6108_a4ab, 0xc1b3_5a57_b16d_6aea, 0x3b80_d680_bf69_ef58, 0x275e_23ff_eeca_50b7) == 0xc54a_6eaa_24a0_552c
    ensures Extend(0x7864_33dd_2fe6_5556, 0xcc49_18b5_9492_06bb, 0x0d06_9693_3945_a125, 0x3b80_d680_bf69_ef58) == 0xb3c8_f153_0bdb_aa9e
    ensures Extend(0xc54a_6eaa_24a0_552c, 0x5099_c3ad_d79f_90ec, 0x7533_eabc_b786_ff00, 0x0d06_9693_3945_a125) == 0xbb8a_bfe5_6f46_9338
  {
  }

  lemma Words8(b: seq<byte>, n: nat)
    requires b == Padded() && n == 64
    ensures Schedule(b, n) == 0x5099_c3ad_d79f_90ec && Schedule(b, n + 1) == 0x5ea8_1d78_e766_0bf1
    ensures Schedule(b, n + 2) == 0xebee_6267_405a_c2a9 && Schedule(b, n + 3) == 0xb01f_2192_6108_a4ab
    ensures Schedule(b, n + 4) == 0x7864_33dd_2fe6_5556 && Schedule(b, n + 5) == 0xc54a_6eaa_24a0_552c
    ensures Schedule(b, n + 6) == 0xb3c8_f153_0bdb_aa9e && Schedule(b, n + 7) == 0xbb8a_bfe5_6f46_9338
  {
    hide *;
    Words7(b, n - 8);
    Words6(b, n - 16);
    Extended8();
    NextWord(b, n);
    NextWord(b, n + 1);
    NextWord(b, n + 2);
    NextWord(b, n + 3);
    NextWord(b, n + 4);
    NextWord(b, n + 5);
    NextWord(b, n + 6);
    NextWord(b, n + 7);
  }

  lemma Extended9()
    ensures Extend(0xb3c8_f153_0bdb_aa9e, 0x5ea8_1d78_e766_0bf1, 0xb898_26ce_e6fb_f0e5, 0x7533_eabc_b786_ff00) == 0xf63d_4265_cc1c_5a78
    ensures Extend(0xbb8a_bfe5_6f46_9338, 0xebee_6267_405a_c2a9, 0x249b_4fbc_ad62_3e9f, 0xb898_26ce_e6fb_f0e5) == 0xbe83_55ea_7312_9afb
    ensures Extend(0xf63d_4265_cc1c_5a78, 0xb01f_2192_6108_a4ab, 0x4aea_9df2_b02d_6f1e, 0x249b_4fbc_ad62_3e9f) == 0x49e2_db8e_bdcf_beb5
    ensures Extend(0xbe83_55ea_7312_9afb, 0x7864_33dd_2fe6_5556, 0x2cc5_7475_a55e_8d8f, 0x4aea_9df2_b02d_6f1e) == 0x8226_9d4a_883a_3d99
    ensures Extend(0x49e2_db8e_bdcf_beb5, 0xc54a_6eaa_24a0_552c, 0xb257_4ae9_38d8_be89, 0x2cc5_7475_a55e_8d8f) == 0xfdf5_3df3_011f_362b
    ensures Extend(0x8226_9d4a_883a_3d99, 0xb3c8_f153_0bdb_aa9e, 0xc1b3_5a57_b16d_6aea, 0xb257_4ae9_38d8_be89) == 0x464a_f567_1d71_c12e
    ensures Extend(0xfdf5_3df3_011f_362b, 0xbb8a_bfe5_6f46_9338, 0xcc49_18b5_9492_06bb, 0xc1b3_5a57_b16d_6aea) == 0xe449_b681_98ec_611c
    ensures Extend(0x464a_f567_1d71_c12e, 0xf63d_4265_cc1c_5a78, 0x5099_c3ad_d79f_90ec, 0xcc49_18b5_9492_06bb) == 0x92ae_eed1_a7bc_f7d2
  {
  }

  lemma Words9(b: seq<byte>, n: nat)
    requires b == Padded() && n == 72
    ensures Schedule(b, n) == 0xf63d_4265_cc1c_5a78 && Schedule(b, n + 1) == 0xbe83_55ea_7312_9afb
    ensures Schedule(b, n + 2) == 0x49e2_db8e_bdcf_beb5 && Schedule(b, n + 3) == 0x8226_9d4a_883a_3d99
    ensures Schedule(b, n + 4) == 0xfdf5_3df3_011f_362b && Schedule(b, n + 5) == 0x464a_f567_1d71_c12e
    ensures Schedule(b, n + 6) == 0xe449_b681_98ec_611c && Schedule(b, n + 7) == 0x92ae_eed1_a7bc_f7d2
  {
    hide *;
    Words8(b, n - 8);
    Words7(b, n - 16);
    Extended9();
    NextWord(b, n);
    NextWord(b, n + 1);
    NextWord(b, n + 2);
    NextWord(b, n + 3);
    NextWord(b, n + 4);
    NextWord(b, n + 5);
    NextWord(b, n + 6);
    NextWord(b, n + 7);
  }

  // ----- the rounds -----

  lemma Keys0(n: nat)
    requires n == 0
    ensures var k := Constants();
      && k[n] == 0x428a_2f98_d728_ae22 && k[n + 1] == 0x7137_4491_23ef_65cd
      && k[n + 2] == 0xb5c0_fbcf_ec4d_3b2f && k[n + 3] == 0xe9b5_dba5_8189_dbbc
      && k[n + 4] == 0x3956_c25b_f348_b538 && k[n + 5] == 0x59f1_11f1_b605_d019
      && k[n + 6] == 0x923f_82a4_af19_4f9b && k[n + 7] == 0xab1c_5ed5_da6d_8118
  {
  }

  lemma Keys1(n: nat)
    requires n == 8
    ensures var k := Constants();
      && k[n] == 0xd807_aa98_a303_0242 && k[n + 1] == 0x1283_5b01_4570_6fbe
      && k[n + 2] == 0x2431_85be_4ee4_b28c && k[n + 3] == 0x550c_7dc3_d5ff_b4e2
      && k[n + 4] == 0x72be_5d74_f27b_896f && k[n + 5] == 0x80de_b1fe_3b16_96b1
      && k[n + 6] == 0x9bdc_06a7_25c7_1235 && k[n + 7] == 0xc19b_f174_cf69_2694
  {
  }

  lemma Keys2(n: nat)
    requires n == 16
    ensures var k := Constants();
      && k[n] == 0xe49b_69c1_9ef1_4ad2 && k[n + 1] == 0xefbe_4786_384f_25e3
      && k[n + 2] == 0x0fc1_9dc6_8b8c_d5b5 && k[n + 3] == 0x240c_a1cc_77ac_9c65
      && k[n + 4] == 0x2de9_2c6f_592b_0275 && k[n + 5] == 0x4a74_84aa_6ea6_e483
      && k[n + 6] == 0x5cb0_a9dc_bd41_fbd4 && k[n + 7] == 0x76f9_88da_8311_53b5
  {
  }

  lemma Keys3(n: nat)
    requires n == 24
    ensures var k := Constants();
      && k[n] == 0x983e_5152_ee66_dfab && k[n + 1] == 0xa831_c66d_2db4_3210
      && k[n + 2] == 0xb003_27c8_98fb_213f && k[n + 3] == 0xbf59_7fc7_beef_0ee4
      && k[n + 4] == 0xc6e0_0bf3_3da8_8fc2 && k[n + 5] == 0xd5a7_9147_930a_a725
      && k[n + 6] == 0x06ca_6351_e003_826f && k[n + 7] == 0x1429_2967_0a0e_6e70
  {
  }

  lemma Keys4(n: nat)
    requires n == 32
    ensures var k := Constants();
      && k[n] == 0x27b7_0a85_46d2_2ffc && k[n + 1] == 0x2e1b_2138_5c26_c926
      && k[n + 2] == 0x4d2c_6dfc_5ac4_2aed && k[n + 3] == 0x5338_0d13_9d95_b3df
      && k[n + 4] == 0x650a_7354_8baf_63de && k[n + 5] == 0x766a_0abb_3c77_b2a8
      && k[n + 6] == 0x81c2_c92e_47ed_aee6 && k[n + 7] == 0x9272_2c85_1482_353b
  {
  }

  lemma Keys5(n: nat)
    requires n == 40
    ensures var k := Constants();
      && k[n] == 0xa2bf_e8a1_4cf1_0364 && k[n + 1] == 0xa81a_664b_bc42_3001
      && k[n + 2] == 0xc24b_8b70_d0f8_9791 && k[n + 3] == 0xc76c_51a3_0654_be30
      && k[n + 4] == 0xd192_e819_d6ef_5218 && k[n + 5] == 0xd699_0624_5565_a910
      && k[n + 6] == 0xf40e_3585_5771_202a && k[n + 7] == 0x106a_a070_32bb_d1b8
  {
  }

  lemma Keys6(n: nat)
    requires n == 48
    ensures var k := Constants();
      && k[n] == 0x19a4_c116_b8d2_d0c8 && k[n + 1] == 0x1e37_6c08_5141_ab53
      && k[n + 2] == 0x2748_774c_df8e_eb99 && k[n + 3] == 0x34b0_bcb5_e19b_48a8
      && k[n + 4] == 0x391c_0cb3_c5c9_5a63 && k[n + 5] == 0x4ed8_aa4a_e341_8acb
      && k[n + 6] == 0x5b9c_ca4f_7763_e373 && k[n + 7] == 0x682e_6ff3_d6b2_b8a3
  {
  }

  lemma Keys7(n: nat)
    requires n == 56
    ensures var k := Constants();
      && k[n] == 0x748f_82ee_5def_b2fc && k[n + 1] == 0x78a5_636f_4317_2f60
      && k[n + 2] == 0x84c8_7814_a1f0_ab72 && k[n + 3] == 0x8cc7_0208_1a64_39ec
      && k[n + 4] == 0x90be_fffa_2363_1e28 && k[n + 5] == 0xa450_6ceb_de82_bde9
      && k[n + 6] == 0xbef9_a3f7_b2c6_7915 && k[n + 7] == 0xc671_78f2_e372_532b
  {
  }

  lemma Keys8(n: nat)
    requires n == 64
    ensures var k := Constants();
      && k[n] == 0xca27_3ece_ea26_619c && k[n + 1] == 0xd186_b8c7_21c0_c207
      && k[n + 2] == 0xeada_7dd6_cde0_eb1e && k[n + 3] == 0xf57d_4f7f_ee6e_d178
      && k[n + 4] == 0x06f0_67aa_7217_6fba && k[n + 5] == 0x0a63_7dc5_a2c8_98a6
      && k[n + 6] == 0x113f_9804_bef9_0dae && k[n + 7] == 0x1b71_0b35_131c_471b
  {
  }

  lemma Keys9(n: nat)
    requires n == 72
    ensures var k := Constants();
      && k[n] == 0x28db_77f5_2304_7d84 && k[n + 1] == 0x32ca_ab7b_40c7_2493
      && k[n + 2] == 0x3c9e_be0a_15c9_bebc && k[n + 3] == 0x431d_67c4_9c10_0d4c
      && k[n + 4] == 0x4cc5_d4be_cb3e_42b6 && k[n + 5] == 0x597f_299c_fc65_7e2a
      && k[n + 6] == 0x5fcb_6fab_3ad6_faec && k[n + 7] == 0x6c44_198c_4a47_5817
  {
  }

  lemma Short0(h: seq<Word>, b: seq<byte>)
    requires h == ShortStart() && |b| == BLOCK
    ensures Rounds(h, b, 0) == [
      0xcbbb_9d5d_c105_9ed8, 0x629a_292a_367c_d507, 0x9159_015a_3070_dd17, 0x152f_ecd8_f70e_5939,
      0x6733_2667_ffc0_0b31, 0x8eb4_4a87_6858_1511, 0xdb0c_2e0d_64f9_8fa7, 0x47b5_481d_befa_4fa4
    ]
  {
    NoRounds(h, b);
    hide Rounds;
  }

  lemma Short1(h: seq<Word>, b: seq<byte>)
    requires h == ShortStart() && b == Padded()
    ensures Rounds(h, b, 4) == [
      0xe308_4831_53e1_5ad6, 0xeebe_5d37_9be7_07ad, 0x2e91_2303_06a1_2ae0, 0x4709_94ad_3087_3f88,
      0x086c_5b2d_36a8_9178, 0x5407_4a65_aef3_4336, 0x5e1b_4e16_9537_2b9e, 0xbd03_f724_be60_75f9
    ]
  {
    hide Schedule, Padded, Rounds, Constants, ShortStart;
    Short0(h, b);
    Words0(b, 0);
    Keys0(0);
    NextRound(h, b, 0);
    NextRound(h, b, 1);
    NextRound(h, b, 2);
    NextRound(h, b, 3);
  }

  lemma Short2(h: seq<Word>, b: seq<byte>)
    requires h == ShortStart() && b == Padded()
    ensures Rounds(h, b, 5) == [
      0x3a7a_023c_593d_8479, 0xe308_4831_53e1_5ad6, 0xeebe_5d37_9be7_07ad, 0x2e91_2303_06a1_2ae0,
      0x8aa1_1448_5063_3794, 0x086c_5b2d_36a8_9178, 0x5407_4a65_aef3_4336, 0x5e1b_4e16_9537_2b9e
    ]
  {
    hide Schedule, Padded, Rounds, Constants, ShortStart;
    Short1(h, b);
    Words0(b, 0);
    Keys0(0);
    NextRound(h, b, 4);
  }

  lemma Short3(h: seq<Word>, b: seq<byte>)
    requires h == ShortStart() && b == Padded()
    ensures Rounds(h, b, 6) == [
      0x3331_99a8_5f92_b052, 0x3a7a_023c_593d_8479, 0xe308_4831_53e1_5ad6, 0xeebe_5d37_9be7_07ad,
      0x7a63_16f0_ef04_7ce7, 0x8aa1_1448_5063_3794, 0x086c_5b2d_36a8_9178, 0x5407_4a65_aef3_4336
    ]
  {
    hide Schedule, Padded, Rounds, Constants, ShortStart;
    Short2(h, b);
    Words0(b, 0);
    Keys0(0);
    NextRound(h, b, 5);
  }

  lemma Short4(h: seq<Word>, b: seq<byte>)
    requires h == ShortStart() && b == Padded()
    ensures Rounds(h, b, 7) == [
      0x76f0_7412_13dd_2ef6, 0x3331_99a8_5f92_b052, 0x3a7a_023c_593d_8479, 0xe308_4831_53e1_5ad6,
      0x7406_3cba_385f_0675, 0x7a63_16f0_ef04_7ce7, 0x8aa1_1448_5063_3794, 0x086c_5b2d_36a8_9178
    ]
  {
    hide Schedule, Padded, Rounds, Constants, ShortStart;
    Short3(h, b);
    Words0(b, 0);
    Keys0(0);
    NextRound(h, b, 6);
  }

  lemma Short5(h: seq<Word>, b: seq<byte>)
    requires h == ShortStart() && b == Padded()
    ensures Rounds(h, b, 8) == [
      0x02f2_a04d_3aab_1629, 0x76f0_7412_13dd_2ef6, 0x3331_99a8_5f92_b052, 0x3a7a_023c_593d_8479,
      0x1688_b9bf_1498_0fc0, 0x7406_3cba_385f_0675, 0x7a63_16f0_ef04_7ce7, 0x8aa1_1448_5063_3794
    ]
  {
    hide Schedule, Padded, Rounds, Constants, ShortStart;
    Short4(h, b);
    Words0(b, 0);
    Keys0(0);
    NextRound(h, b, 7);
  }

  lemma Short6(h: seq<Word>, b: seq<byte>)
    requires h == ShortStart() && b == Padded()
    ensures Rounds(h, b, 16) == [
      0x1eab_6159_ae87_ef6d, 0x7e32_dc0e_9f41_4783, 0xe5f0_6744_c0d7_563a, 0x185f_9ff0_38a5_0f39,
      0x153b_895c_fbc4_36c5, 0x3a99_50aa_a5e7_5884, 0x2fa9_3d1c_e952_3015, 0x8b4a_cfc4_d2b8_afe6
    ]
  {
    hide Schedule, Padded, Rounds, Constants, ShortStart;
    Short5(h, b);
    Words1(b, 8);
    Keys1(8);
    NextRound(h, b, 8);
    NextRound(h, b, 9);
    NextRound(h, b, 10);
    NextRound(h, b, 11);
    NextRound(h, b, 12);
    NextRound(h, b, 13);
    NextRound(h, b, 14);
    NextRound(h, b, 15);
  }

  lemma Short7(h: seq<Word>, b: seq<byte>, n: nat)
    requires h == ShortStart() && b == Padded() && n == 16
    ensures Rounds(h, b, n + 8) == [
      0xccf9_9a80_f92b_f002, 0x7799_c75a_cc74_8c0f, 0x042c_2dc9_a5bf_558a, 0x9ba7_37ae_88a7_2c64,
      0xe52a_24fa_e4e8_fc9b, 0xa7bb_d65b_f64f_58c8, 0x1931_6beb_c88e_01f2, 0x3fc2_614c_4390_6c0f
    ]
  {
    hide Schedule, Padded, Rounds, Constants, ShortStart;
    Short6(h, b);
    Words2(b, n);
    Keys2(n);
    NextRound(h, b, n);
    NextRound(h, b, n + 1);
    NextRound(h, b, n + 2);
    NextRound(h, b, n + 3);
    NextRound(h, b, n + 4);
    NextRound(h, b, n + 5);
    NextRound(h, b, n + 6);
    NextRound(h, b, n + 7);
  }

  lemma Short8(h: seq<Word>, b: seq<byte>, n: nat)
    requires h == ShortStart() && b == Padded() && n == 24
    ensures Rounds(h, b, n + 8) == [
      0x4ba4_56ec_2440_33ed, 0x4c5c_38df_7ec8_baf4, 0xbbed_541a_5128_088c, 0xe428_bb43_afe3_d63e,
      0x7cf4_0857_056d_86b0, 0x422c_eea0_200e_9ee4, 0x7973_aadb_de29_4be9, 0x6a85_2752_5f89_8726
    ]
  {
    hide Schedule, Padded, Rounds, Constants, ShortStart;
    Short7(h, b, n - 8);
    Words3(b, n);
    Keys3(n);
    NextRound(h, b, n);
    NextRound(h, b, n + 1);
    NextRound(h, b, n + 2);
    NextRound(h, b, n + 3);
    NextRound(h, b, n + 4);
    NextRound(h, b, n + 5);
    NextRound(h, b, n + 6);
    NextRound(h, b, n + 7);
  }

  lemma Short9(h: seq<Word>, b: seq<byte>, n: nat)
    requires h == ShortStart() && b == Padded() && n == 32
    ensures Rounds(h, b, n + 8) == [
      0xdb24_f9a0_3f4f_ff6b, 0x5407_8334_3585_73b4, 0xd6f4_1e25_a8b6_34d6, 0xd48d_97ce_438c_f4f0,
      0xd30e_99b4_b394_b090, 0x0e41_9fb0_802b_0efc, 0x2575_5cb8_179d_d0b0, 0xa239_e00b_8baa_0410
    ]
  {
    hide Schedule, Padded, Rounds, Constants, ShortStart;
    Short8(h, b, n - 8);
    Words4(b, n);
    Keys4(n);
    NextRound(h, b, n);
    NextRound(h, b, n + 1);
    NextRound(h, b, n + 2);
    NextRound(h, b, n + 3);
    NextRound(h, b, n + 4);
    NextRound(h, b, n + 5);
    NextRound(h, b, n + 6);
    NextRound(h, b, n + 7);
  }

  lemma Short10(h: seq<Word>, b: seq<byte>, n: nat)
    requires h == ShortStart() && b == Padded() && n == 40
    ensures Rounds(h, b, n + 8) == [
      0xa699_8d63_a5d0_9e04, 0xeb37_53f4_283f_4818, 0xef5e_3885_a2f2_38df, 0x51dc_aa36_995c_301d,
      0xe210_9501_2ee0_b72a, 0x0ae4_8cf8_40bb_8be9, 0x740e_347f_24e1_8fda, 0xe37f_7783_5399_8050
    ]
  {
    hide Schedule, Padded, Rounds, Constants, ShortStart;
    Short9(h, b, n - 8);
    Words5(b, n);
    Keys5(n);
    NextRound(h, b, n);
    NextRound(h, b, n + 1);
    NextRound(h, b, n + 2);
    NextRound(h, b, n + 3);
    NextRound(h, b, n + 4);
    NextRound(h, b, n + 5);
    NextRound(h, b, n + 6);
    NextRound(h, b, n + 7);
  }

  lemma Short11(h: seq<Word>, b: seq<byte>, n: nat)
    requires h == ShortStart() && b == Padded() && n == 48
    ensures Rounds(h, b, n + 8) == [
      0x54de_8857_b24a_faf7, 0x0737_75c2_456d_c7db, 0xedb4_4488_7939_1dbb, 0xc87e_9168_db9e_97de,
      0x8de5_1cff_2ae4_b068, 0xa9cc_a0b6_266b_1d77, 0x7729_c854_75dd_318f, 0x65cf_7f6a_829a_ca04
    ]
  {
    hide Schedule, Padded, Rounds, Constants, ShortStart;
    Short10(h, b, n - 8);
    Words6(b, n);
    Keys6(n);
    NextRound(h, b, n);
    NextRound(h, b, n + 1);
    NextRound(h, b, n + 2);
    NextRound(h, b, n + 3);
    NextRound(h, b, n + 4);
    NextRound(h, b, n + 5);
    NextRound(h, b, n + 6);
    NextRound(h, b, n + 7);
  }

  lemma Short12(h: seq<Word>, b: seq<byte>, n: nat)
    requires h == ShortStart() && b == Padded() && n == 56
    ensures Rounds(h, b, n + 8) == [
      0x24a1_1242_62a3_31c7, 0x56fb_5883_f1c8_7a05, 0x3dc7_64f8_9e54_043a, 0x1ca9_3a29_3d54_4328,
      0x06ed_acae_6e7b_54ad, 0xf519_8a41_eb80_e022, 0xa577_8494_5550_cf94, 0xefbe_f83a_35c0_319e
    ]
  {
    hide Schedule, Padded, Rounds, Constants, ShortStart;
    Short11(h, b, n - 8);
    Words7(b, n);
    Keys7(n);
    NextRound(h, b, n);
    NextRound(h, b, n + 1);
    NextRound(h, b, n + 2);
    NextRound(h, b, n + 3);
    NextRound(h, b, n + 4);
    NextRound(h, b, n + 5);
    NextRound(h, b, n + 6);
    NextRound(h, b, n + 7);
  }

  lemma Short13(h: seq<Word>, b: seq<byte>, n: nat)
    requires h == ShortStart() && b == Padded() && n == 64
    ensures Rounds(h, b, n + 8) == [
      0xbcd5_0616_79be_7336, 0x32e5_ed86_5587_1e9b, 0x8c5d_3b7f_dad6_6e70, 0x1e6e_0255_ab88_079f,
      0x454b_99f6_5444_3ad0, 0x5110_5f62_4131_3777, 0x90d1_8ec8_b69f_0345, 0xf200_1138_4399_02b1
    ]
  {
    hide Schedule, Padded, Rounds, Constants, ShortStart;
    Short12(h, b, n - 8);
    Words8(b, n);
    Keys8(n);
    NextRound(h, b, n);
    NextRound(h, b, n + 1);
    NextRound(h, b, n + 2);
    NextRound(h, b, n + 3);
    NextRound(h, b, n + 4);
    NextRound(h, b, n + 5);
    NextRound(h, b, n + 6);
    NextRound(h, b, n + 7);
  }

  lemma Short14(h: seq<Word>, b: seq<byte>, n: nat)
    requires h == ShortStart() && b == Padded() && n == 72
    ensures Rounds(h, b, n + 8) == [
      0xff44_d7e1_849d_bfb3, 0x5306_143f_6449_7b00, 0x95d3_3150_de6d_f44c, 0x055b_7381_4cf1_02b4,
      0x1952_e0c3_a227_c0f2, 0xca06_a219_cc70_1096, 0xc7f7_bff0_8ebf_0d30, 0xc4b1_4971_0f5d_6a71
    ]
  {
    hide Schedule, Padded, Rounds, Constants, ShortStart;
    Short13(h, b, n - 8);
    Words9(b, n);
    Keys9(n);
    NextRound(h, b, n);
    NextRound(h, b, n + 1);
    NextRound(h, b, n + 2);
    NextRound(h, b, n + 3);
    NextRound(h, b, n + 4);
    NextRound(h, b, n + 5);
    NextRound(h, b, n + 6);
    NextRound(h, b, n + 7);
  }

  lemma ShortSum(h: seq<Word>, b: seq<byte>)
    requires h == ShortStart() && b == Padded()
    ensures Compress(h, b) == [
      0xcb00_753f_45a3_5e8b, 0xb5a0_3d69_9ac6_5007, 0x272c_32ab_0ede_d163, 0x1a8b_605a_43ff_5bed,
      0x8086_072b_a1e7_cc23, 0x58ba_eca1_34c8_25a7, 0xa303_edfd_f3b8_9cd7, 0x0c66_918e_ce57_ba15
    ]
  {
    hide Padded, Rounds;
    Short14(h, b, 72);
  }

  lemma Full0(h: seq<Word>, b: seq<byte>)
    requires h == Start() && |b| == BLOCK
    ensures Rounds(h, b, 0) == [
      0x6a09_e667_f3bc_c908, 0xbb67_ae85_84ca_a73b, 0x3c6e_f372_fe94_f82b, 0xa54f_f53a_5f1d_36f1,
      0x510e_527f_ade6_82d1, 0x9b05_688c_2b3e_6c1f, 0x1f83_d9ab_fb41_bd6b, 0x5be0_cd19_137e_2179
    ]
  {
    NoRounds(h, b);
    hide Rounds;
  }

  lemma Full1(h: seq<Word>, b: seq<byte>)
    requires h == Start() && b == Padded()
    ensures Rounds(h, b, 4) == [
      0x5a83_cb3e_8005_0e82, 0xebcf_fc07_203d_91f3, 0x1320_f8c9_fb87_2cc0, 0xf6af_ceb8_bcfc_ddf5,
      0x0b47_b4bb_1928_990e, 0xdfa9_b239_f269_7812, 0xc3d4_ebfd_4865_0ffa, 0x58cb_0234_7ab5_1f91
    ]
  {
    hide Schedule, Padded, Rounds, Constants, Start;
    Full0(h, b);
    Words0(b, 0);
    Keys0(0);
    NextRound(h, b, 0);
    NextRound(h, b, 1);
    NextRound(h, b, 2);
    NextRound(h, b, 3);
  }

  lemma Full2(h: seq<Word>, b: seq<byte>)
    requires h == Start() && b == Padded()
    ensures Rounds(h, b, 5) == [
      0xb680_9539_5160_4860, 0x5a83_cb3e_8005_0e82, 0xebcf_fc07_203d_91f3, 0x1320_f8c9_fb87_2cc0,
      0x745a_ca4a_342e_d2e2, 0x0b47_b4bb_1928_990e, 0xdfa9_b239_f269_7812, 0xc3d4_ebfd_4865_0ffa
    ]
  {
    hide Schedule, Padded, Rounds, Constants, Start;
    Full1(h, b);
    Words0(b, 0);
    Keys0(0);
    NextRound(h, b, 4);
  }

  lemma Full3(h: seq<Word>, b: seq<byte>)
    requires h == Start() && b == Padded()
    ensures Rounds(h, b, 6) == [
      0xaf57_3b02_403e_89cd, 0xb680_9539_5160_4860, 0x5a83_cb3e_8005_0e82, 0xebcf_fc07_203d_91f3,
      0x96f6_0209_b6dc_35ba, 0x745a_ca4a_342e_d2e2, 0x0b47_b4bb_1928_990e, 0xdfa9_b239_f269_7812
    ]
  {
    hide Schedule, Padded, Rounds, Constants, Start;
    Full2(h, b);
    Words0(b, 0);
    Keys0(0);
    NextRound(h, b, 5);
  }

  lemma Full4(h: seq<Word>, b: seq<byte>)
    requires h == Start() && b == Padded()
    ensures Rounds(h, b, 7) == [
      0xc487_5b0c_7abc_076b, 0xaf57_3b02_403e_89cd, 0xb680_9539_5160_4860, 0x5a83_cb3e_8005_0e82,
      0x5a6c_781f_54dc_c00c, 0x96f6_0209_b6dc_35ba, 0x745a_ca4a_342e_d2e2, 0x0b47_b4bb_1928_990e
    ]
  {
    hide Schedule, Padded, Rounds, Constants, Start;
    Full3(h, b);
    Words0(b, 0);
    Keys0(0);
    NextRound(h, b, 6);
  }

  lemma Full5(h: seq<Word>, b: seq<byte>)
    requires h == Start() && b == Padded()
    ensures Rounds(h, b, 8) == [
      0x8093_d195_e005_4fa3, 0xc487_5b0c_7abc_076b, 0xaf57_3b02_403e_89cd, 0xb680_9539_5160_4860,
      0x86f6_7263_a0f0_ec0a, 0x5a6c_781f_54dc_c00c, 0x96f6_0209_b6dc_35ba, 0x745a_ca4a_342e_d2e2
    ]
  {
    hide Schedule, Padded, Rounds, Constants, Start;
    Full4(h, b);
    Words0(b, 0);
    Keys0(0);
    NextRound(h, b, 7);
  }

  lemma Full6(h: seq<Word>, b: seq<byte>)
    requires h == Start() && b == Padded()
    ensures Rounds(h, b, 16) == [
      0x0ae0_7c86_b118_1c75, 0xfa96_7eed_85a0_8028, 0x4424_9631_255d_2ca0, 0x5e41_2143_8818_6c14,
      0xa77b_7c03_5dd4_c161, 0x874b_fe5f_6aae_9f2f, 0x860a_cf9e_ffba_6f61, 0xcdf3_bff2_883f_c9d9
    ]
  {
    hide Schedule, Padded, Rounds, Constants, Start;
    Full5(h, b);
    Words1(b, 8);
    Keys1(8);
    NextRound(h, b, 8);
    NextRound(h, b, 9);
    NextRound(h, b, 10);
    NextRound(h, b, 11);
    NextRound(h, b, 12);
    NextRound(h, b, 13);
    NextRound(h, b, 14);
    NextRound(h, b, 15);
  }

  lemma Full7(h: seq<Word>, b: seq<byte>, n: nat)
    requires h == Start() && b == Padded() && n == 16
    ensures Rounds(h, b, n + 8) == [
      0x4f68_77b5_8fe5_5484, 0x3e26_4456_7b70_9a78, 0xda34_d667_3d45_2dcf, 0x8dc5_ae65_569d_3855,
      0xc660_05f8_7db5_5233, 0x0ac2_b11d_a8f5_71c6, 0x8e30_ff09_ad48_8753, 0x4bb9_e66d_1145_bfdc
    ]
  {
    hide Schedule, Padded, Rounds, Constants, Start;
    Full6(h, b);
    Words2(b, n);
    Keys2(n);
    NextRound(h, b, n);
    NextRound(h, b, n + 1);
    NextRound(h, b, n + 2);
    NextRound(h, b, n + 3);
    NextRound(h, b, n + 4);
    NextRound(h, b, n + 5);
    NextRound(h, b, n + 6);
    NextRound(h, b, n + 7);
  }

  lemma Full8(h: seq<Word>, b: seq<byte>, n: nat)
    requires h == Start() && b == Padded() && n == 24
    ensures Rounds(h, b, n + 8) == [
      0xff4d_3f1f_0d46_a736, 0x4c4f_bbb7_5f18_73a6, 0x74bf_40f8_6909_4c63, 0xe623_4909_0f47_d30a,
      0x3cd3_88e1_19e8_162e, 0x73e0_25d9_1b9e_fea3, 0xf0ae_c2fe_1437_f085, 0x0fcd_f997_10f2_1584
    ]
  {
    hide Schedule, Padded, Rounds, Constants, Start;
    Full7(h, b, n - 8);
    Words3(b, n);
    Keys3(n);
    NextRound(h, b, n);
    NextRound(h, b, n + 1);
    NextRound(h, b, n + 2);
    NextRound(h, b, n + 3);
    NextRound(h, b, n + 4);
    NextRound(h, b, n + 5);
    NextRound(h, b, n + 6);
    NextRound(h, b, n + 7);
  }

  lemma Full9(h: seq<Word>, b: seq<byte>, n: nat)
    requires h == Start() && b == Padded() && n == 32
    ensures Rounds(h, b, n + 8) == [
      0x8e01_e125_b855_d225, 0xb3bb_8542_b337_6de5, 0x002b_b8e4_cd98_9567, 0x88df_85b0_bbe7_7514,
      0x0c71_0a47_ba6a_567b, 0xb495_96c2_0feb_a7de, 0x66ad_cfa2_49ac_7bbd, 0x8fbf_d016_2bbf_4675
    ]
  {
    hide Schedule, Padded, Rounds, Constants, Start;
    Full8(h, b, n - 8);
    Words4(b, n);
    Keys4(n);
    NextRound(h, b, n);
    NextRound(h, b, n + 1);
    NextRound(h, b, n + 2);
    NextRound(h, b, n + 3);
    NextRound(h, b, n + 4);
    NextRound(h, b, n + 5);
    NextRound(h, b, n + 6);
    NextRound(h, b, n + 7);
  }

  lemma Full10(h: seq<Word>, b: seq<byte>, n: nat)
    requires h == Start() && b == Padded() && n == 40
    ensures Rounds(h, b, n + 8) == [
      0x6b69_fc1b_b482_feac, 0xf61e_6726_94de_2d67, 0x021f_badb_abab_5ac6, 0xc47c_9d5c_7ea8_a234,
      0x3526_4334_c03a_c8ad, 0xc6bc_3574_0d8d_aa9a, 0xe95c_2a57_572d_64d9, 0x858d_832a_e0e8_911c
    ]
  {
    hide Schedule, Padded, Rounds, Constants, Start;
    Full9(h, b, n - 8);
    Words5(b, n);
    Keys5(n);
    NextRound(h, b, n);
    NextRound(h, b, n + 1);
    NextRound(h, b, n + 2);
    NextRound(h, b, n + 3);
    NextRound(h, b, n + 4);
    NextRound(h, b, n + 5);
    NextRound(h, b, n + 6);
    NextRound(h, b, n + 7);
  }

  lemma Full11(h: seq<Word>, b: seq<byte>, n: nat)
    requires h == Start() && b == Padded() && n == 48
    ensures Rounds(h, b, n + 8) == [
      0x63b4_60e4_2748_817e, 0xf650_857b_5bab_da4d, 0xd63f_6803_7ddf_06aa, 0x03df_11b3_2d42_e203,
      0xc6b4_dd2a_9931_c509, 0x9ccf_b31a_86df_0f86, 0xa678_1efe_1aa1_ce02, 0x504f_94e4_0591_cffa
    ]
  {
    hide Schedule, Padded, Rounds, Constants, Start;
    Full10(h, b, n - 8);
    Words6(b, n);
    Keys6(n);
    NextRound(h, b, n);
    NextRound(h, b, n + 1);
    NextRound(h, b, n + 2);
    NextRound(h, b, n + 3);
    NextRound(h, b, n + 4);
    NextRound(h, b, n + 5);
    NextRound(h, b, n + 6);
    NextRound(h, b, n + 7);
  }

  lemma Full12(h: seq<Word>, b: seq<byte>, n: nat)
    requires h == Start() && b == Padded() && n == 56
    ensures Rounds(h, b, n + 8) == [
      0xab44_e862_7647_8d85, 0xa81d_edbb_9f19_e643, 0xcfcd_928c_5424_e2b6, 0x3857_dfd2_fc37_d3ba,
      0xcd88_1ee5_9ca6_bc53, 0x8405_8865_d60a_05fa, 0x09ae_e5bd_a164_4de5, 0xa6af_4e9c_9f80_7e51
    ]
  {
    hide Schedule, Padded, Rounds, Constants, Start;
    Full11(h, b, n - 8);
    Words7(b, n);
    Keys7(n);
    NextRound(h, b, n);
    NextRound(h, b, n + 1);
    NextRound(h, b, n + 2);
    NextRound(h, b, n + 3);
    NextRound(h, b, n + 4);
    NextRound(h, b, n + 5);
    NextRound(h, b, n + 6);
    NextRound(h, b, n + 7);
  }

  lemma Full13(h: seq<Word>, b: seq<byte>, n: nat)
    requires h == Start() && b == Padded() && n == 64
    ensures Rounds(h, b, n + 8) == [
      0xf15e_9664_b280_3575, 0x7652_c579_cb60_f19c, 0xfb6a_aae5_d0b6_a447, 0x1818_39d6_09c7_9748,
      0x947c_3dfa_fee5_70ef, 0xaff6_2c96_65ff_80fa, 0xe371_1cb6_564d_112d, 0x0ada_78ba_2d44_6140
    ]
  {
    hide Schedule, Padded, Rounds, Constants, Start;
    Full12(h, b, n - 8);
    Words8(b, n);
    Keys8(n);
    NextRound(h, b, n);
    NextRound(h, b, n + 1);
    NextRound(h, b, n + 2);
    NextRound(h, b, n + 3);
    NextRound(h, b, n + 4);
    NextRound(h, b, n + 5);
    NextRound(h, b, n + 6);
    NextRound(h, b, n + 7);
  }

  lemma Full14(h: seq<Word>, b: seq<byte>, n: nat)
    requires h == Start() && b == Padded() && n == 72
    ensures Rounds(h, b, n + 8) == [
      0x73a5_4f39_9fa4_b1b2, 0x10d9_c4c4_2955_99f6, 0xd678_06db_8b14_8677, 0x654e_f9ab_ec38_9ca9,
      0xd084_46aa_7969_3ed7, 0x9bb4_d397_78c0_7f9e, 0x25c9_6a77_68fb_2aa3, 0xceb9_fc36_91ce_8326
    ]
  {
    hide Schedule, Padded, Rounds, Constants, Start;
    Full13(h, b, n - 8);
    Words9(b, n);
    Keys9(n);
    NextRound(h, b, n);
    NextRound(h, b, n + 1);
    NextRound(h, b, n + 2);
    NextRound(h, b, n + 3);
    NextRound(h, b, n + 4);
    NextRound(h, b, n + 5);
    NextRound(h, b, n + 6);
    NextRound(h, b, n + 7);
  }

  lemma FullSum(h: seq<Word>, b: seq<byte>)
    requires h == Start() && b == Padded()
    ensures Compress(h, b) == [
      0xddaf_35a1_9361_7aba, 0xcc41_7349_ae20_4131, 0x12e6_fa4e_89a9_7ea2, 0x0a9e_eee6_4b55_d39a,
      0x2192_992a_274f_c1a8, 0x36ba_3c23_a3fe_ebbd, 0x454d_4423_643c_e80e, 0x2a9a_c94f_a54c_a49f
    ]
  {
    hide Padded, Rounds;
    Full14(h, b, 72);
  }

  // ----- the digests -----

  lemma OneBlock(h: seq<Word>, b: seq<byte>)
    requires |h| == 8 && |b| == BLOCK
    ensures |b| % BLOCK == 0 && Absorb(h, b) == Compress(h, b)
  {
    hide Compress;
    assert b[..BLOCK] == b && b[BLOCK..] == [];
    assert Absorb(Compress(h, b), []) == Compress(h, b);
  }

  lemma EmitFirst(h: seq<Word>)
    requires |h| > 0
    ensures Emit(h, 1) == Unpack(h[0])
  {
    hide Unpack;
  }

  lemma EmitNext(h: seq<Word>, n: nat)
    requires n < |h|
    ensures Emit(h, n + 1) == Emit(h, n) + Unpack(h[n])
  {
    hide Unpack;
  }

  lemma ShortBytes()
    ensures Unpack(0xcb00_753f_45a3_5e8b) == [0xcb, 0x00, 0x75, 0x3f, 0x45, 0xa3, 0x5e, 0x8b]
    ensures Unpack(0xb5a0_3d69_9ac6_5007) == [0xb5, 0xa0, 0x3d, 0x69, 0x9a, 0xc6, 0x50, 0x07]
    ensures Unpack(0x272c_32ab_0ede_d163) == [0x27, 0x2c, 0x32, 0xab, 0x0e, 0xde, 0xd1, 0x63]
    ensures Unpack(0x1a8b_605a_43ff_5bed) == [0x1a, 0x8b, 0x60, 0x5a, 0x43, 0xff, 0x5b, 0xed]
    ensures Unpack(0x8086_072b_a1e7_cc23) == [0x80, 0x86, 0x07, 0x2b, 0xa1, 0xe7, 0xcc, 0x23]
    ensures Unpack(0x58ba_eca1_34c8_25a7) == [0x58, 0xba, 0xec, 0xa1, 0x34, 0xc8, 0x25, 0xa7]
  {
  }

  /** The digest that is published for SHA-384. */
  function ShortAbc(): seq<byte> {
    [0xcb, 0x00, 0x75, 0x3f, 0x45, 0xa3, 0x5e, 0x8b]
      + [0xb5, 0xa0, 0x3d, 0x69, 0x9a, 0xc6, 0x50, 0x07]
      + [0x27, 0x2c, 0x32, 0xab, 0x0e, 0xde, 0xd1, 0x63]
      + [0x1a, 0x8b, 0x60, 0x5a, 0x43, 0xff, 0x5b, 0xed]
      + [0x80, 0x86, 0x07, 0x2b, 0xa1, 0xe7, 0xcc, 0x23]
      + [0x58, 0xba, 0xec, 0xa1, 0x34, 0xc8, 0x25, 0xa7]
  }

  lemma ShortDigest()
    ensures |Padded()| % BLOCK == 0
    ensures Emit(Absorb(ShortStart(), Padded()), 6) == ShortAbc()
  {
    hide Padded, Compress, Absorb, Emit, Unpack, ShortStart;
    OneBlock(ShortStart(), Padded());
    ShortSum(ShortStart(), Padded());
    ShortBytes();
    var h := Absorb(ShortStart(), Padded());
    EmitFirst(h);
    EmitNext(h, 1);
    EmitNext(h, 2);
    EmitNext(h, 3);
    EmitNext(h, 4);
    EmitNext(h, 5);
  }

  lemma FullBytes()
    ensures Unpack(0xddaf_35a1_9361_7aba) == [0xdd, 0xaf, 0x35, 0xa1, 0x93, 0x61, 0x7a, 0xba]
    ensures Unpack(0xcc41_7349_ae20_4131) == [0xcc, 0x41, 0x73, 0x49, 0xae, 0x20, 0x41, 0x31]
    ensures Unpack(0x12e6_fa4e_89a9_7ea2) == [0x12, 0xe6, 0xfa, 0x4e, 0x89, 0xa9, 0x7e, 0xa2]
    ensures Unpack(0x0a9e_eee6_4b55_d39a) == [0x0a, 0x9e, 0xee, 0xe6, 0x4b, 0x55, 0xd3, 0x9a]
    ensures Unpack(0x2192_992a_274f_c1a8) == [0x21, 0x92, 0x99, 0x2a, 0x27, 0x4f, 0xc1, 0xa8]
    ensures Unpack(0x36ba_3c23_a3fe_ebbd) == [0x36, 0xba, 0x3c, 0x23, 0xa3, 0xfe, 0xeb, 0xbd]
    ensures Unpack(0x454d_4423_643c_e80e) == [0x45, 0x4d, 0x44, 0x23, 0x64, 0x3c, 0xe8, 0x0e]
    ensures Unpack(0x2a9a_c94f_a54c_a49f) == [0x2a, 0x9a, 0xc9, 0x4f, 0xa5, 0x4c, 0xa4, 0x9f]
  {
  }

  /** The digest that is published for SHA-512. */
  function FullAbc(): seq<byte> {
    [0xdd, 0xaf, 0x35, 0xa1, 0x93, 0x61, 0x7a, 0xba]
      + [0xcc, 0x41, 0x73, 0x49, 0xae, 0x20, 0x41, 0x31]
      + [0x12, 0xe6, 0xfa, 0x4e, 0x89, 0xa9, 0x7e, 0xa2]
      + [0x0a, 0x9e, 0xee, 0xe6, 0x4b, 0x55, 0xd3, 0x9a]
      + [0x21, 0x92, 0x99, 0x2a, 0x27, 0x4f, 0xc1, 0xa8]
      + [0x36, 0xba, 0x3c, 0x23, 0xa3, 0xfe, 0xeb, 0xbd]
      + [0x45, 0x4d, 0x44, 0x23, 0x64, 0x3c, 0xe8, 0x0e]
      + [0x2a, 0x9a, 0xc9, 0x4f, 0xa5, 0x4c, 0xa4, 0x9f]
  }

  lemma FullDigest()
    ensures |Padded()| % BLOCK == 0
    ensures Emit(Absorb(Start(), Padded()), 8) == FullAbc()
  {
    hide Padded, Compress, Absorb, Emit, Unpack, Start;
    OneBlock(Start(), Padded());
    FullSum(Start(), Padded());
    FullBytes();
    var h := Absorb(Start(), Padded());
    EmitFirst(h);
    EmitNext(h, 1);
    EmitNext(h, 2);
    EmitNext(h, 3);
    EmitNext(h, 4);
    EmitNext(h, 5);
    EmitNext(h, 6);
    EmitNext(h, 7);
  }
}
