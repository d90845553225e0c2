/**
 * Where the constants of SHA-2 come from (sections 4.2.2, 4.2.3 and 5.3 of
 * FIPS 180-4): the first bits of the fractional parts of cube and square roots.
 */
module Sha2Constants {
  import Sha256
  import Sha512
  import opened Primes

  const UNIT32: nat := 0x1_0000_0000
  const UNIT64: nat := 0x1_0000_0000_0000_0000

  function Square(n: nat): nat {
    n * n
  }

  function Cube(n: nat): nat {
    n * n * n
  }

  /** a + k / unit is the root of p, rounded down to a multiple of 1 / unit. */
  predicate SquareRoot(a: nat, k: nat, p: nat, unit: nat) {
    k < unit && Square(a * unit + k) <= p * Square(unit) < Square(a * unit + k + 1)
  }

  predicate CubeRoot(a: nat, k: nat, p: nat, unit: nat) {
    k < unit && Cube(a * unit + k) <= p * Cube(unit) < Cube(a * unit + k + 1)
  }

  /** k / unit is the fractional part of the root of p, rounded down. */
  ghost predicate SquareFraction(k: nat, p: nat, unit: nat) {
    exists a: nat :: SquareRoot(a, k, p, unit)
  }

  ghost predicate CubeFraction(k: nat, p: nat, unit: nat) {
    exists a: nat :: CubeRoot(a, k, p, unit)
  }

  // ----- eight words of the tables -----

  ghost predicate CubeRow(r: nat, k: seq<nat>, unit: nat)
    requires r < 10
  {
    && |k| == 8
    && CubeFraction(k[0], PrimeRow(r)[0], unit) && CubeFraction(k[1], PrimeRow(r)[1], unit)
    && CubeFraction(k[2], PrimeRow(r)[2], unit) && CubeFraction(k[3], PrimeRow(r)[3], unit)
    && CubeFraction(k[4], PrimeRow(r)[4], unit) && CubeFraction(k[5], PrimeRow(r)[5], unit)
    && CubeFraction(k[6], PrimeRow(r)[6], unit) && CubeFraction(k[7], PrimeRow(r)[7], unit)
  }

  ghost predicate SquareRow(r: nat, k: seq<nat>, unit: nat)
    requires r < 10
  {
    && |k| == 8
    && SquareFraction(k[0], PrimeRow(r)[0], unit) && SquareFraction(k[1], PrimeRow(r)[1], unit)
    && SquareFraction(k[2], PrimeRow(r)[2], unit) && SquareFraction(k[3], PrimeRow(r)[3], unit)
    && SquareFraction(k[4], PrimeRow(r)[4], unit) && SquareFraction(k[5], PrimeRow(r)[5], unit)
    && SquareFraction(k[6], PrimeRow(r)[6], unit) && SquareFraction(k[7], PrimeRow(r)[7], unit)
  }

  function Numbers(k: seq<Sha256.Word>): (n: seq<nat>)
    ensures |n| == |k|
  {
    seq(|k|, i requires 0 <= i < |k| => k[i] as nat)
  }

  function LongNumbers(k: seq<Sha512.Word>): (n: seq<nat>)
    ensures |n| == |k|
  {
    seq(|k|, i requires 0 <= i < |k| => k[i] as nat)
  }

  lemma Keys0Roots()
    ensures CubeRoot(1, 0x428a_2f98, 2, UNIT32)
    ensures CubeRoot(1, 0x7137_4491, 3, UNIT32)
    ensures CubeRoot(1, 0xb5c0_fbcf, 5, UNIT32)
    ensures CubeRoot(1, 0xe9b5_dba5, 7, UNIT32)
    ensures CubeRoot(2, 0x3956_c25b, 11, UNIT32)
    ensures CubeRoot(2, 0x59f1_11f1, 13, UNIT32)
    ensures CubeRoot(2, 0x923f_82a4, 17, UNIT32)
    ensures CubeRoot(2, 0xab1c_5ed5, 19, UNIT32)
  {
  }

  lemma Keys0Numbers()
    ensures Numbers(Sha256.KeyRow(0)) == [
      0x428a_2f98, 0x7137_4491, 0xb5c0_fbcf, 0xe9b5_dba5,
      0x3956_c25b, 0x59f1_11f1, 0x923f_82a4, 0xab1c_5ed5
    ]
  {
  }

  lemma Keys0()
    ensures CubeRow(0, Numbers(Sha256.KeyRow(0)), UNIT32)
  {
    hide CubeRoot, Numbers;
    Keys0Roots();
    Keys0Numbers();
  }

  lemma Keys1Roots()
    ensures CubeRoot(2, 0xd807_aa98, 23, UNIT32)
    ensures CubeRoot(3, 0x1283_5b01, 29, UNIT32)
    ensures CubeRoot(3, 0x2431_85be, 31, UNIT32)
    ensures CubeRoot(3, 0x550c_7dc3, 37, UNIT32)
    ensures CubeRoot(3, 0x72be_5d74, 41, UNIT32)
    ensures CubeRoot(3, 0x80de_b1fe, 43, UNIT32)
    ensures CubeRoot(3, 0x9bdc_06a7, 47, UNIT32)
    ensures CubeRoot(3, 0xc19b_f174, 53, UNIT32)
  {
  }

  lemma Keys1Numbers()
    ensures Numbers(Sha256.KeyRow(1)) == [
      0xd807_aa98, 0x1283_5b01, 0x2431_85be, 0x550c_7dc3,
      0x72be_5d74, 0x80de_b1fe, 0x9bdc_06a7, 0xc19b_f174
    ]
  {
  }

  lemma Keys1()
    ensures CubeRow(1, Numbers(Sha256.KeyRow(1)), UNIT32)
  {
    hide CubeRoot, Numbers;
    Keys1Roots();
    Keys1Numbers();
  }

  lemma Keys2Roots()
    ensures CubeRoot(3, 0xe49b_69c1, 59, UNIT32)
    ensures CubeRoot(3, 0xefbe_4786, 61, UNIT32)
    ensures CubeRoot(4, 0x0fc1_9dc6, 67, UNIT32)
    ensures CubeRoot(4, 0x240c_a1cc, 71, UNIT32)
    ensures CubeRoot(4, 0x2de9_2c6f, 73, UNIT32)
    ensures CubeRoot(4, 0x4a74_84aa, 79, UNIT32)
    ensures CubeRoot(4, 0x5cb0_a9dc, 83, UNIT32)
    ensures CubeRoot(4, 0x76f9_88da, 89, UNIT32)
  {
  }

  lemma Keys2Numbers()
    ensures Numbers(Sha256.KeyRow(2)) == [
      0xe49b_69c1, 0xefbe_4786, 0x0fc1_9dc6, 0x240c_a1cc,
      0x2de9_2c6f, 0x4a74_84aa, 0x5cb0_a9dc, 0x76f9_88da
    ]
  {
  }

  lemma Keys2()
    ensures CubeRow(2, Numbers(Sha256.KeyRow(2)), UNIT32)
  {
    hide CubeRoot, Numbers;
    Keys2Roots();
    Keys2Numbers();
  }

  lemma Keys3Roots()
    ensures CubeRoot(4, 0x983e_5152, 97, UNIT32)
    ensures CubeRoot(4, 0xa831_c66d, 101, UNIT32)
    ensures CubeRoot(4, 0xb003_27c8, 103, UNIT32)
    ensures CubeRoot(4, 0xbf59_7fc7, 107, UNIT32)
    ensures CubeRoot(4, 0xc6e0_0bf3, 109, UNIT32)
    ensures CubeRoot(4, 0xd5a7_9147, 113, UNIT32)
    ensures CubeRoot(5, 0x06ca_6351, 127, UNIT32)
    ensures CubeRoot(5, 0x1429_2967, 131, UNIT32)
  {
  }

  lemma Keys3Numbers()
    ensures Numbers(Sha256.KeyRow(3)) == [
      0x983e_5152, 0xa831_c66d, 0xb003_27c8, 0xbf59_7fc7,
      0xc6e0_0bf3, 0xd5a7_9147, 0x06ca_6351, 0x1429_2967
    ]
  {
  }

  lemma Keys3()
    ensures CubeRow(3, Numbers(Sha256.KeyRow(3)), UNIT32)
  {
    hide CubeRoot, Numbers;
    Keys3Roots();
    Keys3Numbers();
  }

  lemma Keys4Roots()
    ensures CubeRoot(5, 0x27b7_0a85, 137, UNIT32)
    ensures CubeRoot(5, 0x2e1b_2138, 139, UNIT32)
    ensures CubeRoot(5, 0x4d2c_6dfc, 149, UNIT32)
    ensures CubeRoot(5, 0x5338_0d13, 151, UNIT32)
    ensures CubeRoot(5, 0x650a_7354, 157, UNIT32)
    ensures CubeRoot(5, 0x766a_0abb, 163, UNIT32)
    ensures CubeRoot(5, 0x81c2_c92e, 167, UNIT32)
    ensures CubeRoot(5, 0x9272_2c85, 173, UNIT32)
  {
  }

  lemma Keys4Numbers()
    ensures Numbers(Sha256.KeyRow(4)) == [
      0x27b7_0a85, 0x2e1b_2138, 0x4d2c_6dfc, 0x5338_0d13,
      0x650a_7354, 0x766a_0abb, 0x81c2_c92e, 0x9272_2c85
    ]
  {
  }

  lemma Keys4()
    ensures CubeRow(4, Numbers(Sha256.KeyRow(4)), UNIT32)
  {
    hide CubeRoot, Numbers;
    Keys4Roots();
    Keys4Numbers();
  }

  lemma Keys5Roots()
    ensures CubeRoot(5, 0xa2bf_e8a1, 179, UNIT32)
    ensures CubeRoot(5, 0xa81a_664b, 181, UNIT32)
    ensures CubeRoot(5, 0xc24b_8b70, 191, UNIT32)
    ensures CubeRoot(5, 0xc76c_51a3, 193, UNIT32)
    ensures CubeRoot(5, 0xd192_e819, 197, UNIT32)
    ensures CubeRoot(5, 0xd699_0624, 199, UNIT32)
    ensures CubeRoot(5, 0xf40e_3585, 211, UNIT32)
    ensures CubeRoot(6, 0x106a_a070, 223, UNIT32)
  {
  }

  lemma Keys5Numbers()
    ensures Numbers(Sha256.KeyRow(5)) == [
      0xa2bf_e8a1, 0xa81a_664b, 0xc24b_8b70, 0xc76c_51a3,
      0xd192_e819, 0xd699_0624, 0xf40e_3585, 0x106a_a070
    ]
  {
  }

  lemma Keys5()
    ensures CubeRow(5, Numbers(Sha256.KeyRow(5)), UNIT32)
  {
    hide CubeRoot, Numbers;
    Keys5Roots();
    Keys5Numbers();
  }

  lemma Keys6Roots()
    ensures CubeRoot(6, 0x19a4_c116, 227, UNIT32)
    ensures CubeRoot(6, 0x1e37_6c08, 229, UNIT32)
    ensures CubeRoot(6, 0x2748_774c, 233, UNIT32)
    ensures CubeRoot(6, 0x34b0_bcb5, 239, UNIT32)
    ensures CubeRoot(6, 0x391c_0cb3, 241, UNIT32)
    ensures CubeRoot(6, 0x4ed8_aa4a, 251, UNIT32)
    ensures CubeRoot(6, 0x5b9c_ca4f, 257, UNIT32)
    ensures CubeRoot(6, 0x682e_6ff3, 263, UNIT32)
  {
  }

  lemma Keys6Numbers()
    ensures Numbers(Sha256.KeyRow(6)) == [
      0x19a4_c116, 0x1e37_6c08, 0x2748_774c, 0x34b0_bcb5,
      0x391c_0cb3, 0x4ed8_aa4a, 0x5b9c_ca4f, 0x682e_6ff3
    ]
  {
  }

  lemma Keys6()
    ensures CubeRow(6, Numbers(Sha256.KeyRow(6)), UNIT32)
  {
    hide CubeRoot, Numbers;
    Keys6Roots();
    Keys6Numbers();
  }

  lemma Keys7Roots()
    ensures CubeRoot(6, 0x748f_82ee, 269, UNIT32)
    ensures CubeRoot(6, 0x78a5_636f, 271, UNIT32)
    ensures CubeRoot(6, 0x84c8_7814, 277, UNIT32)
    ensures CubeRoot(6, 0x8cc7_0208, 281, UNIT32)
    ensures CubeRoot(6, 0x90be_fffa, 283, UNIT32)
    ensures CubeRoot(6, 0xa450_6ceb, 293, UNIT32)
    ensures CubeRoot(6, 0xbef9_a3f7, 307, UNIT32)
    ensures CubeRoot(6, 0xc671_78f2, 311, UNIT32)
  {
  }

  lemma Keys7Numbers()
    ensures Numbers(Sha256.KeyRow(7)) == [
      0x748f_82ee, 0x78a5_636f, 0x84c8_7814, 0x8cc7_0208,
      0x90be_fffa, 0xa450_6ceb, 0xbef9_a3f7, 0xc671_78f2
    ]
  {
  }

  lemma Keys7()
    ensures CubeRow(7, Numbers(Sha256.KeyRow(7)), UNIT32)
  {
    hide CubeRoot, Numbers;
    Keys7Roots();
    Keys7Numbers();
  }

  lemma LongKeys0Roots()
    ensures CubeRoot(1, 0x428a_2f98_d728_ae22, 2, UNIT64)
    ensures CubeRoot(1, 0x7137_4491_23ef_65cd, 3, UNIT64)
    ensures CubeRoot(1, 0xb5c0_fbcf_ec4d_3b2f, 5, UNIT64)
    ensures CubeRoot(1, 0xe9b5_dba5_8189_dbbc, 7, UNIT64)
    ensures CubeRoot(2, 0x3956_c25b_f348_b538, 11, UNIT64)
    ensures CubeRoot(2, 0x59f1_11f1_b605_d019, 13, UNIT64)
    ensures CubeRoot(2, 0x923f_82a4_af19_4f9b, 17, UNIT64)
    ensures CubeRoot(2, 0xab1c_5ed5_da6d_8118, 19, UNIT64)
  {
  }

  lemma LongKeys0Numbers()
    ensures LongNumbers(Sha512.KeyRow(0)) == [
      0x428a_2f98_d728_ae22, 0x7137_4491_23ef_65cd, 0xb5c0_fbcf_ec4d_3b2f, 0xe9b5_dba5_8189_dbbc,
      0x3956_c25b_f348_b538, 0x59f1_11f1_b605_d019, 0x923f_82a4_af19_4f9b, 0xab1c_5ed5_da6d_8118
    ]
  {
  }

  lemma LongKeys0()
    ensures CubeRow(0, LongNumbers(Sha512.KeyRow(0)), UNIT64)
  {
    hide CubeRoot, LongNumbers;
    LongKeys0Roots();
    LongKeys0Numbers();
  }

  lemma LongKeys1Roots()
    ensures CubeRoot(2, 0xd807_aa98_a303_0242, 23, UNIT64)
    ensures CubeRoot(3, 0x1283_5b01_4570_6fbe, 29, UNIT64)
    ensures CubeRoot(3, 0x2431_85be_4ee4_b28c, 31, UNIT64)
    ensures CubeRoot(3, 0x550c_7dc3_d5ff_b4e2, 37, UNIT64)
    ensures CubeRoot(3, 0x72be_5d74_f27b_896f, 41, UNIT64)
    ensures CubeRoot(3, 0x80de_b1fe_3b16_96b1, 43, UNIT64)
    ensures CubeRoot(3, 0x9bdc_06a7_25c7_1235, 47, UNIT64)
    ensures CubeRoot(3, 0xc19b_f174_cf69_2694, 53, UNIT64)
  {
  }

  lemma LongKeys1Numbers()
    ensures LongNumbers(Sha512.KeyRow(1)) == [
      0xd807_aa98_a303_0242, 0x1283_5b01_4570_6fbe, 0x2431_85be_4ee4_b28c, 0x550c_7dc3_d5ff_b4e2,
      0x72be_5d74_f27b_896f, 0x80de_b1fe_3b16_96b1, 0x9bdc_06a7_25c7_1235, 0xc19b_f174_cf69_2694
    ]
  {
  }

  lemma LongKeys1()
    ensures CubeRow(1, LongNumbers(Sha512.KeyRow(1)), UNIT64)
  {
    hide CubeRoot, LongNumbers;
    LongKeys1Roots();
    LongKeys1Numbers();
  }

  lemma LongKeys2Roots()
    ensures CubeRoot(3, 0xe49b_69c1_9ef1_4ad2, 59, UNIT64)
    ensures CubeRoot(3, 0xefbe_4786_384f_25e3, 61, UNIT64)
    ensures CubeRoot(4, 0x0fc1_9dc6_8b8c_d5b5, 67, UNIT64)
    ensures CubeRoot(4, 0x240c_a1cc_77ac_9c65, 71, UNIT64)
    ensures CubeRoot(4, 0x2de9_2c6f_592b_0275, 73, UNIT64)
    ensures CubeRoot(4, 0x4a74_84aa_6ea6_e483, 79, UNIT64)
    ensures CubeRoot(4, 0x5cb0_a9dc_bd41_fbd4, 83, UNIT64)
    ensures CubeRoot(4, 0x76f9_88da_8311_53b5, 89, UNIT64)
  {
  }

  lemma LongKeys2Numbers()
    ensures LongNumbers(Sha512.KeyRow(2)) == [
      0xe49b_69c1_9ef1_4ad2, 0xefbe_4786_384f_25e3, 0x0fc1_9dc6_8b8c_d5b5, 0x240c_a1cc_77ac_9c65,
      0x2de9_2c6f_592b_0275, 0x4a74_84aa_6ea6_e483, 0x5cb0_a9dc_bd41_fbd4, 0x76f9_88da_8311_53b5
    ]
  {
  }

  lemma LongKeys2()
    ensures CubeRow(2, LongNumbers(Sha512.KeyRow(2)), UNIT64)
  {
    hide CubeRoot, LongNumbers;
    LongKeys2Roots();
    LongKeys2Numbers();
  }

  lemma LongKeys3Roots()
    ensures CubeRoot(4, 0x983e_5152_ee66_dfab, 97, UNIT64)
    ensures CubeRoot(4, 0xa831_c66d_2db4_3210, 101, UNIT64)
    ensures CubeRoot(4, 0xb003_27c8_98fb_213f, 103, UNIT64)
    ensures CubeRoot(4, 0xbf59_7fc7_beef_0ee4, 107, UNIT64)
    ensures CubeRoot(4, 0xc6e0_0bf3_3da8_8fc2, 109, UNIT64)
    ensures CubeRoot(4, 0xd5a7_9147_930a_a725, 113, UNIT64)
    ensures CubeRoot(5, 0x06ca_6351_e003_826f, 127, UNIT64)
    ensures CubeRoot(5, 0x1429_2967_0a0e_6e70, 131, UNIT64)
  {
  }

  lemma LongKeys3Numbers()
    ensures LongNumbers(Sha512.KeyRow(3)) == [
      0x983e_5152_ee66_dfab, 0xa831_c66d_2db4_3210, 0xb003_27c8_98fb_213f, 0xbf59_7fc7_beef_0ee4,
      0xc6e0_0bf3_3da8_8fc2, 0xd5a7_9147_930a_a725, 0x06ca_6351_e003_826f, 0x1429_2967_0a0e_6e70
    ]
  {
  }

  lemma LongKeys3()
    ensures CubeRow(3, LongNumbers(Sha512.KeyRow(3)), UNIT64)
  {
    hide CubeRoot, LongNumbers;
    LongKeys3Roots();
    LongKeys3Numbers();
  }

  lemma LongKeys4Roots()
    ensures CubeRoot(5, 0x27b7_0a85_46d2_2ffc, 137, UNIT64)
    ensures CubeRoot(5, 0x2e1b_2138_5c26_c926, 139, UNIT64)
    ensures CubeRoot(5, 0x4d2c_6dfc_5ac4_2aed, 149, UNIT64)
    ensures CubeRoot(5, 0x5338_0d13_9d95_b3df, 151, UNIT64)
    ensures CubeRoot(5, 0x650a_7354_8baf_63de, 157, UNIT64)
    ensures CubeRoot(5, 0x766a_0abb_3c77_b2a8, 163, UNIT64)
    ensures CubeRoot(5, 0x81c2_c92e_47ed_aee6, 167, UNIT64)
    ensures CubeRoot(5, 0x9272_2c85_1482_353b, 173, UNIT64)
  {
  }

  lemma LongKeys4Numbers()
    ensures LongNumbers(Sha512.KeyRow(4)) == [
      0x27b7_0a85_46d2_2ffc, 0x2e1b_2138_5c26_c926, 0x4d2c_6dfc_5ac4_2aed, 0x5338_0d13_9d95_b3df,
      0x650a_7354_8baf_63de, 0x766a_0abb_3c77_b2a8, 0x81c2_c92e_47ed_aee6, 0x9272_2c85_1482_353b
    ]
  {
  }

  lemma LongKeys4()
    ensures CubeRow(4, LongNumbers(Sha512.KeyRow(4)), UNIT64)
  {
    hide CubeRoot, LongNumbers;
    LongKeys4Roots();
    LongKeys4Numbers();
  }

  lemma LongKeys5Roots()
    ensures CubeRoot(5, 0xa2bf_e8a1_4cf1_0364, 179, UNIT64)
    ensures CubeRoot(5, 0xa81a_664b_bc42_3001, 181, UNIT64)
    ensures CubeRoot(5, 0xc24b_8b70_d0f8_9791, 191, UNIT64)
    ensures CubeRoot(5, 0xc76c_51a3_0654_be30, 193, UNIT64)
    ensures CubeRoot(5, 0xd192_e819_d6ef_5218, 197, UNIT64)
    ensures CubeRoot(5, 0xd699_0624_5565_a910, 199, UNIT64)
    ensures CubeRoot(5, 0xf40e_3585_5771_202a, 211, UNIT64)
    ensures CubeRoot(6, 0x106a_a070_32bb_d1b8, 223, UNIT64)
  {
  }

  lemma LongKeys5Numbers()
    ensures LongNumbers(Sha512.KeyRow(5)) == [
      0xa2bf_e8a1_4cf1_0364, 0xa81a_664b_bc42_3001, 0xc24b_8b70_d0f8_9791, 0xc76c_51a3_0654_be30,
      0xd192_e819_d6ef_5218, 0xd699_0624_5565_a910, 0xf40e_3585_5771_202a, 0x106a_a070_32bb_d1b8
    ]
  {
  }

  lemma LongKeys5()
    ensures CubeRow(5, LongNumbers(Sha512.KeyRow(5)), UNIT64)
  {
    hide CubeRoot, LongNumbers;
    LongKeys5Roots();
    LongKeys5Numbers();
  }

  lemma LongKeys6Roots()
    ensures CubeRoot(6, 0x19a4_c116_b8d2_d0c8, 227, UNIT64)
    ensures CubeRoot(6, 0x1e37_6c08_5141_ab53, 229, UNIT64)
    ensures CubeRoot(6, 0x2748_774c_df8e_eb99, 233, UNIT64)
    ensures CubeRoot(6, 0x34b0_bcb5_e19b_48a8, 239, UNIT64)
    ensures CubeRoot(6, 0x391c_0cb3_c5c9_5a63, 241, UNIT64)
    ensures CubeRoot(6, 0x4ed8_aa4a_e341_8acb, 251, UNIT64)
    ensures CubeRoot(6, 0x5b9c_ca4f_7763_e373, 257, UNIT64)
    ensures CubeRoot(6, 0x682e_6ff3_d6b2_b8a3, 263, UNIT64)
  {
  }

  lemma LongKeys6Numbers()
    ensures LongNumbers(Sha512.KeyRow(6)) == [
      0x19a4_c116_b8d2_d0c8, 0x1e37_6c08_5141_ab53, 0x2748_774c_df8e_eb99, 0x34b0_bcb5_e19b_48a8,
      0x391c_0cb3_c5c9_5a63, 0x4ed8_aa4a_e341_8acb, 0x5b9c_ca4f_7763_e373, 0x682e_6ff3_d6b2_b8a3
    ]
  {
  }

  lemma LongKeys6()
    ensures CubeRow(6, LongNumbers(Sha512.KeyRow(6)), UNIT64)
  {
    hide CubeRoot, LongNumbers;
    LongKeys6Roots();
    LongKeys6Numbers();
  }

  lemma LongKeys7Roots()
    ensures CubeRoot(6, 0x748f_82ee_5def_b2fc, 269, UNIT64)
    ensures CubeRoot(6, 0x78a5_636f_4317_2f60, 271, UNIT64)
    ensures CubeRoot(6, 0x84c8_7814_a1f0_ab72, 277, UNIT64)
    ensures CubeRoot(6, 0x8cc7_0208_1a64_39ec, 281, UNIT64)
    ensures CubeRoot(6, 0x90be_fffa_2363_1e28, 283, UNIT64)
    ensures CubeRoot(6, 0xa450_6ceb_de82_bde9, 293, UNIT64)
    ensures CubeRoot(6, 0xbef9_a3f7_b2c6_7915, 307, UNIT64)
    ensures CubeRoot(6, 0xc671_78f2_e372_532b, 311, UNIT64)
  {
  }

  lemma LongKeys7Numbers()
    ensures LongNumbers(Sha512.KeyRow(7)) == [
      0x748f_82ee_5def_b2fc, 0x78a5_636f_4317_2f60, 0x84c8_7814_a1f0_ab72, 0x8cc7_0208_1a64_39ec,
      0x90be_fffa_2363_1e28, 0xa450_6ceb_de82_bde9, 0xbef9_a3f7_b2c6_7915, 0xc671_78f2_e372_532b
    ]
  {
  }

  lemma LongKeys7()
    ensures CubeRow(7, LongNumbers(Sha512.KeyRow(7)), UNIT64)
  {
    hide CubeRoot, LongNumbers;
    LongKeys7Roots();
    LongKeys7Numbers();
  }

  lemma LongKeys8Roots()
    ensures CubeRoot(6, 0xca27_3ece_ea26_619c, 313, UNIT64)
    ensures CubeRoot(6, 0xd186_b8c7_21c0_c207, 317, UNIT64)
    ensures CubeRoot(6, 0xeada_7dd6_cde0_eb1e, 331, UNIT64)
    ensures CubeRoot(6, 0xf57d_4f7f_ee6e_d178, 337, UNIT64)
    ensures CubeRoot(7, 0x06f0_67aa_7217_6fba, 347, UNIT64)
    ensures CubeRoot(7, 0x0a63_7dc5_a2c8_98a6, 349, UNIT64)
    ensures CubeRoot(7, 0x113f_9804_bef9_0dae, 353, UNIT64)
    ensures CubeRoot(7, 0x1b71_0b35_131c_471b, 359, UNIT64)
  {
  }

  lemma LongKeys8Numbers()
    ensures LongNumbers(Sha512.KeyRow(8)) == [
      0xca27_3ece_ea26_619c, 0xd186_b8c7_21c0_c207, 0xeada_7dd6_cde0_eb1e, 0xf57d_4f7f_ee6e_d178,
      0x06f0_67aa_7217_6fba, 0x0a63_7dc5_a2c8_98a6, 0x113f_9804_bef9_0dae, 0x1b71_0b35_131c_471b
    ]
  {
  }

  lemma LongKeys8()
    ensures CubeRow(8, LongNumbers(Sha512.KeyRow(8)), UNIT64)
  {
    hide CubeRoot, LongNumbers;
    LongKeys8Roots();
    LongKeys8Numbers();
  }

  lemma LongKeys9Roots()
    ensures CubeRoot(7, 0x28db_77f5_2304_7d84, 367, UNIT64)
    ensures CubeRoot(7, 0x32ca_ab7b_40c7_2493, 373, UNIT64)
    ensures CubeRoot(7, 0x3c9e_be0a_15c9_bebc, 379, UNIT64)
    ensures CubeRoot(7, 0x431d_67c4_9c10_0d4c, 383, UNIT64)
    ensures CubeRoot(7, 0x4cc5_d4be_cb3e_42b6, 389, UNIT64)
    ensures CubeRoot(7, 0x597f_299c_fc65_7e2a, 397, UNIT64)
    ensures CubeRoot(7, 0x5fcb_6fab_3ad6_faec, 401, UNIT64)
    ensures CubeRoot(7, 0x6c44_198c_4a47_5817, 409, UNIT64)
  {
  }

  lemma LongKeys9Numbers()
    ensures LongNumbers(Sha512.KeyRow(9)) == [
      0x28db_77f5_2304_7d84, 0x32ca_ab7b_40c7_2493, 0x3c9e_be0a_15c9_bebc, 0x431d_67c4_9c10_0d4c,
      0x4cc5_d4be_cb3e_42b6, 0x597f_299c_fc65_7e2a, 0x5fcb_6fab_3ad6_faec, 0x6c44_198c_4a47_5817
    ]
  {
  }

  lemma LongKeys9()
    ensures CubeRow(9, LongNumbers(Sha512.KeyRow(9)), UNIT64)
  {
    hide CubeRoot, LongNumbers;
    LongKeys9Roots();
    LongKeys9Numbers();
  }

  lemma InitialRoots()
    ensures SquareRoot(1, 0x6a09_e667, 2, UNIT32)
    ensures SquareRoot(1, 0xbb67_ae85, 3, UNIT32)
    ensures SquareRoot(2, 0x3c6e_f372, 5, UNIT32)
    ensures SquareRoot(2, 0xa54f_f53a, 7, UNIT32)
    ensures SquareRoot(3, 0x510e_527f, 11, UNIT32)
    ensures SquareRoot(3, 0x9b05_688c, 13, UNIT32)
    ensures SquareRoot(4, 0x1f83_d9ab, 17, UNIT32)
    ensures SquareRoot(4, 0x5be0_cd19, 19, UNIT32)
  {
  }

  lemma InitialNumbers()
    ensures Numbers(Sha256.Start()) == [
      0x6a09_e667, 0xbb67_ae85, 0x3c6e_f372, 0xa54f_f53a,
      0x510e_527f, 0x9b05_688c, 0x1f83_d9ab, 0x5be0_cd19
    ]
  {
  }

  lemma Initial()
    ensures SquareRow(0, Numbers(Sha256.Start()), UNIT32)
  {
    hide SquareRoot, Numbers;
    InitialRoots();
    InitialNumbers();
  }

  lemma LongInitialRoots()
    ensures SquareRoot(1, 0x6a09_e667_f3bc_c908, 2, UNIT64)
    ensures SquareRoot(1, 0xbb67_ae85_84ca_a73b, 3, UNIT64)
    ensures SquareRoot(2, 0x3c6e_f372_fe94_f82b, 5, UNIT64)
    ensures SquareRoot(2, 0xa54f_f53a_5f1d_36f1, 7, UNIT64)
    ensures SquareRoot(3, 0x510e_527f_ade6_82d1, 11, UNIT64)
    ensures SquareRoot(3, 0x9b05_688c_2b3e_6c1f, 13, UNIT64)
    ensures SquareRoot(4, 0x1f83_d9ab_fb41_bd6b, 17, UNIT64)
    ensures SquareRoot(4, 0x5be0_cd19_137e_2179, 19, UNIT64)
  {
  }

  lemma LongInitialNumbers()
    ensures LongNumbers(Sha512.Start()) == [
      0x6a09_e667_f3bc_c908, 0xbb67_ae85_84ca_a73b, 0x3c6e_f372_fe94_f82b, 0xa54f_f53a_5f1d_36f1,
      0x510e_527f_ade6_82d1, 0x9b05_688c_2b3e_6c1f, 0x1f83_d9ab_fb41_bd6b, 0x5be0_cd19_137e_2179
    ]
  {
  }

  lemma LongInitial()
    ensures SquareRow(0, LongNumbers(Sha512.Start()), UNIT64)
  {
    hide SquareRoot, LongNumbers;
    LongInitialRoots();
    LongInitialNumbers();
  }

  lemma LongShortInitialRoots()
    ensures SquareRoot(4, 0xcbbb_9d5d_c105_9ed8, 23, UNIT64)
    ensures SquareRoot(5, 0x629a_292a_367c_d507, 29, UNIT64)
    ensures SquareRoot(5, 0x9159_015a_3070_dd17, 31, UNIT64)
    ensures SquareRoot(6, 0x152f_ecd8_f70e_5939, 37, UNIT64)
    ensures SquareRoot(6, 0x6733_2667_ffc0_0b31, 41, UNIT64)
    ensures SquareRoot(6, 0x8eb4_4a87_6858_1511, 43, UNIT64)
    ensures SquareRoot(6, 0xdb0c_2e0d_64f9_8fa7, 47, UNIT64)
    ensures SquareRoot(7, 0x47b5_481d_befa_4fa4, 53, UNIT64)
  {
  }

  lemma LongShortInitialNumbers()
    ensures LongNumbers(Sha512.ShortStart()) == [
      0xcbbb_9d5d_c105_9ed8, 0x629a_292a_367c_d507, 0x9159_015a_3070_dd17, 0x152f_ecd8_f70e_5939,
      0x6733_2667_ffc0_0b31, 0x8eb4_4a87_6858_1511, 0xdb0c_2e0d_64f9_8fa7, 0x47b5_481d_befa_4fa4
    ]
  {
  }

  lemma LongShortInitial()
    ensures SquareRow(1, LongNumbers(Sha512.ShortStart()), UNIT64)
  {
    hide SquareRoot, LongNumbers;
    LongShortInitialRoots();
    LongShortInitialNumbers();
  }

  lemma KeyRows(r: nat)
    requires r < 8
    ensures CubeRow(r, Numbers(Sha256.KeyRow(r)), UNIT32)
  {
    hide *;
    if r == 0 {
      Keys0();
    } else if r == 1 {
      Keys1();
    } else if r == 2 {
      Keys2();
    } else if r == 3 {
      Keys3();
    } else if r == 4 {
      Keys4();
    } else if r == 5 {
      Keys5();
    } else if r == 6 {
      Keys6();
    } else {
      Keys7();
    }
  }

  lemma LongKeyRows(r: nat)
    requires r < 10
    ensures CubeRow(r, LongNumbers(Sha512.KeyRow(r)), UNIT64)
  {
    hide *;
    if r == 0 {
      LongKeys0();
    } else if r == 1 {
      LongKeys1();
    } else if r == 2 {
      LongKeys2();
    } else if r == 3 {
      LongKeys3();
    } else if r == 4 {
      LongKeys4();
    } else if r == 5 {
      LongKeys5();
    } else if r == 6 {
      LongKeys6();
    } else if r == 7 {
      LongKeys7();
    } else if r == 8 {
      LongKeys8();
    } else {
      LongKeys9();
    }
  }

  lemma CubeRowAt(r: nat, k: seq<nat>, unit: nat, j: nat)
    requires r < 10 && CubeRow(r, k, unit) && j < 8
    ensures CubeFraction(k[j], PrimeRow(r)[j], unit)
  {
    hide CubeFraction, PrimeRow;
  }

  lemma SquareRowAt(r: nat, k: seq<nat>, unit: nat, j: nat)
    requires r < 10 && SquareRow(r, k, unit) && j < 8
    ensures SquareFraction(k[j], PrimeRow(r)[j], unit)
  {
    hide SquareFraction, PrimeRow;
  }

  // ----- the tables -----

  /** sha256_k: 32 bits of the cube roots of the first 64 primes. */
  lemma KeysAre(t: nat)
    requires t < Sha256.ROUNDS
    ensures CubeFraction(Sha256.Constants()[t] as nat, PrimeAt(t), UNIT32)
  {
    hide Sha256.KeyRow, PrimeRow, CubeRow, CubeFraction;
    KeyRows(t / 8);
    CubeRowAt(t / 8, Numbers(Sha256.KeyRow(t / 8)), UNIT32, t % 8);
  }

  /** sha512_k: 64 bits of the cube roots of the first 80 primes. */
  lemma LongKeysAre(t: nat)
    requires t < Sha512.ROUNDS
    ensures CubeFraction(Sha512.Constants()[t] as nat, PrimeAt(t), UNIT64)
  {
    hide Sha512.KeyRow, PrimeRow, CubeRow, CubeFraction;
    LongKeyRows(t / 8);
    CubeRowAt(t / 8, LongNumbers(Sha512.KeyRow(t / 8)), UNIT64, t % 8);
  }

  /** sha256_h0 and sha512_h0: the square roots of the first eight primes. */
  lemma StartIs(i: nat)
    requires i < 8
    ensures SquareFraction(Sha256.Start()[i] as nat, PrimeAt(i), UNIT32)
    ensures SquareFraction(Sha512.Start()[i] as nat, PrimeAt(i), UNIT64)
  {
    hide Sha256.Start, Sha512.Start, PrimeRow, SquareRow, SquareFraction;
    Initial();
    SquareRowAt(0, Numbers(Sha256.Start()), UNIT32, i);
    LongInitial();
    SquareRowAt(0, LongNumbers(Sha512.Start()), UNIT64, i);
  }

  /** sha384_h0: those of the next eight, and sha224_h0: the lower halves of these. */
  lemma ShortStartIs(i: nat)
    requires i < 8
    ensures SquareFraction(Sha512.ShortStart()[i] as nat, PrimeAt(8 + i), UNIT64)
    ensures Sha256.ShortStart()[i] == (Sha512.ShortStart()[i] & 0xffff_ffff) as Sha256.Word
  {
    LowerHalves();
    hide Sha256.ShortStart, Sha512.ShortStart, PrimeRow, SquareRow, SquareFraction;
    LongShortInitial();
    SquareRowAt(1, LongNumbers(Sha512.ShortStart()), UNIT64, i);
  }

  lemma LowerHalves()
    ensures forall i | 0 <= i < 8 :: Sha256.ShortStart()[i] == (Sha512.ShortStart()[i] & 0xffff_ffff) as Sha256.Word
  {
  }
}
