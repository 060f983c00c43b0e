/**
 The check value that crc64.c gives for its function: the checksum of the digits 1 to 9. It fixes
 the polynomial, the direction of the register and its start.
 */
module CrcCheck {
  import opened Words
  import opened CrcSpec

  const DIGITS: seq<bv8> := [0x31, 0x32, 0x33, 0x34, 0x35, 0x36, 0x37, 0x38, 0x39]

  lemma EightBits(c: seq<bv64>)
    requires |c| == 9 && forall i :: 0 <= i < 8 ==> ZeroBit(c[i]) == c[i + 1]
    ensures ZeroBits(c[0], 8) == c[8]
  {
    hide ZeroBit;
    Bits(c, 0);
  }

  lemma {:induction false} Bits(c: seq<bv64>, i: nat)
    requires |c| == 9 && i <= 8 && forall i :: 0 <= i < 8 ==> ZeroBit(c[i]) == c[i + 1]
    ensures ZeroBits(c[i], 8 - i) == c[8]
    decreases 8 - i
  {
    hide ZeroBit;
    if i < 8 {
      assert ZeroBit(c[i]) == c[i + 1];
      Bits(c, i + 1);
    }
  }

  lemma Digit1()
    ensures Absorb(0x0000_0000_0000_0000, 0x31) == 0xfdc1_7184_a9f7_39fa
  {
    var c: seq<bv64> := [0x0000_0000_0000_0031, 0x95ac_9329_ac4b_c9ad, 0xdf7a_dabd_7a6e_2d63,
                         0xfa11_fe77_117c_df04, 0x7d08_ff3b_88be_6f82, 0x3e84_7f9d_c45f_37c1,
                         0x8aee_ace7_4e64_5255, 0xd0db_c55a_0b79_e09f, 0xfdc1_7184_a9f7_39fa];
    assert Xor(0x0000_0000_0000_0000, OfByte(0x31)) == c[0];
    assert ZeroBit(c[0]) == c[1];
    assert ZeroBit(c[1]) == c[2];
    assert ZeroBit(c[2]) == c[3];
    assert ZeroBit(c[3]) == c[4];
    assert ZeroBit(c[4]) == c[5];
    assert ZeroBit(c[5]) == c[6];
    assert ZeroBit(c[6]) == c[7];
    assert ZeroBit(c[7]) == c[8];
    hide ZeroBit, Xor, OfByte;
    EightBits(c);
  }

  lemma Digit2()
    ensures Absorb(0xfdc1_7184_a9f7_39fa, 0x32) == 0xe103_6451_3a98_ed96
  {
    var c: seq<bv64> := [0xfdc1_7184_a9f7_39c8, 0x7ee0_b8c2_54fb_9ce4, 0x3f70_5c61_2a7d_ce72,
                         0x1fb8_2e30_953e_e739, 0x9a70_8431_e6d4_ba29, 0xd894_d131_5f21_94a1,
                         0xf9e6_fbb1_03db_03e5, 0xe95f_eef1_2da6_4847, 0xe103_6451_3a98_ed96];
    assert Xor(0xfdc1_7184_a9f7_39fa, OfByte(0x32)) == c[0];
    assert ZeroBit(c[0]) == c[1];
    assert ZeroBit(c[1]) == c[2];
    assert ZeroBit(c[2]) == c[3];
    assert ZeroBit(c[3]) == c[4];
    assert ZeroBit(c[4]) == c[5];
    assert ZeroBit(c[5]) == c[6];
    assert ZeroBit(c[6]) == c[7];
    assert ZeroBit(c[7]) == c[8];
    hide ZeroBit, Xor, OfByte;
    EightBits(c);
  }

  lemma Digit3()
    ensures Absorb(0xe103_6451_3a98_ed96, 0x33) == 0xd5bc_fb81_4479_b1ac
  {
    var c: seq<bv64> := [0xe103_6451_3a98_eda5, 0xe52d_2101_3107_bf67, 0xe73a_03a9_34c8_1606,
                         0x739d_01d4_9a64_0b03, 0xac62_13c3_e179_cc34, 0x5631_09e1_f0bc_e61a,
                         0x2b18_84f0_f85e_730d, 0x8020_d151_d064_f033, 0xd5bc_fb81_4479_b1ac];
    assert Xor(0xe103_6451_3a98_ed96, OfByte(0x33)) == c[0];
    assert ZeroBit(c[0]) == c[1];
    assert ZeroBit(c[1]) == c[2];
    assert ZeroBit(c[2]) == c[3];
    assert ZeroBit(c[3]) == c[4];
    assert ZeroBit(c[4]) == c[5];
    assert ZeroBit(c[5]) == c[6];
    assert ZeroBit(c[6]) == c[7];
    assert ZeroBit(c[7]) == c[8];
    hide ZeroBit, Xor, OfByte;
    EightBits(c);
  }

  lemma Digit4()
    ensures Absorb(0xd5bc_fb81_4479_b1ac, 0x34) == 0x4359_3c5d_cda5_21f0
  {
    var c: seq<bv64> := [0xd5bc_fb81_4479_b198, 0x6ade_7dc0_a23c_d8cc, 0x356f_3ee0_511e_6c66,
                         0x1ab7_9f70_288f_3633, 0x98f7_5c91_b80c_52ac, 0x4c7b_ae48_dc06_2956,
                         0x263d_d724_6e03_14ab, 0x86b2_78bb_9b4a_43e0, 0x4359_3c5d_cda5_21f0];
    assert Xor(0xd5bc_fb81_4479_b1ac, OfByte(0x34)) == c[0];
    assert ZeroBit(c[0]) == c[1];
    assert ZeroBit(c[1]) == c[2];
    assert ZeroBit(c[2]) == c[3];
    assert ZeroBit(c[3]) == c[4];
    assert ZeroBit(c[4]) == c[5];
    assert ZeroBit(c[5]) == c[6];
    assert ZeroBit(c[6]) == c[7];
    assert ZeroBit(c[7]) == c[8];
    hide ZeroBit, Xor, OfByte;
    EightBits(c);
  }

  lemma Digit5()
    ensures Absorb(0x4359_3c5d_cda5_21f0, 0x35) == 0xf075_8513_239c_7e0d
  {
    var c: seq<bv64> := [0x4359_3c5d_cda5_21c5, 0xb400_0d07_4a99_5957, 0xcfac_95aa_0907_651e,
                         0x67d6_4ad5_0483_b28f, 0xa647_b643_2e0a_10f2, 0x5323_db21_9705_0879,
                         0xbc3d_7eb9_67c9_4d89, 0xcbb2_2c75_1faf_6f71, 0xf075_8513_239c_7e0d];
    assert Xor(0x4359_3c5d_cda5_21f0, OfByte(0x35)) == c[0];
    assert ZeroBit(c[0]) == c[1];
    assert ZeroBit(c[1]) == c[2];
    assert ZeroBit(c[2]) == c[3];
    assert ZeroBit(c[3]) == c[4];
    assert ZeroBit(c[4]) == c[5];
    assert ZeroBit(c[5]) == c[6];
    assert ZeroBit(c[6]) == c[7];
    assert ZeroBit(c[7]) == c[8];
    hide ZeroBit, Xor, OfByte;
    EightBits(c);
  }

  lemma Digit6()
    ensures Absorb(0xf075_8513_239c_7e0d, 0x36) == 0xa3a9_0925_b2ab_4903
  {
    var c: seq<bv64> := [0xf075_8513_239c_7e3b, 0xed96_51a0_3d85_f6a8, 0x76cb_28d0_1ec2_fb54,
                         0x3b65_9468_0f61_7daa, 0x1db2_ca34_07b0_bed5, 0x9b75_f633_af93_96df,
                         0xd816_6830_7b82_02da, 0x6c0b_3418_3dc1_016d, 0xa3a9_0925_b2ab_4903];
    assert Xor(0xf075_8513_239c_7e0d, OfByte(0x36)) == c[0];
    assert ZeroBit(c[0]) == c[1];
    assert ZeroBit(c[1]) == c[2];
    assert ZeroBit(c[2]) == c[3];
    assert ZeroBit(c[3]) == c[4];
    assert ZeroBit(c[4]) == c[5];
    assert ZeroBit(c[5]) == c[6];
    assert ZeroBit(c[6]) == c[7];
    assert ZeroBit(c[7]) == c[8];
    hide ZeroBit, Xor, OfByte;
    EightBits(c);
  }

  lemma Digit7()
    ensures Absorb(0xa3a9_0925_b2ab_4903, 0x37) == 0x4782_4d36_2431_ad45
  {
    var c: seq<bv64> := [0xa3a9_0925_b2ab_4934, 0x51d4_8492_d955_a49a, 0x28ea_4249_6caa_d24d,
                         0x81d9_b20d_1a1e_a093, 0xd540_4a2f_2144_99fc, 0x6aa0_2517_90a2_4cfe,
                         0x3550_128b_c851_267f, 0x8f04_9a6c_4863_5a8a, 0x4782_4d36_2431_ad45];
    assert Xor(0xa3a9_0925_b2ab_4903, OfByte(0x37)) == c[0];
    assert ZeroBit(c[0]) == c[1];
    assert ZeroBit(c[1]) == c[2];
    assert ZeroBit(c[2]) == c[3];
    assert ZeroBit(c[3]) == c[4];
    assert ZeroBit(c[4]) == c[5];
    assert ZeroBit(c[5]) == c[6];
    assert ZeroBit(c[6]) == c[7];
    assert ZeroBit(c[7]) == c[8];
    hide ZeroBit, Xor, OfByte;
    EightBits(c);
  }

  lemma Digit8()
    ensures Absorb(0x4782_4d36_2431_ad45, 0x38) == 0x49ec_20b3_15e8_6dc2
  {
    var c: seq<bv64> := [0x4782_4d36_2431_ad7d, 0xb66d_b5b2_be53_1f0b, 0xce9a_49f0_f362_4630,
                         0x674d_24f8_79b1_2318, 0x33a6_927c_3cd8_918c, 0x19d3_493e_1e6c_48c6,
                         0x0ce9_a49f_0f36_2463, 0x93d8_4166_2bd0_db84, 0x49ec_20b3_15e8_6dc2];
    assert Xor(0x4782_4d36_2431_ad45, OfByte(0x38)) == c[0];
    assert ZeroBit(c[0]) == c[1];
    assert ZeroBit(c[1]) == c[2];
    assert ZeroBit(c[2]) == c[3];
    assert ZeroBit(c[3]) == c[4];
    assert ZeroBit(c[4]) == c[5];
    assert ZeroBit(c[5]) == c[6];
    assert ZeroBit(c[6]) == c[7];
    assert ZeroBit(c[7]) == c[8];
    hide ZeroBit, Xor, OfByte;
    EightBits(c);
  }

  lemma Digit9()
    ensures Absorb(0x49ec_20b3_15e8_6dc2, 0x39) == 0xe9c6_d914_c4b8_d9ca
  {
    var c: seq<bv64> := [0x49ec_20b3_15e8_6dfb, 0xb15a_8370_26bf_ff48, 0x58ad_41b8_135f_ffa4,
                         0x2c56_a0dc_09af_ffd2, 0x162b_506e_04d7_ffe9, 0x9eb9_3b1e_ae20_3641,
                         0xdaf0_0ea6_fb5b_d295, 0xf8d4_947a_d1e6_20ff, 0xe9c6_d914_c4b8_d9ca];
    assert Xor(0x49ec_20b3_15e8_6dc2, OfByte(0x39)) == c[0];
    assert ZeroBit(c[0]) == c[1];
    assert ZeroBit(c[1]) == c[2];
    assert ZeroBit(c[2]) == c[3];
    assert ZeroBit(c[3]) == c[4];
    assert ZeroBit(c[4]) == c[5];
    assert ZeroBit(c[5]) == c[6];
    assert ZeroBit(c[6]) == c[7];
    assert ZeroBit(c[7]) == c[8];
    hide ZeroBit, Xor, OfByte;
    EightBits(c);
  }

  lemma CrcStep(c: bv64, b: bv8, s: seq<bv8>, i: nat, next: bv64)
    requires i < |s| && s[i] == b && Absorb(c, b) == next
    ensures Crc(c, s[i..]) == Crc(next, s[i + 1..])
  {
    hide Absorb;
    assert s[i..][0] == b && s[i..][1..] == s[i + 1..];
  }

  /** The check value. */
  lemma CheckValue()
    ensures Crc(0, DIGITS) == 0xe9c6_d914_c4b8_d9ca
  {
    hide Absorb, Crc;
    Digit1();
    CrcStep(0x0000_0000_0000_0000, 0x31, DIGITS, 0, 0xfdc1_7184_a9f7_39fa);
    Digit2();
    CrcStep(0xfdc1_7184_a9f7_39fa, 0x32, DIGITS, 1, 0xe103_6451_3a98_ed96);
    Digit3();
    CrcStep(0xe103_6451_3a98_ed96, 0x33, DIGITS, 2, 0xd5bc_fb81_4479_b1ac);
    Digit4();
    CrcStep(0xd5bc_fb81_4479_b1ac, 0x34, DIGITS, 3, 0x4359_3c5d_cda5_21f0);
    Digit5();
    CrcStep(0x4359_3c5d_cda5_21f0, 0x35, DIGITS, 4, 0xf075_8513_239c_7e0d);
    Digit6();
    CrcStep(0xf075_8513_239c_7e0d, 0x36, DIGITS, 5, 0xa3a9_0925_b2ab_4903);
    Digit7();
    CrcStep(0xa3a9_0925_b2ab_4903, 0x37, DIGITS, 6, 0x4782_4d36_2431_ad45);
    Digit8();
    CrcStep(0x4782_4d36_2431_ad45, 0x38, DIGITS, 7, 0x49ec_20b3_15e8_6dc2);
    Digit9();
    CrcStep(0x49ec_20b3_15e8_6dc2, 0x39, DIGITS, 8, 0xe9c6_d914_c4b8_d9ca);
    assert DIGITS[0..] == DIGITS && DIGITS[9..] == [];
    CrcNothing(0xe9c6_d914_c4b8_d9ca);
  }

  lemma CrcNothing(c: bv64)
    ensures Crc(c, []) == c
  {
  }
}
