/** crc64table: the 256 words of the file are those of the generator. */
module ChecksumTable {
  import opened Checksum

  const ROW0: seq<u64> := [
    0x0000_0000_0000_0000, 0x42f0_e1eb_a9ea_3693, 0x85e1_c3d7_53d4_6d26, 0xc711_223c_fa3e_5bb5,
    0x4933_6645_0e42_ecdf, 0x0bc3_87ae_a7a8_da4c, 0xccd2_a592_5d96_81f9, 0x8e22_4479_f47c_b76a,
    0x9266_cc8a_1c85_d9be, 0xd096_2d61_b56f_ef2d, 0x1787_0f5d_4f51_b498, 0x5577_eeb6_e6bb_820b,
    0xdb55_aacf_12c7_3561, 0x99a5_4b24_bb2d_03f2, 0x5eb4_6918_4113_5847, 0x1c44_88f3_e8f9_6ed4]
  const ROW1: seq<u64> := [
    0x663d_78ff_90e1_85ef, 0x24cd_9914_390b_b37c, 0xe3dc_bb28_c335_e8c9, 0xa12c_5ac3_6adf_de5a,
    0x2f0e_1eba_9ea3_6930, 0x6dfe_ff51_3749_5fa3, 0xaaef_dd6d_cd77_0416, 0xe81f_3c86_649d_3285,
    0xf45b_b475_8c64_5c51, 0xb6ab_559e_258e_6ac2, 0x71ba_77a2_dfb0_3177, 0x334a_9649_765a_07e4,
    0xbd68_d230_8226_b08e, 0xff98_33db_2bcc_861d, 0x3889_11e7_d1f2_dda8, 0x7a79_f00c_7818_eb3b]
  const ROW2: seq<u64> := [
    0xcc7a_f1ff_21c3_0bde, 0x8e8a_1014_8829_3d4d, 0x499b_3228_7217_66f8, 0x0b6b_d3c3_dbfd_506b,
    0x8549_97ba_2f81_e701, 0xc7b9_7651_866b_d192, 0x00a8_546d_7c55_8a27, 0x4258_b586_d5bf_bcb4,
    0x5e1c_3d75_3d46_d260, 0x1cec_dc9e_94ac_e4f3, 0xdbfd_fea2_6e92_bf46, 0x990d_1f49_c778_89d5,
    0x172f_5b30_3304_3ebf, 0x55df_badb_9aee_082c, 0x92ce_98e7_60d0_5399, 0xd03e_790c_c93a_650a]
  const ROW3: seq<u64> := [
    0xaa47_8900_b122_8e31, 0xe8b7_68eb_18c8_b8a2, 0x2fa6_4ad7_e2f6_e317, 0x6d56_ab3c_4b1c_d584,
    0xe374_ef45_bf60_62ee, 0xa184_0eae_168a_547d, 0x6695_2c92_ecb4_0fc8, 0x2465_cd79_455e_395b,
    0x3821_458a_ada7_578f, 0x7ad1_a461_044d_611c, 0xbdc0_865d_fe73_3aa9, 0xff30_67b6_5799_0c3a,
    0x7112_23cf_a3e5_bb50, 0x33e2_c224_0a0f_8dc3, 0xf4f3_e018_f031_d676, 0xb603_01f3_59db_e0e5]
  const ROW4: seq<u64> := [
    0xda05_0215_ea6c_212f, 0x98f5_e3fe_4386_17bc, 0x5fe4_c1c2_b9b8_4c09, 0x1d14_2029_1052_7a9a,
    0x9336_6450_e42e_cdf0, 0xd1c6_85bb_4dc4_fb63, 0x16d7_a787_b7fa_a0d6, 0x5427_466c_1e10_9645,
    0x4863_ce9f_f6e9_f891, 0x0a93_2f74_5f03_ce02, 0xcd82_0d48_a53d_95b7, 0x8f72_eca3_0cd7_a324,
    0x0150_a8da_f8ab_144e, 0x43a0_4931_5141_22dd, 0x84b1_6b0d_ab7f_7968, 0xc641_8ae6_0295_4ffb]
  const ROW5: seq<u64> := [
    0xbc38_7aea_7a8d_a4c0, 0xfec8_9b01_d367_9253, 0x39d9_b93d_2959_c9e6, 0x7b29_58d6_80b3_ff75,
    0xf50b_1caf_74cf_481f, 0xb7fb_fd44_dd25_7e8c, 0x70ea_df78_271b_2539, 0x321a_3e93_8ef1_13aa,
    0x2e5e_b660_6608_7d7e, 0x6cae_578b_cfe2_4bed, 0xabbf_75b7_35dc_1058, 0xe94f_945c_9c36_26cb,
    0x676d_d025_684a_91a1, 0x259d_31ce_c1a0_a732, 0xe28c_13f2_3b9e_fc87, 0xa07c_f219_9274_ca14]
  const ROW6: seq<u64> := [
    0x167f_f3ea_cbaf_2af1, 0x548f_1201_6245_1c62, 0x939e_303d_987b_47d7, 0xd16e_d1d6_3191_7144,
    0x5f4c_95af_c5ed_c62e, 0x1dbc_7444_6c07_f0bd, 0xdaad_5678_9639_ab08, 0x985d_b793_3fd3_9d9b,
    0x8419_3f60_d72a_f34f, 0xc6e9_de8b_7ec0_c5dc, 0x01f8_fcb7_84fe_9e69, 0x4308_1d5c_2d14_a8fa,
    0xcd2a_5925_d968_1f90, 0x8fda_b8ce_7082_2903, 0x48cb_9af2_8abc_72b6, 0x0a3b_7b19_2356_4425]
  const ROW7: seq<u64> := [
    0x7042_8b15_5b4e_af1e, 0x32b2_6afe_f2a4_998d, 0xf5a3_48c2_089a_c238, 0xb753_a929_a170_f4ab,
    0x3971_ed50_550c_43c1, 0x7b81_0cbb_fce6_7552, 0xbc90_2e87_06d8_2ee7, 0xfe60_cf6c_af32_1874,
    0xe224_479f_47cb_76a0, 0xa0d4_a674_ee21_4033, 0x67c5_8448_141f_1b86, 0x2535_65a3_bdf5_2d15,
    0xab17_21da_4989_9a7f, 0xe9e7_c031_e063_acec, 0x2ef6_e20d_1a5d_f759, 0x6c06_03e6_b3b7_c1ca]
  const ROW8: seq<u64> := [
    0xf6fa_e5c0_7d32_74cd, 0xb40a_042b_d4d8_425e, 0x731b_2617_2ee6_19eb, 0x31eb_c7fc_870c_2f78,
    0xbfc9_8385_7370_9812, 0xfd39_626e_da9a_ae81, 0x3a28_4052_20a4_f534, 0x78d8_a1b9_894e_c3a7,
    0x649c_294a_61b7_ad73, 0x266c_c8a1_c85d_9be0, 0xe17d_ea9d_3263_c055, 0xa38d_0b76_9b89_f6c6,
    0x2daf_4f0f_6ff5_41ac, 0x6f5f_aee4_c61f_773f, 0xa84e_8cd8_3c21_2c8a, 0xeabe_6d33_95cb_1a19]
  const ROW9: seq<u64> := [
    0x90c7_9d3f_edd3_f122, 0xd237_7cd4_4439_c7b1, 0x1526_5ee8_be07_9c04, 0x57d6_bf03_17ed_aa97,
    0xd9f4_fb7a_e391_1dfd, 0x9b04_1a91_4a7b_2b6e, 0x5c15_38ad_b045_70db, 0x1ee5_d946_19af_4648,
    0x02a1_51b5_f156_289c, 0x4051_b05e_58bc_1e0f, 0x8740_9262_a282_45ba, 0xc5b0_7389_0b68_7329,
    0x4b92_37f0_ff14_c443, 0x0962_d61b_56fe_f2d0, 0xce73_f427_acc0_a965, 0x8c83_15cc_052a_9ff6]
  const ROWA: seq<u64> := [
    0x3a80_143f_5cf1_7f13, 0x7870_f5d4_f51b_4980, 0xbf61_d7e8_0f25_1235, 0xfd91_3603_a6cf_24a6,
    0x73b3_727a_52b3_93cc, 0x3143_9391_fb59_a55f, 0xf652_b1ad_0167_feea, 0xb4a2_5046_a88d_c879,
    0xa8e6_d8b5_4074_a6ad, 0xea16_395e_e99e_903e, 0x2d07_1b62_13a0_cb8b, 0x6ff7_fa89_ba4a_fd18,
    0xe1d5_bef0_4e36_4a72, 0xa325_5f1b_e7dc_7ce1, 0x6434_7d27_1de2_2754, 0x26c4_9ccc_b408_11c7]
  const ROWB: seq<u64> := [
    0x5cbd_6cc0_cc10_fafc, 0x1e4d_8d2b_65fa_cc6f, 0xd95c_af17_9fc4_97da, 0x9bac_4efc_362e_a149,
    0x158e_0a85_c252_1623, 0x577e_eb6e_6bb8_20b0, 0x906f_c952_9186_7b05, 0xd29f_28b9_386c_4d96,
    0xcedb_a04a_d095_2342, 0x8c2b_41a1_797f_15d1, 0x4b3a_639d_8341_4e64, 0x09ca_8276_2aab_78f7,
    0x87e8_c60f_ded7_cf9d, 0xc518_27e4_773d_f90e, 0x0209_05d8_8d03_a2bb, 0x40f9_e433_24e9_9428]
  const ROWC: seq<u64> := [
    0x2cff_e7d5_975e_55e2, 0x6e0f_063e_3eb4_6371, 0xa91e_2402_c48a_38c4, 0xebee_c5e9_6d60_0e57,
    0x65cc_8190_991c_b93d, 0x273c_607b_30f6_8fae, 0xe02d_4247_cac8_d41b, 0xa2dd_a3ac_6322_e288,
    0xbe99_2b5f_8bdb_8c5c, 0xfc69_cab4_2231_bacf, 0x3b78_e888_d80f_e17a, 0x7988_0963_71e5_d7e9,
    0xf7aa_4d1a_8599_6083, 0xb55a_acf1_2c73_5610, 0x724b_8ecd_d64d_0da5, 0x30bb_6f26_7fa7_3b36]
  const ROWD: seq<u64> := [
    0x4ac2_9f2a_07bf_d00d, 0x0832_7ec1_ae55_e69e, 0xcf23_5cfd_546b_bd2b, 0x8dd3_bd16_fd81_8bb8,
    0x03f1_f96f_09fd_3cd2, 0x4101_1884_a017_0a41, 0x8610_3ab8_5a29_51f4, 0xc4e0_db53_f3c3_6767,
    0xd8a4_53a0_1b3a_09b3, 0x9a54_b24b_b2d0_3f20, 0x5d45_9077_48ee_6495, 0x1fb5_719c_e104_5206,
    0x9197_35e5_1578_e56c, 0xd367_d40e_bc92_d3ff, 0x1476_f632_46ac_884a, 0x5686_17d9_ef46_bed9]
  const ROWE: seq<u64> := [
    0xe085_162a_b69d_5e3c, 0xa275_f7c1_1f77_68af, 0x6564_d5fd_e549_331a, 0x2794_3416_4ca3_0589,
    0xa9b6_706f_b8df_b2e3, 0xeb46_9184_1135_8470, 0x2c57_b3b8_eb0b_dfc5, 0x6ea7_5253_42e1_e956,
    0x72e3_daa0_aa18_8782, 0x3013_3b4b_03f2_b111, 0xf702_1977_f9cc_eaa4, 0xb5f2_f89c_5026_dc37,
    0x3bd0_bce5_a45a_6b5d, 0x7920_5d0e_0db0_5dce, 0xbe31_7f32_f78e_067b, 0xfcc1_9ed9_5e64_30e8]
  const ROWF: seq<u64> := [
    0x86b8_6ed5_267c_dbd3, 0xc448_8f3e_8f96_ed40, 0x0359_ad02_75a8_b6f5, 0x41a9_4ce9_dc42_8066,
    0xcf8b_0890_283e_370c, 0x8d7b_e97b_81d4_019f, 0x4a6a_cb47_7bea_5a2a, 0x089a_2aac_d200_6cb9,
    0x14de_a25f_3af9_026d, 0x562e_43b4_9313_34fe, 0x913f_6188_692d_6f4b, 0xd3cf_8063_c0c7_59d8,
    0x5ded_c41a_34bb_eeb2, 0x1f1d_25f1_9d51_d821, 0xd80c_07cd_676f_8394, 0x9afc_e626_ce85_b507]

  const ROWS: seq<seq<u64>> :=
    [ROW0, ROW1, ROW2, ROW3, ROW4, ROW5, ROW6, ROW7, ROW8, ROW9, ROWA, ROWB, ROWC, ROWD, ROWE, ROWF]

  lemma RowLengths()
    ensures |ROWS| == 16 && forall r :: 0 <= r < 16 ==> |ROWS[r]| == 16
  {
  }

  /** The table of the file. */
  function Crc64Table(): (table: CrcTable)
    ensures forall n :: 0 <= n < 256 ==> table[n] == (RowLengths(); ROWS[n / 16][n % 16])
  {
    RowLengths();
    seq(256, n requires 0 <= n < 256 => ROWS[n / 16][n % 16])
  }

  function Entry(t: bv8): u64 {
    Shift8(Aloft(t))
  }

  /** The division is linear, and so is the table. */
  lemma Joined(a: bv8, b: bv8)
    ensures Entry(a ^ b) == Xor(Entry(a), Entry(b))
  {
    hide Shift8, Aloft, Xor;
    AloftXor(a, b);
    Shift8Linear(Aloft(a), Aloft(b));
  }

  lemma AloftXor(a: bv8, b: bv8)
    ensures Aloft(a ^ b) == Xor(Aloft(a), Aloft(b))
  {
  }

  /** The row of the entries from `first` on. */
  ghost predicate IsRow(row: seq<u64>, first: bv8) {
    && |row| == 16
    && row[0] == Entry(first ^ 0) && row[1] == Entry(first ^ 1) && row[2] == Entry(first ^ 2) && row[3] == Entry(first ^ 3)
    && row[4] == Entry(first ^ 4) && row[5] == Entry(first ^ 5) && row[6] == Entry(first ^ 6) && row[7] == Entry(first ^ 7)
    && row[8] == Entry(first ^ 8) && row[9] == Entry(first ^ 9) && row[10] == Entry(first ^ 10) && row[11] == Entry(first ^ 11)
    && row[12] == Entry(first ^ 12) && row[13] == Entry(first ^ 13) && row[14] == Entry(first ^ 14) && row[15] == Entry(first ^ 15)
  }

  /** Each row is the first one with its own first entry added. */
  lemma RowFrom(row: seq<u64>, first: bv8)
    requires IsRow(ROW0, 0) && |row| == 16 && row[0] == Entry(first)
    requires forall j :: 0 < j < 16 ==> row[j] == Xor(row[0], ROW0[j])
    ensures IsRow(row, first)
  {
    hide Entry, Xor, ROW0;
    assert first ^ 0 == first;
    Joined(first, 1);
    Joined(first, 2);
    Joined(first, 3);
    Joined(first, 4);
    Joined(first, 5);
    Joined(first, 6);
    Joined(first, 7);
    Joined(first, 8);
    Joined(first, 9);
    Joined(first, 10);
    Joined(first, 11);
    Joined(first, 12);
    Joined(first, 13);
    Joined(first, 14);
    Joined(first, 15);
  }

  lemma Entry00()
    ensures Entry(0x00) == 0x0000_0000_0000_0000
  {
    assert Aloft(0x00) == 0x0000_0000_0000_0000;
  }

  lemma Entry01()
    ensures Entry(0x01) == 0x42f0_e1eb_a9ea_3693
  {
    assert Aloft(0x01) == 0x0100_0000_0000_0000;
  }

  lemma Entry02()
    ensures Entry(0x02) == 0x85e1_c3d7_53d4_6d26
  {
    assert Aloft(0x02) == 0x0200_0000_0000_0000;
  }

  lemma Entry04()
    ensures Entry(0x04) == 0x4933_6645_0e42_ecdf
  {
    assert Aloft(0x04) == 0x0400_0000_0000_0000;
  }

  lemma Entry08()
    ensures Entry(0x08) == 0x9266_cc8a_1c85_d9be
  {
    assert Aloft(0x08) == 0x0800_0000_0000_0000;
  }

  lemma Entry10()
    ensures Entry(0x10) == 0x663d_78ff_90e1_85ef
  {
    assert Aloft(0x10) == 0x1000_0000_0000_0000;
  }

  lemma Entry20()
    ensures Entry(0x20) == 0xcc7a_f1ff_21c3_0bde
  {
    assert Aloft(0x20) == 0x2000_0000_0000_0000;
  }

  lemma Entry40()
    ensures Entry(0x40) == 0xda05_0215_ea6c_212f
  {
    assert Aloft(0x40) == 0x4000_0000_0000_0000;
  }

  lemma Entry80()
    ensures Entry(0x80) == 0xf6fa_e5c0_7d32_74cd
  {
    assert Aloft(0x80) == 0x8000_0000_0000_0000;
  }

  lemma Row0()
    ensures IsRow(ROW0, 0)
  {
    hide Entry;
    Entry00();
    Entry01();
    Entry02();
    Entry04();
    Entry08();
    Joined(2, 1);
    Joined(4, 1);
    Joined(4, 2);
    Joined(4, 3);
    Joined(8, 1);
    Joined(8, 2);
    Joined(8, 3);
    Joined(8, 4);
    Joined(8, 5);
    Joined(8, 6);
    Joined(8, 7);
  }

  lemma Row1()
    ensures IsRow(ROW1, 0x10)
  {
    hide Entry;
    Entry10();
    Row0();
    RowFrom(ROW1, 0x10);
  }

  lemma Row2()
    ensures IsRow(ROW2, 0x20)
  {
    hide Entry;
    Entry20();
    Row0();
    RowFrom(ROW2, 0x20);
  }

  lemma Row3()
    ensures IsRow(ROW3, 0x30)
  {
    hide Entry;
    Entry10();
    Entry20();
    Joined(0x20, 0x10);
    Row0();
    RowFrom(ROW3, 0x30);
  }

  lemma Row4()
    ensures IsRow(ROW4, 0x40)
  {
    hide Entry;
    Entry40();
    Row0();
    RowFrom(ROW4, 0x40);
  }

  lemma Row5()
    ensures IsRow(ROW5, 0x50)
  {
    hide Entry;
    Entry10();
    Entry40();
    Joined(0x40, 0x10);
    Row0();
    RowFrom(ROW5, 0x50);
  }

  lemma Row6()
    ensures IsRow(ROW6, 0x60)
  {
    hide Entry;
    Entry20();
    Entry40();
    Joined(0x40, 0x20);
    Row0();
    RowFrom(ROW6, 0x60);
  }

  lemma Row7()
    ensures IsRow(ROW7, 0x70)
  {
    hide Entry;
    Entry10();
    Entry20();
    Entry40();
    Joined(0x20, 0x10);
    Joined(0x40, 0x30);
    Row0();
    RowFrom(ROW7, 0x70);
  }

  lemma Row8()
    ensures IsRow(ROW8, 0x80)
  {
    hide Entry;
    Entry80();
    Row0();
    RowFrom(ROW8, 0x80);
  }

  lemma Row9()
    ensures IsRow(ROW9, 0x90)
  {
    hide Entry;
    Entry10();
    Entry80();
    Joined(0x80, 0x10);
    Row0();
    RowFrom(ROW9, 0x90);
  }

  lemma RowA()
    ensures IsRow(ROWA, 0xA0)
  {
    hide Entry;
    Entry20();
    Entry80();
    Joined(0x80, 0x20);
    Row0();
    RowFrom(ROWA, 0xA0);
  }

  lemma RowB()
    ensures IsRow(ROWB, 0xB0)
  {
    hide Entry;
    Entry10();
    Entry20();
    Entry80();
    Joined(0x20, 0x10);
    Joined(0x80, 0x30);
    Row0();
    RowFrom(ROWB, 0xB0);
  }

  lemma RowC()
    ensures IsRow(ROWC, 0xC0)
  {
    hide Entry;
    Entry40();
    Entry80();
    Joined(0x80, 0x40);
    Row0();
    RowFrom(ROWC, 0xC0);
  }

  lemma RowD()
    ensures IsRow(ROWD, 0xD0)
  {
    hide Entry;
    Entry10();
    Entry40();
    Entry80();
    Joined(0x40, 0x10);
    Joined(0x80, 0x50);
    Row0();
    RowFrom(ROWD, 0xD0);
  }

  lemma RowE()
    ensures IsRow(ROWE, 0xE0)
  {
    hide Entry;
    Entry20();
    Entry40();
    Entry80();
    Joined(0x40, 0x20);
    Joined(0x80, 0x60);
    Row0();
    RowFrom(ROWE, 0xE0);
  }

  lemma RowF()
    ensures IsRow(ROWF, 0xF0)
  {
    hide Entry;
    Entry10();
    Entry20();
    Entry40();
    Entry80();
    Joined(0x20, 0x10);
    Joined(0x40, 0x30);
    Joined(0x80, 0x70);
    Row0();
    RowFrom(ROWF, 0xF0);
  }

  lemma Nibbles(t: bv8)
    ensures (t as nat) / 16 == (t >> 4) as nat && (t as nat) % 16 == (t & 15) as nat
  {
  }

  lemma InRow(row: seq<u64>, first: bv8, t: bv8)
    requires IsRow(row, first) && first == t & 0xF0
    ensures row[(t & 15) as nat] == Entry(t)
  {
  }

  /** Every word of the table is what eight steps of the division make of its index. */
  lemma TableIsRight()
    ensures IsCrcTable(Crc64Table())
  {
    hide Aloft, Shift8, ROWS, Crc64Table;
    forall t: bv8 ensures Crc64Table()[t as nat] == Shift8(Aloft(t)) {
      RowOf(t);
      LookUp(t);
    }
  }

  lemma LookUp(t: bv8)
    ensures (t >> 4) as nat < 16 && (t & 15) as nat < 16
    ensures |ROWS| == 16 && |ROWS[(t >> 4) as nat]| == 16
    ensures Crc64Table()[t as nat] == ROWS[(t >> 4) as nat][(t & 15) as nat]
  {
    RowLengths();
    Nibbles(t);
  }

  lemma Rows(high: bv8)
    requires high < 16
    ensures high as nat < 16 && |ROWS| == 16 && IsRow(ROWS[high as nat], high << 4)
  {
    hide IsRow, ROW0, ROW1, ROW2, ROW3, ROW4, ROW5, ROW6, ROW7, ROW8, ROW9, ROWA, ROWB, ROWC, ROWD, ROWE, ROWF;
    match high {
      case 0 => Row0(); assert high as nat == 0;
      case 1 => Row1(); assert high as nat == 1;
      case 2 => Row2(); assert high as nat == 2;
      case 3 => Row3(); assert high as nat == 3;
      case 4 => Row4(); assert high as nat == 4;
      case 5 => Row5(); assert high as nat == 5;
      case 6 => Row6(); assert high as nat == 6;
      case 7 => Row7(); assert high as nat == 7;
      case 8 => Row8(); assert high as nat == 8;
      case 9 => Row9(); assert high as nat == 9;
      case 10 => RowA(); assert high as nat == 10;
      case 11 => RowB(); assert high as nat == 11;
      case 12 => RowC(); assert high as nat == 12;
      case 13 => RowD(); assert high as nat == 13;
      case 14 => RowE(); assert high as nat == 14;
      case 15 => RowF(); assert high as nat == 15;
    }
  }

  lemma HighPart(t: bv8)
    ensures t >> 4 < 16 && (t >> 4) << 4 == t & 0xF0
  {
  }

  lemma RowOf(t: bv8)
    ensures (t >> 4) as nat < 16 && (t & 15) as nat < 16
    ensures |ROWS| == 16 && |ROWS[(t >> 4) as nat]| == 16
    ensures ROWS[(t >> 4) as nat][(t & 15) as nat] == Shift8(Aloft(t))
  {
    hide Aloft, Shift8, ROWS, IsRow;
    LookUp(t);
    HighPart(t);
    Rows(t >> 4);
    InRow(ROWS[(t >> 4) as nat], (t >> 4) << 4, t);
  }
}
