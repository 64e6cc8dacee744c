/**
 Published digests, computed round by round: "abc" for 64 and for 32 bytes (the first with the columns and diagonals of
 appendix A of RFC 7693), and the block of the bytes 0 to 127, whose sixteen words all differ.
 */
module Blake2Vectors {
  import opened Blake2Spec
  import opened Blake2Compress
  import opened Blake2Trace

  // ---- The 64-byte hash of "abc" ----

  /** The working vector before the first round. */
  function Start64(): State {
    State(Quad(0x6a09_e667_f2bd_c948, 0x510e_527f_ade6_82d1, 0x6a09_e667_f3bc_c908, 0x510e_527f_ade6_82d2),
          Quad(0xbb67_ae85_84ca_a73b, 0x9b05_688c_2b3e_6c1f, 0xbb67_ae85_84ca_a73b, 0x9b05_688c_2b3e_6c1f),
          Quad(0x3c6e_f372_fe94_f82b, 0x1f83_d9ab_fb41_bd6b, 0x3c6e_f372_fe94_f82b, 0xe07c_2654_04be_4294),
          Quad(0xa54f_f53a_5f1d_36f1, 0x5be0_cd19_137e_2179, 0xa54f_f53a_5f1d_36f1, 0x5be0_cd19_137e_2179))
  }

  function Columns64At0(): State {
    State(Quad(0xf0c9_aa0f_8649_1dea, 0xb7de_fc3d_0277_e11f, 0xee5e_0f39_647a_9fff, 0x7772_fc28_86a7_6c5f),
          Quad(0x63b7_dedf_4a4e_5ad3, 0xed49_c30c_d311_d50e, 0x7bee_264b_f3cd_adfe, 0x254e_f880_a19a_8726),
          Quad(0xbe50_eb45_4e0a_93d7, 0xa056_6717_04b0_0d71, 0xb275_2dad_d66b_d8f9, 0x789d_4338_1c47_f584),
          Quad(0x9498_04b0_483e_ad14, 0x75e6_432f_c466_1b06, 0xa994_63cb_3790_5929, 0xa25e_f57d_7da3_12ee))
  }

  function Diagonals64At0(): State {
    State(Quad(0x86b7_c156_8029_bb79, 0xa447_c850_aa69_4a7e, 0xfa87_b012_73fa_6dbe, 0x2318_a24e_2140_fc64),
          Quad(0xc12c_bcc8_09ff_59f3, 0xde08_0f1b_b1c0_f84b, 0x521a_715c_63e0_8d8a, 0xe02d_0975_b8d3_7a83),
          Quad(0xc6a5_214c_c0ea_ca8e, 0x595c_b8a9_a1ac_a66c, 0xbec3_ae83_7eac_4887, 0x1c7b_754f_08b7_d193),
          Quad(0x0c87_cd52_4c14_cc5d, 0x44ee_6039_bd86_a9f7, 0x6267_fc79_df9d_6ad1, 0x8f88_5a76_b6e5_78fe))
  }

  lemma Round64At0(m: Words16)
    requires IsAbc(m)
    ensures Straighten(Diagonals64At0())
         in Successors(RoundFor(MACHINE, m), ScheduleOf(0), Start64())
  {
    var f, g := Feed(WORD, 0, 0, 0, 0, 0, 0, 0), Feed(0, 0, 0, 0, 0, 0, 0, 0);
    FeedAt0(m);
    RoundLeads(MACHINE, m, ScheduleOf(0), f, g, Start64(),
               Columns64At0(), Diagonals64At0());
  }

  function Columns64At1(): State {
    State(Quad(0x7d7e_bc91_065e_b487, 0xa2a2_bb29_0a6f_a0ac, 0xe089_c694_4d99_9f41, 0x9c62_f81d_a362_2dd5),
          Quad(0x2985_dbd3_b522_b163, 0x48da_a218_0cca_574f, 0x607c_07b7_06df_2755, 0x4134_955a_ae31_cc2d),
          Quad(0x83dc_c7c9_5110_e507, 0x2580_4d59_86d6_e07f, 0x4def_b1cc_1d0e_5211, 0x8f19_4792_7dee_7a35),
          Quad(0xd5f7_d943_ae7a_12d4, 0x47dc_958f_84e6_7b9c, 0x53fd_1980_02cb_9dc5, 0x3561_1976_57ee_e886))
  }

  function Diagonals64At1(): State {
    State(Quad(0x5328_1e83_8060_10f2, 0xca54_25ae_c65a_10a8, 0xe9e4_ad0d_0e1a_0d48, 0x572d_17ef_fdd3_7358),
          Quad(0x3594_b403_f81b_4393, 0xc6a2_2e2f_f0f7_aa48, 0x85df_9dc1_43c5_9a74, 0x92a3_aaaa_6d95_2b7f),
          Quad(0x8cd6_3c74_62de_0dff, 0xc6a5_6a51_cb89_c595, 0x224e_6a33_6922_4f96, 0xc5fd_f710_90fa_e853),
          Quad(0x85f6_93f3_da53_f974, 0xbaab_dbb2_f386_d9ae, 0x500e_125e_58a9_2923, 0x2a8a_40f1_5a46_2dd0))
  }

  lemma Round64At1(m: Words16)
    requires IsAbc(m)
    ensures Straighten(Diagonals64At1())
         in Successors(RoundFor(MACHINE, m), ScheduleOf(1), Straighten(Diagonals64At0()))
  {
    var f, g := Feed(0, 0, 0, 0, 0, 0, 0, 0), Feed(0, 0, WORD, 0, 0, 0, 0, 0);
    FeedAt1(m);
    RoundLeads(MACHINE, m, ScheduleOf(1), f, g, Straighten(Diagonals64At0()),
               Columns64At1(), Diagonals64At1());
  }

  function Columns64At2(): State {
    State(Quad(0x224d_9730_ddde_8c9b, 0x1161_e956_6cec_8636, 0x1cc9_6851_5f81_e2e0, 0xdc07_3c3e_56ef_42ae),
          Quad(0xe430_4767_88c4_1ef0, 0x956f_e864_884a_c584, 0xaef0_9986_8dce_0a96, 0x3052_cabf_fb0f_b2d1),
          Quad(0x4f16_3fda_2e42_43bf, 0x4dfe_b83f_d06a_086b, 0x5d62_892a_3259_8f4d, 0x69ea_4685_aa4d_57b0),
          Quad(0x41dd_8960_f0de_029d, 0x78c8_11fd_df5c_5824, 0xc925_83e5_a4ae_6f86, 0xeb37_19d3_4531_eb68))
  }

  function Diagonals64At2(): State {
    State(Quad(0x60ed_96aa_7ad4_1725, 0xb1dd_2307_54d7_bdee, 0xf1de_8696_bec1_1bf1, 0x7163_43f5_2fdd_265e),
          Quad(0xe46a_743c_7180_0b9d, 0x25a1_4227_79e0_6d14, 0xa0eb_d586_a4a1_d2c8, 0xc804_ebab_11c9_9fa9),
          Quad(0x1a04_b543_a01f_156b, 0xe682_3ae4_c3ff_58a5, 0xa167_7e19_f37f_d5da, 0x8e0c_ec95_9c71_5793),
          Quad(0xa2f8_716e_775c_4877, 0xda0a_61bc_de42_67ea, 0x22bd_ce69_76b0_8c51, 0x7c45_557f_ae0d_4d89))
  }

  lemma Round64At2(m: Words16)
    requires IsAbc(m)
    ensures Straighten(Diagonals64At2())
         in Successors(RoundFor(MACHINE, m), ScheduleOf(2), Straighten(Diagonals64At1()))
  {
    var f, g := Feed(0, 0, 0, WORD, 0, 0, 0, 0), Feed(0, 0, 0, 0, 0, 0, 0, 0);
    FeedAt2(m);
    RoundLeads(MACHINE, m, ScheduleOf(2), f, g, Straighten(Diagonals64At1()),
               Columns64At2(), Diagonals64At2());
  }

  function Columns64At3(): State {
    State(Quad(0x6b86_4497_a655_fb47, 0xc4b9_9c55_8f36_84e9, 0xd2d2_821a_8aa4_3e4c, 0xe88b_2359_a431_54a6),
          Quad(0xc1fd_6110_ffa7_5065, 0x065b_8321_6e96_ed93, 0xa898_085d_8e04_f013, 0x2bb3_9bdb_ff08_e7ec),
          Quad(0x8179_08f7_8a14_2cfa, 0xf2d9_3929_736e_5b04, 0x38bf_8d18_c9a3_87f9, 0x8eee_368b_c701_c9f4),
          Quad(0xce15_77a7_2bc1_ce7b, 0x2795_f81c_fb8f_7633, 0xd750_375d_8da1_9646, 0x21dd_da93_f0e5_d3d8))
  }

  function Diagonals64At3(): State {
    State(Quad(0xbb2a_77d3_a838_2351, 0x2419_2e49_ebf5_4ea0, 0x5b44_273e_66b1_9d27, 0x3e7b_5f23_4cd1_f804),
          Quad(0x45eb_4797_1f23_b103, 0x4f82_c940_1cb3_2d7a, 0xb6d5_c9fc_a257_9327, 0x0860_92cf_b858_437e),
          Quad(0x98be_297f_6e45_c684, 0x8ccd_0137_2642_0dc4, 0xa9c9_a8f1_7b1f_c614, 0x5c4b_e215_6dbe_ecf9),
          Quad(0xa360_77de_e337_0b89, 0x8a03_c4cb_7e97_590a, 0x5590_8187_9775_14a0, 0x2efe_de99_ed4e_ff16))
  }

  lemma Round64At3(m: Words16)
    requires IsAbc(m)
    ensures Straighten(Diagonals64At3())
         in Successors(RoundFor(MACHINE, m), ScheduleOf(3), Straighten(Diagonals64At2()))
  {
    var f, g := Feed(0, 0, 0, 0, 0, 0, 0, 0), Feed(0, 0, 0, 0, 0, WORD, 0, 0);
    FeedAt3(m);
    RoundLeads(MACHINE, m, ScheduleOf(3), f, g, Straighten(Diagonals64At2()),
               Columns64At3(), Diagonals64At3());
  }

  function Columns64At4(): State {
    State(Quad(0x3e5b_ab61_8a5f_bc72, 0x475d_cc42_7f3f_cd87, 0x5a83_88e3_5cb3_3b75, 0x1222_a0cc_9444_c711),
          Quad(0x9be6_aa79_3ad3_a7c9, 0xbb2d_4d75_52ba_222d, 0xec74_9222_86e7_b930, 0x303d_fd40_b923_0c9c),
          Quad(0xc525_2a4d_03f6_5b2f, 0xcdcf_c26e_59d1_d349, 0x3a03_d6ba_5415_8e95, 0x7709_a293_26a5_c548),
          Quad(0x1fe2_1186_bd23_8be3, 0x8bc3_3bc0_25ae_3c8e, 0xaa55_0590_a17d_6cd1, 0xadd6_5a4a_f0cf_b375))
  }

  function Diagonals64At4(): State {
    State(Quad(0xc79c_15b3_d423_b099, 0x6fe6_6467_af88_c0a9, 0x79e0_2eef_20cd_b1ae, 0x1205_ea4a_7859_807d),
          Quad(0x2da2_224e_8da9_7556, 0x4eb0_b762_84c7_aafb, 0x64b3_eed7_bb60_2f39, 0xb97d_2d43_9e4d_f63d),
          Quad(0x77d2_b26d_f1c4_5c55, 0x299c_8e72_5d95_4697, 0xb224_0b59_e6d5_67d3, 0xc718_e755_294c_9111),
          Quad(0x8934_eb09_a345_6052, 0x0f6d_9eee_d157_da2a, 0x2643_c237_0e49_ebfd, 0x1f08_93f2_772b_b373))
  }

  lemma Round64At4(m: Words16)
    requires IsAbc(m)
    ensures Straighten(Diagonals64At4())
         in Successors(RoundFor(MACHINE, m), ScheduleOf(4), Straighten(Diagonals64At3()))
  {
    var f, g := Feed(0, WORD, 0, 0, 0, 0, 0, 0), Feed(0, 0, 0, 0, 0, 0, 0, 0);
    FeedAt4(m);
    RoundLeads(MACHINE, m, ScheduleOf(4), f, g, Straighten(Diagonals64At3()),
               Columns64At4(), Diagonals64At4());
  }

  function Columns64At5(): State {
    State(Quad(0xf4e5_5384_dc92_4147, 0xb7b5_8d93_67a4_043d, 0xc601_582b_84c4_b49a, 0xd8a6_cfd3_2f7a_b2e6),
          Quad(0xf015_d00b_6135_78c6, 0x02ca_058b_f379_9684, 0x53e8_4b90_ddbf_8985, 0x1925_e46b_74e5_3ba5),
          Quad(0x6484_9505_8cae_3d2f, 0xb966_8b8e_bf3f_a717, 0x42b2_6ef2_4a21_00f5, 0xc70d_6540_4fc7_5525),
          Quad(0x5456_7270_ac75_c4ea, 0x292f_756a_3507_a223, 0x3513_4241_b118_cf10, 0x57dc_2cd5_54e4_0ca1))
  }

  function Diagonals64At5(): State {
    State(Quad(0xe58f_97d6_385b_aee4, 0x9e47_2af0_be3d_b3f6, 0xa2c3_abbd_3751_0ee2, 0xdb21_6160_4cbc_9828),
          Quad(0x7640_aa97_64da_137a, 0x0f24_4c62_ddf7_1788, 0xcb56_68cc_2a9f_7859, 0x8733_794f_07ac_1500),
          Quad(0xdeb4_c7c2_3efe_287e, 0x2198_28aa_8388_0842, 0x41cc_a907_3c8c_4d0d, 0xc67a_6be4_2335_aa6f),
          Quad(0x70f6_f41c_8783_c9f6, 0x7127_cd48_c76a_7708, 0x5c79_12bc_10df_3b4b, 0xacb2_2b28_681e_4c82))
  }

  lemma Round64At5(m: Words16)
    requires IsAbc(m)
    ensures Straighten(Diagonals64At5())
         in Successors(RoundFor(MACHINE, m), ScheduleOf(5), Straighten(Diagonals64At4()))
  {
    var f, g := Feed(0, 0, 0, 0, WORD, 0, 0, 0), Feed(0, 0, 0, 0, 0, 0, 0, 0);
    FeedAt5(m);
    RoundLeads(MACHINE, m, ScheduleOf(5), f, g, Straighten(Diagonals64At4()),
               Columns64At5(), Diagonals64At5());
  }

  function Columns64At6(): State {
    State(Quad(0xd0d5_bb6a_10da_e2b5, 0x860a_a9f1_1107_2cea, 0x391b_02b3_9997_2abc, 0xfee4_28bf_8b86_c15e),
          Quad(0xf5d2_174a_ff6c_f2cd, 0x90ee_681d_04ce_182a, 0xa93d_75cc_5e32_2748, 0x4ca1_f5f0_7a55_2d91),
          Quad(0x3933_7b3d_a7e9_63ab, 0x7e1e_c202_f504_2fa8, 0x7455_0619_f076_3471, 0x5ca6_4dd8_77b9_e682),
          Quad(0x588d_5ef9_a0a6_492f, 0x04d7_2048_395b_53ff, 0x4795_d216_8937_df08, 0x3488_1f3a_14e9_e908))
  }

  function Diagonals64At6(): State {
    State(Quad(0x6e2d_286e_eade_dc81, 0xb63c_479a_6a76_9f02, 0x5777_272a_e1e9_30c0, 0xe03c_6cc8_9c26_bf92),
          Quad(0xbcf0_2c07_87e8_6358, 0x258e_55e0_ec1f_362a, 0x5a38_7849_e578_dbf6, 0x92aa_c307_cf2c_0afc),
          Quad(0x57d5_6a56_dd01_5edf, 0x3a3b_4ec6_0e19_dfdc, 0x04d7_69b3_fcb0_48db, 0x30aa_ccc4_f06d_afaa),
          Quad(0x55d8_99d4_0a5d_0d0a, 0x8194_15b5_6220_c459, 0xb78a_9a33_e9bf_f4dd, 0x4838_93cc_094f_8863))
  }

  lemma Round64At6(m: Words16)
    requires IsAbc(m)
    ensures Straighten(Diagonals64At6())
         in Successors(RoundFor(MACHINE, m), ScheduleOf(6), Straighten(Diagonals64At5()))
  {
    var f, g := Feed(0, 0, 0, 0, 0, 0, 0, 0), Feed(WORD, 0, 0, 0, 0, 0, 0, 0);
    FeedAt6(m);
    RoundLeads(MACHINE, m, ScheduleOf(6), f, g, Straighten(Diagonals64At5()),
               Columns64At6(), Diagonals64At6());
  }

  function Columns64At7(): State {
    State(Quad(0x2c42_e52d_8c06_0ff2, 0x8ffa_c8c5_ec5c_b0e6, 0x7b7c_c36b_c928_376b, 0xf2d1_af91_4f0b_f16d),
          Quad(0xa357_b3b1_736e_c0a1, 0x1355_530d_9510_b6da, 0x3981_e989_4b87_e52a, 0x7fc4_a165_1e41_30e8),
          Quad(0xd916_516a_3132_0b04, 0x56af_9e78_16ab_f9be, 0x70e5_5e0e_6344_8924, 0x58ff_1979_4c00_0469),
          Quad(0x41d3_7d7e_cbfc_6541, 0x1c46_0b4a_606c_c880, 0xbf9c_9141_83b3_1c1b, 0xe113_c583_2e0a_bbd3))
  }

  function Diagonals64At7(): State {
    State(Quad(0xffc8_3ece_7602_4d01, 0xe117_9523_a254_1963, 0x30bb_cc02_85a2_2f65, 0xb0b9_f0d4_43d1_a889),
          Quad(0x1be7_bffb_8c5c_c5f9, 0x3a1f_ad71_0623_2b8f, 0xbcef_bb6a_8153_9e5d, 0x3841_def6_f4c9_848a),
          Quad(0xa35a_18cb_ac4c_65b7, 0x1c7e_de92_ab8b_9c46, 0xa3c2_d35e_4f68_5c10, 0x9866_2c85_fba7_26d4),
          Quad(0xb7c2_c7e6_d88c_285f, 0x8193_7da3_14a5_0838, 0xa53d_3f73_aa61_9624, 0x7762_439b_d5a8_51bd))
  }

  lemma Round64At7(m: Words16)
    requires IsAbc(m)
    ensures Straighten(Diagonals64At7())
         in Successors(RoundFor(MACHINE, m), ScheduleOf(7), Straighten(Diagonals64At6()))
  {
    var f, g := Feed(0, 0, 0, 0, 0, 0, 0, 0), Feed(0, WORD, 0, 0, 0, 0, 0, 0);
    FeedAt7(m);
    RoundLeads(MACHINE, m, ScheduleOf(7), f, g, Straighten(Diagonals64At6()),
               Columns64At7(), Diagonals64At7());
  }

  function Columns64At8(): State {
    State(Quad(0xa912_6c15_2d80_0655, 0x4165_a65a_c9e3_c45b, 0x8704_7c8e_c629_5331, 0x64d2_d77c_bda6_949a),
          Quad(0xac16_32ba_715e_bf08, 0xdfe2_d8cd_3101_f453, 0x40e7_b1fd_da2d_2585, 0xc692_7901_cb32_15c7),
          Quad(0x7c18_49df_4e91_206f, 0x41aa_56fe_4986_2d7f, 0x3e4b_a8dd_b8e2_9996, 0xa5c8_1bdf_8924_e48a),
          Quad(0x94aa_f312_690f_9253, 0x13e3_a2c5_0cfa_d099, 0x4998_9dfa_62e9_0301, 0xc4fe_5300_7c9d_0df7))
  }

  function Diagonals64At8(): State {
    State(Quad(0x753a_70a1_e8fa_eadd, 0x63c5_b9b8_0d29_4cb9, 0x5da7_f763_8cec_5669, 0xfd3f_5726_87fe_a4f1),
          Quad(0x6b0d_43ca_2c25_d629, 0x4908_70ec_ad27_debd, 0xd9c8_8267_27d3_06fc, 0x88ed_6c4f_3bd7_a537),
          Quad(0xf834_3ba8_b94f_8c0b, 0xb2a9_0ddf_6672_87fe, 0x316c_c9eb_eefa_d8fc, 0x19ae_688d_df67_f026),
          Quad(0xbc7d_062b_0db5_cf35, 0x5854_0ee1_b1ae_bc47, 0x4a46_6bcd_0215_26a4, 0x4d87_07aa_b40f_7e6d))
  }

  lemma Round64At8(m: Words16)
    requires IsAbc(m)
    ensures Straighten(Diagonals64At8())
         in Successors(RoundFor(MACHINE, m), ScheduleOf(8), Straighten(Diagonals64At7()))
  {
    var f, g := Feed(0, 0, 0, 0, 0, 0, WORD, 0), Feed(0, 0, 0, 0, 0, 0, 0, 0);
    FeedAt8(m);
    RoundLeads(MACHINE, m, ScheduleOf(8), f, g, Straighten(Diagonals64At7()),
               Columns64At8(), Diagonals64At8());
  }

  function Columns64At9(): State {
    State(Quad(0xc0df_0f0e_596e_c5a9, 0xb401_4455_ff7c_2ca0, 0xa950_2da0_417b_08d5, 0xd665_61a1_0d1d_1c0d),
          Quad(0x87ca_07d5_e3d6_4cb6, 0x65bf_544e_084b_b313, 0x0a28_a074_aea2_f05d, 0xd9b9_61e2_d511_34aa),
          Quad(0xd11b_c20e_8ef4_4efc, 0x3478_342a_b05e_cf87, 0x15e3_0f6c_7053_83f7, 0xe5c3_0363_d6ab_824f),
          Quad(0x0df3_ea89_aaa4_4e12, 0x8827_4463_ca98_e874, 0xdade_744e_d337_82e5, 0x0d3e_fe25_194b_38bd))
  }

  function Diagonals64At9(): State {
    State(Quad(0xe630_c747_ccd5_9c4f, 0x5f31_1b88_9040_56ec, 0x900a_ee2f_233b_08e5, 0x0136_9ec1_8746_e775),
          Quad(0xbc71_3d41_1275_71ca, 0x40bd_3130_0920_1aab, 0xa071_99d8_7ad0_58d8, 0x2c6b_2559_3d71_7852),
          Quad(0x46db_1830_2502_5078, 0x0099_d4f8_2a2a_1eab, 0x6dd4_fbc1_de60_165d, 0x37e8_ca47_1bea_a5f8),
          Quad(0x6727_e812_6061_0140, 0x2d04_185e_ac2a_8cba, 0xb3b0_b51d_e3c8_6270, 0x2cfc_1bac_10ef_4457))
  }

  lemma Round64At9(m: Words16)
    requires IsAbc(m)
    ensures Straighten(Diagonals64At9())
         in Successors(RoundFor(MACHINE, m), ScheduleOf(9), Straighten(Diagonals64At8()))
  {
    var f, g := Feed(0, 0, 0, 0, 0, 0, 0, 0), Feed(0, 0, 0, 0, 0, 0, 0, WORD);
    FeedAt9(m);
    RoundLeads(MACHINE, m, ScheduleOf(9), f, g, Straighten(Diagonals64At8()),
               Columns64At9(), Diagonals64At9());
  }

  function Columns64At10(): State {
    State(Quad(0xfdd2_c643_5d5a_301b, 0x2ca2_9c4d_619b_afa1, 0x7ccc_a8ba_533b_7361, 0xcae4_b9c0_357b_6205),
          Quad(0x6e44_6afb_c3ef_ad36, 0xfcd5_d76a_6de2_0047, 0xacc8_f987_17c8_e4a3, 0x3fb8_d71b_07b5_efa5),
          Quad(0x46d9_63ee_934e_feea, 0x8b7f_1e6c_fc2a_0039, 0x7afe_95b8_1b39_93db, 0xac26_7814_4c9a_382a),
          Quad(0x5523_c5b9_30d1_aeb6, 0xadbd_c797_7150_b805, 0x3bbc_eb65_1eee_d2c9, 0x8d7d_58ee_3d27_5626))
  }

  function Diagonals64At10(): State {
    State(Quad(0xe801_f73b_9768_c760, 0x3cc8_8735_d147_5e4b, 0x733d_1a17_248f_39db, 0x0223_1e1a_917f_e0bd),
          Quad(0x35c6_d223_20be_511d, 0x5dac_6792_1ff7_6949, 0x92d5_7b73_6f5f_170a, 0x61b5_c0a4_1d49_1399),
          Quad(0x306f_2758_4f65_495e, 0x1cdb_9d31_ad70_cc4e, 0x35ba_354a_9c7d_f448, 0xb5c3_3345_7e12_844a),
          Quad(0xb517_76ad_f569_a77b, 0xf4f1_be86_690b_3c34, 0x4929_cbe4_5679_d73e, 0xbd69_6be0_10d0_d889))
  }

  lemma Round64At10(m: Words16)
    requires IsAbc(m)
    ensures Straighten(Diagonals64At10())
         in Successors(RoundFor(MACHINE, m), ScheduleOf(0), Straighten(Diagonals64At9()))
  {
    var f, g := Feed(WORD, 0, 0, 0, 0, 0, 0, 0), Feed(0, 0, 0, 0, 0, 0, 0, 0);
    FeedAt0(m);
    RoundLeads(MACHINE, m, ScheduleOf(0), f, g, Straighten(Diagonals64At9()),
               Columns64At10(), Diagonals64At10());
  }

  function Columns64At11(): State {
    State(Quad(0xac49_5068_076f_e1c4, 0x5198_d8d5_39a3_fbce, 0xe799_f6cc_9a2a_23d7, 0x94a2_b174_4065_ba29),
          Quad(0xf3ae_6a42_7a75_e234, 0xb8ea_cc53_aead_98b1, 0x5d6a_76c0_5f26_fe94, 0x8829_7fb9_4160_bd39),
          Quad(0x8393_3b99_d540_89ee, 0x55b2_5997_98b3_a4a1, 0x5fae_8064_a9ba_0517, 0x6ce4_fc1f_51b7_e632),
          Quad(0x31db_95ba_436e_4db7, 0xb20b_2179_d2dc_d8c6, 0x06ed_1166_49fd_b58d, 0x4072_027e_06ce_90be))
  }

  function Diagonals64At11(): State {
    State(Quad(0x12ef_8a64_1ec4_f6d6, 0xaa5a_c188_8e10_467e, 0xf896_0d6c_2faf_5f5e, 0xe813_a23c_60af_3b82),
          Quad(0xbced_5de9_77c9_faf5, 0x217d_930a_a517_87f3, 0xe332_538a_36b6_d246, 0x885b_ef04_0ef6_aa0b),
          Quad(0x733c_a476_c514_8639, 0x906a_6ff1_9e57_3942, 0x75ab_709b_d3dc_bf24, 0xa493_9a41_7bfb_78a3),
          Quad(0x97df_596b_0610_f6fc, 0xf42c_1651_9ad5_afa7, 0xee7c_e1f3_4594_7aa4, 0x646c_bb7a_f6dc_e980))
  }

  lemma Round64At11(m: Words16)
    requires IsAbc(m)
    ensures Straighten(Diagonals64At11())
         in Successors(RoundFor(MACHINE, m), ScheduleOf(1), Straighten(Diagonals64At10()))
  {
    var f, g := Feed(0, 0, 0, 0, 0, 0, 0, 0), Feed(0, 0, WORD, 0, 0, 0, 0, 0);
    FeedAt1(m);
    RoundLeads(MACHINE, m, ScheduleOf(1), f, g, Straighten(Diagonals64At10()),
               Columns64At11(), Diagonals64At11());
  }

  function Trace64(): seq<State> {
    [Start64(),
     Straighten(Diagonals64At0()),
     Straighten(Diagonals64At1()),
     Straighten(Diagonals64At2()),
     Straighten(Diagonals64At3()),
     Straighten(Diagonals64At4()),
     Straighten(Diagonals64At5()),
     Straighten(Diagonals64At6()),
     Straighten(Diagonals64At7()),
     Straighten(Diagonals64At8()),
     Straighten(Diagonals64At9()),
     Straighten(Diagonals64At10()),
     Straighten(Diagonals64At11())]
  }

  lemma Leads64(m: Words16)
    requires IsAbc(m)
    ensures Leads(RoundFor(MACHINE, m), RfcSchedules(), Trace64())
  {
    RfcTwelve();
    Round64At0(m);
    Round64At1(m);
    Round64At2(m);
    Round64At3(m);
    Round64At4(m);
    Round64At5(m);
    Round64At6(m);
    Round64At7(m);
    Round64At8(m);
    Round64At9(m);
    Round64At10(m);
    Round64At11(m);
    LeadsTwelve(RoundFor(MACHINE, m), RfcSchedules(), Trace64());
  }

  lemma Begins64()
    ensures Shows(Initial(MACHINE, H0(64), 3, 0, true), Start64())
  {
    forall i | 0 <= i < 16 { InitialWords(MACHINE, H0(64), 3, 0, i); }
    forall i | 0 <= i < 8 { H0Words(64, i); }
  }

  function Final64(): Words8 {
    [0x0d4d_1c98_3fa5_80ba, 0xe9f6_129f_b697_276a, 0xb7c4_5a68_142f_214c, 0xd1a2_ffdb_6fbb_124b,
     0x2d79_ab2a_39c5_877d, 0x95cc_3345_ded5_52c2, 0x5a92_f1db_a88a_d318, 0x2399_00d4_ed86_23b9]
  }

  lemma Ends64(v: Words16)
    requires Shows(v, Straighten(Diagonals64At11()))
    ensures Finish(MACHINE, H0(64), v) == Final64()
  {
    forall i | 0 <= i < 8 { H0Words(64, i); }
    var h := H0(64);
    assert h[0] ^ (v[0] ^ v[8]) == Final64()[0];
    assert h[1] ^ (v[1] ^ v[9]) == Final64()[1];
    assert h[2] ^ (v[2] ^ v[10]) == Final64()[2];
    assert h[3] ^ (v[3] ^ v[11]) == Final64()[3];
    assert h[4] ^ (v[4] ^ v[12]) == Final64()[4];
    assert h[5] ^ (v[5] ^ v[13]) == Final64()[5];
    assert h[6] ^ (v[6] ^ v[14]) == Final64()[6];
    assert h[7] ^ (v[7] ^ v[15]) == Final64()[7];
  }

  /** The digest as published. */
  function Digest64(): seq<bv8> {
    [0xba, 0x80, 0xa5, 0x3f, 0x98, 0x1c, 0x4d, 0x0d] + [0x6a, 0x27, 0x97, 0xb6, 0x9f, 0x12, 0xf6, 0xe9]
    + [0x4c, 0x21, 0x2f, 0x14, 0x68, 0x5a, 0xc4, 0xb7] + [0x4b, 0x12, 0xbb, 0x6f, 0xdb, 0xff, 0xa2, 0xd1]
    + [0x7d, 0x87, 0xc5, 0x39, 0x2a, 0xab, 0x79, 0x2d] + [0xc2, 0x52, 0xd5, 0xde, 0x45, 0x33, 0xcc, 0x95]
    + [0x18, 0xd3, 0x8a, 0xa8, 0xdb, 0xf1, 0x92, 0x5a] + [0xb9, 0x23, 0x86, 0xed, 0xd4, 0x00, 0x99, 0x23]
  }

  lemma Bytes64()
    ensures Bytes(Final64()[..8]) == Digest64()
  {
    var h := Final64();
    assert LeBytes(h[0]) == [0xba, 0x80, 0xa5, 0x3f, 0x98, 0x1c, 0x4d, 0x0d];
    assert LeBytes(h[1]) == [0x6a, 0x27, 0x97, 0xb6, 0x9f, 0x12, 0xf6, 0xe9];
    assert LeBytes(h[2]) == [0x4c, 0x21, 0x2f, 0x14, 0x68, 0x5a, 0xc4, 0xb7];
    assert LeBytes(h[3]) == [0x4b, 0x12, 0xbb, 0x6f, 0xdb, 0xff, 0xa2, 0xd1];
    assert LeBytes(h[4]) == [0x7d, 0x87, 0xc5, 0x39, 0x2a, 0xab, 0x79, 0x2d];
    assert LeBytes(h[5]) == [0xc2, 0x52, 0xd5, 0xde, 0x45, 0x33, 0xcc, 0x95];
    assert LeBytes(h[6]) == [0x18, 0xd3, 0x8a, 0xa8, 0xdb, 0xf1, 0x92, 0x5a];
    assert LeBytes(h[7]) == [0xb9, 0x23, 0x86, 0xed, 0xd4, 0x00, 0x99, 0x23];
    BytesOfEight(h);
    assert h[..8] == h;
  }

  lemma Working64(m: Words16, v: Words16)
    requires IsAbc(m) && Shows(v, Start64())
    ensures Shows(Rounds(MACHINE, v, m, RfcSchedules()), Straighten(Diagonals64At11()))
  {
    Leads64(m);
    FoldLeads(RoundFor(MACHINE, m), v, RfcSchedules(), Trace64());
    RoundsFold(MACHINE, v, m, RfcSchedules());
  }

  lemma Closing64(w: Words16)
    requires Shows(w, Straighten(Diagonals64At11()))
    ensures Bytes(Finish(MACHINE, H0(64), w)) == Digest64()
  {
    Ends64(w);
    assert Final64()[..8] == Final64();
    Bytes64();
  }

  /** The 64-byte digest of "abc", as appendix A of RFC 7693 prints it. */
  lemma Abc64()
    ensures Digest(F, 64, ABC) == Digest64()
  {
    var m, v := Message(Pad(ABC)), Initial(MACHINE, H0(64), 3, 0, true);
    var w := Rounds(MACHINE, v, m, RfcSchedules());
    AbcCounter();
    AbcMessage();
    OneBlock(64, ABC, 3, w);
    Begins64();
    Working64(m, v);
    Closing64(w);
  }

  // ---- The 32-byte hash of "abc" ----

  /** The working vector before the first round. */
  function Start32(): State {
    State(Quad(0x6a09_e667_f2bd_c928, 0x510e_527f_ade6_82d1, 0x6a09_e667_f3bc_c908, 0x510e_527f_ade6_82d2),
          Quad(0xbb67_ae85_84ca_a73b, 0x9b05_688c_2b3e_6c1f, 0xbb67_ae85_84ca_a73b, 0x9b05_688c_2b3e_6c1f),
          Quad(0x3c6e_f372_fe94_f82b, 0x1f83_d9ab_fb41_bd6b, 0x3c6e_f372_fe94_f82b, 0xe07c_2654_04be_4294),
          Quad(0xa54f_f53a_5f1d_36f1, 0x5be0_cd19_137e_2179, 0xa54f_f53a_5f1d_36f1, 0x5be0_cd19_137e_2179))
  }

  function Columns32At0(): State {
    State(Quad(0xf0c9_aa0f_8648_3dca, 0xf71e_fc7d_0234_211d, 0xce3e_0f19_645a_9ffe, 0x5752_fc28_8687_6c5e),
          Quad(0x63b7_dedf_4a4e_5ad3, 0xed49_c30c_d311_d50e, 0x7bee_264b_f3cd_adfe, 0x254e_f880_a19a_8726),
          Quad(0xbe50_eb45_4e0a_93d7, 0xa056_6717_04b0_0d71, 0xb275_2dad_d66b_d8f9, 0x789d_4338_1c47_f584),
          Quad(0x9498_04b0_483e_ad14, 0x75e6_432f_c466_1b06, 0xa994_63cb_3790_5929, 0xa25e_f57d_7da3_12ee))
  }

  function Diagonals32At0(): State {
    State(Quad(0x86b7_c156_8148_fb59, 0x2405_0812_67e9_0dbd, 0x3aa6_d033_141a_6e5f, 0x6338_a24e_c160_fd05),
          Quad(0x612c_bcc8_a9ff_5ad2, 0x1008_cfd2_3181_fe48, 0x551a_113b_43c0_0daa, 0xe30c_a955_b8d2_faa3),
          Quad(0xe6a5_246c_e0ea_ea8e, 0x199c_f728_9a2c_a66e, 0xbea3_8e63_836c_6886, 0x3c7b_554f_0d97_f193),
          Quad(0x4f88_0f52_8811_4b15, 0x31e4_eb34_4c82_2f54, 0xdb23_7bbf_1bdf_6b4e, 0x0900_19bd_34e7_7b3b))
  }

  lemma Round32At0(m: Words16)
    requires IsAbc(m)
    ensures Straighten(Diagonals32At0())
         in Successors(RoundFor(MACHINE, m), ScheduleOf(0), Start32())
  {
    var f, g := Feed(WORD, 0, 0, 0, 0, 0, 0, 0), Feed(0, 0, 0, 0, 0, 0, 0, 0);
    FeedAt0(m);
    RoundLeads(MACHINE, m, ScheduleOf(0), f, g, Start32(),
               Columns32At0(), Diagonals32At0());
  }

  function Columns32At1(): State {
    State(Quad(0x36dd_dd8d_2780_703f, 0xafb9_266f_6b95_5fcf, 0xa99d_a235_ec7f_ea75, 0x75e0_43c4_0d83_7c10),
          Quad(0x4623_24ae_b805_3241, 0xb712_61d6_698e_6f06, 0x9b78_6f38_92db_fe31, 0xa3d5_5a5c_bdb2_014f),
          Quad(0x4053_9db0_4d18_dbf8, 0xbc12_c710_311b_fb69, 0x97ac_caf9_2226_0e96, 0x367a_66d8_0e5d_b2b5),
          Quad(0x5a3c_b79d_0e28_db5a, 0x8de2_cc05_c624_bf86, 0xb7e6_d723_08f8_b614, 0x7f6f_b961_bb1b_0435))
  }

  function Diagonals32At1(): State {
    State(Quad(0x39eb_ddda_61d6_9f22, 0x2232_4822_d76e_7079, 0xdae2_ba67_bb70_87e1, 0x1920_13fe_06aa_f349),
          Quad(0xd7db_d2e6_e588_bebc, 0xce22_207a_879f_bcb4, 0xb2b4_f71a_bfcb_f0eb, 0x16c6_33dc_3efd_925d),
          Quad(0x15d8_438b_e32d_fe1a, 0xc378_5cd5_f7db_9f62, 0x261d_f7bf_341d_ad2d, 0xcdf0_bb57_d9ba_8ece),
          Quad(0x08de_a8c9_5c9c_f6e2, 0x3ef5_655a_223f_4343, 0x6192_7811_f3c1_1a18, 0x4e36_7f3d_2155_6313))
  }

  lemma Round32At1(m: Words16)
    requires IsAbc(m)
    ensures Straighten(Diagonals32At1())
         in Successors(RoundFor(MACHINE, m), ScheduleOf(1), Straighten(Diagonals32At0()))
  {
    var f, g := Feed(0, 0, 0, 0, 0, 0, 0, 0), Feed(0, 0, WORD, 0, 0, 0, 0, 0);
    FeedAt1(m);
    RoundLeads(MACHINE, m, ScheduleOf(1), f, g, Straighten(Diagonals32At0()),
               Columns32At1(), Diagonals32At1());
  }

  function Columns32At2(): State {
    State(Quad(0xf33e_9a14_7718_8fe5, 0x349d_ce22_fee7_35a9, 0xe013_b1ce_8c71_3754, 0xff0d_49d6_ea2c_193f),
          Quad(0xcbd8_2aee_8fac_c192, 0xf2cd_8e8c_c90e_ba69, 0x28ac_c8a2_b6d5_72c8, 0x61cc_ae95_8b15_b852),
          Quad(0x871a_0cee_c481_fabc, 0x5639_9040_cf88_670f, 0x0803_60c8_3e70_0c69, 0xe187_cc82_d533_694d),
          Quad(0x64ef_3466_5379_93a6, 0x27ad_7946_335c_e070, 0x8b4e_9265_e6ae_8d5a, 0x85c7_363d_516b_860e))
  }

  function Diagonals32At2(): State {
    State(Quad(0x1b9d_958c_ddca_ceb9, 0xb9c8_b664_c348_dadb, 0xe975_37d9_fc07_e906, 0xd025_0ad1_59cc_be01),
          Quad(0x65f9_1745_bd89_6cad, 0x3ab7_91e5_69e5_49c9, 0xdebc_94e4_eaa6_e0e8, 0x9e54_d0e0_26db_6095),
          Quad(0xcf87_0bb0_6a4a_e694, 0x1756_9bc5_6c4e_1cbc, 0x2b14_c899_c44b_0536, 0xce35_b34c_68ce_a541),
          Quad(0xa102_7d0d_f007_511f, 0x90c3_e8e7_2c92_9e60, 0x4f14_8ef7_0bef_c8e0, 0x9f14_2651_dd0f_880d))
  }

  lemma Round32At2(m: Words16)
    requires IsAbc(m)
    ensures Straighten(Diagonals32At2())
         in Successors(RoundFor(MACHINE, m), ScheduleOf(2), Straighten(Diagonals32At1()))
  {
    var f, g := Feed(0, 0, 0, WORD, 0, 0, 0, 0), Feed(0, 0, 0, 0, 0, 0, 0, 0);
    FeedAt2(m);
    RoundLeads(MACHINE, m, ScheduleOf(2), f, g, Straighten(Diagonals32At1()),
               Columns32At2(), Diagonals32At2());
  }

  function Columns32At3(): State {
    State(Quad(0xbe8f_293b_639c_2ff3, 0x965f_85d0_840d_8f53, 0xd902_682f_1b38_0573, 0x8167_9209_24b7_51a9),
          Quad(0xcc5e_eb39_7a99_eba6, 0xc1d9_1718_3c26_ae5a, 0xcc71_9602_e7d4_f333, 0x9540_2442_09f0_ab6d),
          Quad(0xe22b_a15d_d792_0055, 0xf357_b1ed_52bc_50f4, 0xae46_db3e_aa3f_e782, 0xbb91_eb14_190d_42b8),
          Quad(0x2547_6fc6_5d48_e81a, 0x6501_beda_1f98_a443, 0xde6e_899e_0f3f_281e, 0xfa18_20de_bc1c_3534))
  }

  function Diagonals32At3(): State {
    State(Quad(0x174e_9567_9c94_7e65, 0xcfd7_5cb6_bc3d_1dd6, 0xf10d_fb48_a2cf_2ef3, 0x1ee8_3490_7e1e_e6e4),
          Quad(0x6c1e_5661_e59d_78b6, 0x271d_8bd7_2248_5d0b, 0x3fe9_7cd0_8963_1299, 0x7799_85ff_3b52_db4c),
          Quad(0x851b_0bea_d555_05eb, 0x492e_b0ae_5805_5fa4, 0x197a_f3e5_f1c4_5120, 0x419e_7bc1_041f_0738),
          Quad(0xbd45_dbe9_74a4_7ed9, 0x496d_ed48_8a0d_0248, 0x2528_10f6_d648_8648, 0x605b_451e_ee3c_7493))
  }

  lemma Round32At3(m: Words16)
    requires IsAbc(m)
    ensures Straighten(Diagonals32At3())
         in Successors(RoundFor(MACHINE, m), ScheduleOf(3), Straighten(Diagonals32At2()))
  {
    var f, g := Feed(0, 0, 0, 0, 0, 0, 0, 0), Feed(0, 0, 0, 0, 0, WORD, 0, 0);
    FeedAt3(m);
    RoundLeads(MACHINE, m, ScheduleOf(3), f, g, Straighten(Diagonals32At2()),
               Columns32At3(), Diagonals32At3());
  }

  function Columns32At4(): State {
    State(Quad(0x4516_aa2e_2aa7_7290, 0x922f_1fa5_f234_34e6, 0xad4d_a8ac_fab8_95f1, 0x75df_58e5_f1cf_3d82),
          Quad(0xc548_aa1d_dcd8_b478, 0x9dbb_e87b_6d47_d071, 0x478f_0338_8c5d_f5d4, 0x7ca1_608d_3ba9_a6b3),
          Quad(0x2795_70ef_aa37_dc43, 0xc42f_2d9e_ce4e_22d6, 0x194b_4fe2_d5bd_6826, 0x0e9c_3e34_668a_6654),
          Quad(0x0109_9153_5aaf_a676, 0xd70e_db27_8b9f_9655, 0x1112_6928_4bca_0cd3, 0x1e71_b3be_a9ca_4233))
  }

  function Diagonals32At4(): State {
    State(Quad(0x0a2b_df74_63a8_b1c0, 0x9e3d_93dc_f63c_8def, 0xe847_8524_b0a7_2848, 0x90d7_340e_de46_9f0b),
          Quad(0xc636_d26c_7ea5_42d4, 0x0a6e_14f6_a4da_eb7e, 0x3989_f0d4_8113_1e39, 0xcd8d_9cdf_38a0_820d),
          Quad(0x20f9_2a83_f87f_728f, 0x776a_ea19_7383_85e4, 0x19e1_ab60_7b66_3d05, 0x5e15_2e87_fea8_7a7a),
          Quad(0xc9e8_f8dd_24c3_c034, 0xec85_c843_700f_b5a1, 0xc0f2_a3c2_6fd8_3e08, 0x4ef9_e381_45d5_b967))
  }

  lemma Round32At4(m: Words16)
    requires IsAbc(m)
    ensures Straighten(Diagonals32At4())
         in Successors(RoundFor(MACHINE, m), ScheduleOf(4), Straighten(Diagonals32At3()))
  {
    var f, g := Feed(0, WORD, 0, 0, 0, 0, 0, 0), Feed(0, 0, 0, 0, 0, 0, 0, 0);
    FeedAt4(m);
    RoundLeads(MACHINE, m, ScheduleOf(4), f, g, Straighten(Diagonals32At3()),
               Columns32At4(), Diagonals32At4());
  }

  function Columns32At5(): State {
    State(Quad(0xa47f_74a0_5310_f727, 0xf908_59b8_6e6c_debe, 0xd149_e034_486e_e099, 0xcc4f_4f67_91cc_682c),
          Quad(0x697f_a01e_76bf_781f, 0xf20a_10c9_6a7a_e9d0, 0x7c0e_31b1_b4e0_d3b4, 0x30d1_e336_0aa7_4cde),
          Quad(0xc855_7d45_5fa8_9920, 0x34ca_6743_b6f1_cf97, 0x068b_0e6b_1a92_3f79, 0x45db_103d_044c_3a36),
          Quad(0x55c4_b7ff_796b_3739, 0xea78_114a_414e_de02, 0x614c_ddad_c184_9e20, 0xe1c1_13c5_6eec_a8ef))
  }

  function Diagonals32At5(): State {
    State(Quad(0x36c9_7a95_b5d2_2bf2, 0x6edd_9234_785d_a488, 0x9751_3c31_c468_98bf, 0xbd5e_e5ae_328d_c29a),
          Quad(0x1673_b98b_2e1b_535b, 0x8202_0aff_53e2_d3cc, 0x3928_b756_a99b_6243, 0x1b5e_aa0e_9611_7c1e),
          Quad(0x785d_df21_8304_f1ad, 0xa47d_7d5e_9aca_6bc3, 0x17ae_ee3e_af68_4f6a, 0x9c14_d20d_e4dd_0118),
          Quad(0xe8d8_925e_9210_e0c8, 0xb5df_d833_af5d_492b, 0x40e4_6cbf_7d96_6e44, 0xe142_0b4c_bd9f_9906))
  }

  lemma Round32At5(m: Words16)
    requires IsAbc(m)
    ensures Straighten(Diagonals32At5())
         in Successors(RoundFor(MACHINE, m), ScheduleOf(5), Straighten(Diagonals32At4()))
  {
    var f, g := Feed(0, 0, 0, 0, WORD, 0, 0, 0), Feed(0, 0, 0, 0, 0, 0, 0, 0);
    FeedAt5(m);
    RoundLeads(MACHINE, m, ScheduleOf(5), f, g, Straighten(Diagonals32At4()),
               Columns32At5(), Diagonals32At5());
  }

  function Columns32At6(): State {
    State(Quad(0x29aa_6d88_985e_e625, 0x299d_96d0_7189_8da4, 0x29cf_d1d7_0beb_b7da, 0x1ee2_da94_648b_6fa9),
          Quad(0x06f4_caac_fe6a_86d1, 0x469d_adcd_0984_c396, 0xa2ed_a80b_d333_ef25, 0x1f63_4451_3c57_e72f),
          Quad(0x5f09_d1a1_a27a_1505, 0x2736_5545_4dee_f83d, 0xf732_cd22_6d65_3392, 0xf469_3471_8dde_b967),
          Quad(0xfb7d_a5b0_2f13_85ce, 0x52f5_7ec0_0efa_a465, 0xc75d_2a93_0545_6b71, 0x6fdd_e52b_2ba1_1f1b))
  }

  function Diagonals32At6(): State {
    State(Quad(0xf039_a21d_2794_f0a1, 0xe013_b99d_76b1_1d29, 0x8ff8_5a09_3e15_6a11, 0x0edf_79df_b11a_3801),
          Quad(0x0ff4_0ac9_65c7_fe89, 0x9bad_116e_9227_f53d, 0x2c1e_6260_507d_85e5, 0x3bef_2726_1a6e_550e),
          Quad(0x2f67_c045_b7c3_961e, 0x8893_7b0a_bd92_73ba, 0x3921_d261_5887_e569, 0x822e_a244_9e00_195f),
          Quad(0x5190_ef7a_4d62_0547, 0xe324_f81a_8da2_cbe7, 0xdde7_cef4_ea15_9426, 0x0db6_7cd3_456f_9c10))
  }

  lemma Round32At6(m: Words16)
    requires IsAbc(m)
    ensures Straighten(Diagonals32At6())
         in Successors(RoundFor(MACHINE, m), ScheduleOf(6), Straighten(Diagonals32At5()))
  {
    var f, g := Feed(0, 0, 0, 0, 0, 0, 0, 0), Feed(WORD, 0, 0, 0, 0, 0, 0, 0);
    FeedAt6(m);
    RoundLeads(MACHINE, m, ScheduleOf(6), f, g, Straighten(Diagonals32At5()),
               Columns32At6(), Diagonals32At6());
  }

  function Columns32At7(): State {
    State(Quad(0x6ec8_3743_147b_af54, 0xc351_c0e2_8178_db10, 0xfac1_7d7a_1fff_9f44, 0x1245_c191_dec5_fcca),
          Quad(0x7fef_2627_4fe1_9adc, 0x2570_dd71_e4c2_8e75, 0x1d5f_0f78_8109_3810, 0xfcfe_3d96_24ca_3dc8),
          Quad(0x6af7_16bc_1b4b_c6f1, 0x2fe1_259f_af9f_9def, 0x0812_d7c8_06af_f561, 0x6b96_6673_01f7_dde9),
          Quad(0xc50e_efe5_aacc_e499, 0x6a75_4e42_970c_f9dc, 0xdfd0_2241_d45e_1776, 0xf7c3_7ee0_aee5_7e37))
  }

  function Diagonals32At7(): State {
    State(Quad(0xfd0a_d52f_9868_57b8, 0xea16_0dc5_3f75_d993, 0x9dda_c698_017c_5b47, 0x3dec_aad1_96d1_fb92),
          Quad(0x1c0c_6df5_f545_1509, 0x989e_0345_9c48_6d47, 0xa073_238c_3be7_ea9d, 0x9f5e_3d48_a9f4_48d0),
          Quad(0x726d_d5f9_d38c_feab, 0x4832_5f0a_a775_9e29, 0x3918_5f7e_728e_f2ca, 0xa7c3_e4ff_28fc_fa1e),
          Quad(0x0136_8c50_6cf7_1b8d, 0xc124_8b6c_2743_8c50, 0x1847_9e3e_5310_9dcc, 0xcd36_2c84_ee10_8f01))
  }

  lemma Round32At7(m: Words16)
    requires IsAbc(m)
    ensures Straighten(Diagonals32At7())
         in Successors(RoundFor(MACHINE, m), ScheduleOf(7), Straighten(Diagonals32At6()))
  {
    var f, g := Feed(0, 0, 0, 0, 0, 0, 0, 0), Feed(0, WORD, 0, 0, 0, 0, 0, 0);
    FeedAt7(m);
    RoundLeads(MACHINE, m, ScheduleOf(7), f, g, Straighten(Diagonals32At6()),
               Columns32At7(), Diagonals32At7());
  }

  function Columns32At8(): State {
    State(Quad(0x020c_2e2a_1c33_1ebb, 0xa279_da48_94eb_6ed9, 0x92e0_20aa_16f2_8ddf, 0x4368_1453_82f2_3d42),
          Quad(0x8e06_ff99_d079_f467, 0x30ab_8dbe_f765_56c6, 0x9fb1_4501_e00d_aea8, 0x6b23_9240_eb1b_7198),
          Quad(0xfd48_1ec6_ae7e_3a4d, 0x3b56_db3d_fe8e_ee3c, 0xef97_2819_c1ef_b945, 0xcff6_7c8d_fa35_6843),
          Quad(0x631a_f9c5_5c24_372e, 0x0157_c48d_13f0_9fa1, 0x9919_ec2c_ceac_54c7, 0x76a4_e11b_1e40_28a0))
  }

  function Diagonals32At8(): State {
    State(Quad(0x98fa_adb6_d7a0_fb72, 0xf165_d720_6524_4437, 0x9ef0_1a5d_f69a_a7ea, 0xa180_9522_f097_93b3),
          Quad(0x362b_52b4_1120_1649, 0xa65e_6007_4841_1b8d, 0xbfe2_47df_e637_be60, 0xd8cd_7bd1_8d55_9b15),
          Quad(0x5d01_3710_c47c_87ad, 0xdaea_dc50_9c31_fa1b, 0xb314_3d95_4c15_50b2, 0xf6be_7474_9f66_51c0),
          Quad(0xa0ce_c516_86d8_b445, 0xb910_9c64_4017_5bb8, 0xc7b1_bf3a_b5c2_a3e2, 0x1cc5_abf4_0b52_4cba))
  }

  lemma Round32At8(m: Words16)
    requires IsAbc(m)
    ensures Straighten(Diagonals32At8())
         in Successors(RoundFor(MACHINE, m), ScheduleOf(8), Straighten(Diagonals32At7()))
  {
    var f, g := Feed(0, 0, 0, 0, 0, 0, WORD, 0), Feed(0, 0, 0, 0, 0, 0, 0, 0);
    FeedAt8(m);
    RoundLeads(MACHINE, m, ScheduleOf(8), f, g, Straighten(Diagonals32At7()),
               Columns32At8(), Diagonals32At8());
  }

  function Columns32At9(): State {
    State(Quad(0x1ee5_0f12_2a4e_07c0, 0x91aa_9255_1139_2724, 0x840c_8ddd_9a09_2304, 0x360a_8408_c32d_a088),
          Quad(0xfdd6_df16_2c61_b663, 0x95a6_d463_daab_4a66, 0x9c96_df70_5b48_fed0, 0xebc3_14f4_d456_fd4e),
          Quad(0x795e_f218_cb27_7c98, 0x2557_a71f_1b48_c19b, 0xe754_888f_33cd_b993, 0x4074_7eb1_1d98_d4bd),
          Quad(0xbcc2_5fb0_b864_91bc, 0xf0e0_96b5_6f1b_6cbc, 0x3978_f513_22d4_5502, 0xa5f9_6f5f_6263_625d))
  }

  function Diagonals32At9(): State {
    State(Quad(0x9f9b_be4e_4d66_bbc5, 0xdda8_d1a7_3631_909e, 0x85db_b20b_d375_a1d0, 0x37ec_f901_8e35_5c14),
          Quad(0xd3c5_2ad0_9f16_0e2a, 0xf51d_0eae_c5ea_eeba, 0xca18_23cc_359e_e171, 0x0c17_5742_fda6_8a32),
          Quad(0x8913_0b50_fa7a_36c7, 0x079b_14fb_f6ce_ef6e, 0x1d1e_08ff_3b50_3ac4, 0xaafd_6707_1f4a_7b86),
          Quad(0xa719_92e7_00da_b3b9, 0xee0a_3c16_bd84_047d, 0xafa9_beea_681b_9a46, 0x3f0d_731c_feba_0ec2))
  }

  lemma Round32At9(m: Words16)
    requires IsAbc(m)
    ensures Straighten(Diagonals32At9())
         in Successors(RoundFor(MACHINE, m), ScheduleOf(9), Straighten(Diagonals32At8()))
  {
    var f, g := Feed(0, 0, 0, 0, 0, 0, 0, 0), Feed(0, 0, 0, 0, 0, 0, 0, WORD);
    FeedAt9(m);
    RoundLeads(MACHINE, m, ScheduleOf(9), f, g, Straighten(Diagonals32At8()),
               Columns32At9(), Diagonals32At9());
  }

  function Columns32At10(): State {
    State(Quad(0x1489_915f_17db_a8a3, 0x3ed0_0a17_f4b9_f0a9, 0x198b_93f1_f6d1_7e54, 0x0584_e261_39ce_9669),
          Quad(0x4f13_251b_f4bd_3e7d, 0x06c0_03e6_b6ef_76ad, 0x1ec5_2957_4402_24e3, 0xa50d_851e_c055_ef2d),
          Quad(0xd812_2331_6839_0752, 0xd71d_9a5b_75ed_a8cc, 0x326c_c41c_1d25_35b7, 0x6db1_e6cd_0872_2904),
          Quad(0xe863_e227_25df_a75f, 0x09bd_1d75_847b_f1c6, 0x3d71_b4fe_ec0b_fcdb, 0xf9bc_91ff_1d14_bc87))
  }

  function Diagonals32At10(): State {
    State(Quad(0x1096_7146_5b2f_3206, 0x908b_ee7a_bd9f_cdfb, 0x3d09_2b3d_d2ab_f44b, 0x36bc_c349_d291_b9da),
          Quad(0x5421_fcbf_3667_2bc3, 0x54b4_2046_adc6_577c, 0x07ab_2d64_9d5f_6fc4, 0x76d5_0745_8d9f_15d3),
          Quad(0xd185_0af6_be6c_4bd7, 0x76d2_db89_13de_d80a, 0xd4dc_a78b_5858_3eba, 0x8e6f_fd64_1cc3_faae),
          Quad(0x6513_684e_7b6a_0c82, 0x0bfc_5ca6_0e2c_2b8e, 0x3821_525c_67c6_61bd, 0x0670_77f8_d942_31e8))
  }

  lemma Round32At10(m: Words16)
    requires IsAbc(m)
    ensures Straighten(Diagonals32At10())
         in Successors(RoundFor(MACHINE, m), ScheduleOf(0), Straighten(Diagonals32At9()))
  {
    var f, g := Feed(WORD, 0, 0, 0, 0, 0, 0, 0), Feed(0, 0, 0, 0, 0, 0, 0, 0);
    FeedAt0(m);
    RoundLeads(MACHINE, m, ScheduleOf(0), f, g, Straighten(Diagonals32At9()),
               Columns32At10(), Diagonals32At10());
  }

  function Columns32At11(): State {
    State(Quad(0xa8b5_bb9e_c60e_d260, 0xbc91_a3ed_d595_82c0, 0xd26a_3c44_b679_b5ac, 0x18c9_4c71_f3d9_ac49),
          Quad(0xfc63_ccea_61c2_102d, 0x61c7_1747_9e73_2aea, 0x2756_6a13_a282_831a, 0x0670_14a6_cffa_0b00),
          Quad(0x593f_97e4_39d0_61b2, 0x39ef_8dc2_6b93_a9ec, 0x2ff1_aa47_f854_6aa9, 0x3d77_ec4f_055f_1999),
          Quad(0x430e_abea_e59a_1725, 0x342f_8301_ae49_9777, 0xfd3f_a993_8175_f922, 0x97bb_1ed7_f6bc_08c0))
  }

  function Diagonals32At11(): State {
    State(Quad(0x7999_038a_4d0a_9252, 0x9f1f_77a8_c92b_255e, 0x2093_8b77_8c1d_07a7, 0x5e63_eba4_f600_d0cd),
          Quad(0xb9f9_6daf_1d8d_2155, 0xe11d_e4c5_84f0_8f9b, 0x7328_e160_8dac_4316, 0x3788_8799_dd9c_3317),
          Quad(0x5ec3_b3b4_49c7_6918, 0x61fa_7e81_c537_d251, 0x61a9_a78e_8336_86c7, 0x675b_7920_419d_c2d8),
          Quad(0xcf44_c132_1279_1795, 0xacda_553b_e3c3_15de, 0x99c9_5bc4_a6a8_f75f, 0xb402_7134_414e_d0ae))
  }

  lemma Round32At11(m: Words16)
    requires IsAbc(m)
    ensures Straighten(Diagonals32At11())
         in Successors(RoundFor(MACHINE, m), ScheduleOf(1), Straighten(Diagonals32At10()))
  {
    var f, g := Feed(0, 0, 0, 0, 0, 0, 0, 0), Feed(0, 0, WORD, 0, 0, 0, 0, 0);
    FeedAt1(m);
    RoundLeads(MACHINE, m, ScheduleOf(1), f, g, Straighten(Diagonals32At10()),
               Columns32At11(), Diagonals32At11());
  }

  function Trace32(): seq<State> {
    [Start32(),
     Straighten(Diagonals32At0()),
     Straighten(Diagonals32At1()),
     Straighten(Diagonals32At2()),
     Straighten(Diagonals32At3()),
     Straighten(Diagonals32At4()),
     Straighten(Diagonals32At5()),
     Straighten(Diagonals32At6()),
     Straighten(Diagonals32At7()),
     Straighten(Diagonals32At8()),
     Straighten(Diagonals32At9()),
     Straighten(Diagonals32At10()),
     Straighten(Diagonals32At11())]
  }

  lemma Leads32(m: Words16)
    requires IsAbc(m)
    ensures Leads(RoundFor(MACHINE, m), RfcSchedules(), Trace32())
  {
    RfcTwelve();
    Round32At0(m);
    Round32At1(m);
    Round32At2(m);
    Round32At3(m);
    Round32At4(m);
    Round32At5(m);
    Round32At6(m);
    Round32At7(m);
    Round32At8(m);
    Round32At9(m);
    Round32At10(m);
    Round32At11(m);
    LeadsTwelve(RoundFor(MACHINE, m), RfcSchedules(), Trace32());
  }

  lemma Begins32()
    ensures Shows(Initial(MACHINE, H0(32), 3, 0, true), Start32())
  {
    forall i | 0 <= i < 16 { InitialWords(MACHINE, H0(32), 3, 0, i); }
    forall i | 0 <= i < 8 { H0Words(32, i); }
  }

  function Final32(): Words8 {
    [0x7239_4263_3c81_ddbd, 0x9b57_98ee_3fef_7131, 0x423e_cbb1_3b4e_9694, 0x1923_d568_c0c8_6272,
     0xca5c_80dd_93b9_a418, 0x6341_6604_a388_8b99, 0x4a9c_4c5a_3eff_e25e, 0x6479_583c_2049_23e5]
  }

  lemma Ends32(v: Words16)
    requires Shows(v, Straighten(Diagonals32At11()))
    ensures Finish(MACHINE, H0(32), v) == Final32()
  {
    forall i | 0 <= i < 8 { H0Words(32, i); }
    var h := H0(32);
    assert h[0] ^ (v[0] ^ v[8]) == Final32()[0];
    assert h[1] ^ (v[1] ^ v[9]) == Final32()[1];
    assert h[2] ^ (v[2] ^ v[10]) == Final32()[2];
    assert h[3] ^ (v[3] ^ v[11]) == Final32()[3];
    assert h[4] ^ (v[4] ^ v[12]) == Final32()[4];
    assert h[5] ^ (v[5] ^ v[13]) == Final32()[5];
    assert h[6] ^ (v[6] ^ v[14]) == Final32()[6];
    assert h[7] ^ (v[7] ^ v[15]) == Final32()[7];
  }

  /** The digest as published. */
  function Digest32(): seq<bv8> {
    [0xbd, 0xdd, 0x81, 0x3c, 0x63, 0x42, 0x39, 0x72] + [0x31, 0x71, 0xef, 0x3f, 0xee, 0x98, 0x57, 0x9b]
    + [0x94, 0x96, 0x4e, 0x3b, 0xb1, 0xcb, 0x3e, 0x42] + [0x72, 0x62, 0xc8, 0xc0, 0x68, 0xd5, 0x23, 0x19]
  }

  lemma Bytes32()
    ensures Bytes(Final32()[..4]) == Digest32()
  {
    var h := Final32();
    assert LeBytes(h[0]) == [0xbd, 0xdd, 0x81, 0x3c, 0x63, 0x42, 0x39, 0x72];
    assert LeBytes(h[1]) == [0x31, 0x71, 0xef, 0x3f, 0xee, 0x98, 0x57, 0x9b];
    assert LeBytes(h[2]) == [0x94, 0x96, 0x4e, 0x3b, 0xb1, 0xcb, 0x3e, 0x42];
    assert LeBytes(h[3]) == [0x72, 0x62, 0xc8, 0xc0, 0x68, 0xd5, 0x23, 0x19];
    BytesOfFour(h);
  }

  lemma Working32(m: Words16, v: Words16)
    requires IsAbc(m) && Shows(v, Start32())
    ensures Shows(Rounds(MACHINE, v, m, RfcSchedules()), Straighten(Diagonals32At11()))
  {
    Leads32(m);
    FoldLeads(RoundFor(MACHINE, m), v, RfcSchedules(), Trace32());
    RoundsFold(MACHINE, v, m, RfcSchedules());
  }

  lemma Closing32(w: Words16)
    requires Shows(w, Straighten(Diagonals32At11()))
    ensures Bytes(Finish(MACHINE, H0(32), w))[..32] == Digest32()
  {
    Ends32(w);
    BytesPrefix(Final32(), 4);
    Bytes32();
  }

  /** The 32-byte digest of "abc": the first 32 bytes of the hash with length 32. */
  lemma Abc32()
    ensures Digest(F, 32, ABC)[..32] == Digest32()
  {
    var m, v := Message(Pad(ABC)), Initial(MACHINE, H0(32), 3, 0, true);
    var w := Rounds(MACHINE, v, m, RfcSchedules());
    AbcCounter();
    AbcMessage();
    OneBlock(32, ABC, 3, w);
    Begins32();
    Working32(m, v);
    Closing32(w);
  }

  // ---- The 64-byte hash of the bytes 0 to 127 ----

  /** The working vector before the first round. */
  function StartFull(): State {
    State(Quad(0x6a09_e667_f2bd_c948, 0x510e_527f_ade6_82d1, 0x6a09_e667_f3bc_c908, 0x510e_527f_ade6_8251),
          Quad(0xbb67_ae85_84ca_a73b, 0x9b05_688c_2b3e_6c1f, 0xbb67_ae85_84ca_a73b, 0x9b05_688c_2b3e_6c1f),
          Quad(0x3c6e_f372_fe94_f82b, 0x1f83_d9ab_fb41_bd6b, 0x3c6e_f372_fe94_f82b, 0xe07c_2654_04be_4294),
          Quad(0xa54f_f53a_5f1d_36f1, 0x5be0_cd19_137e_2179, 0xa54f_f53a_5f1d_36f1, 0x5be0_cd19_137e_2179))
  }

  function ColumnsFullAt0(): State {
    State(Quad(0xfce6_9820_f398_254c, 0xd133_caff_35a4_ac1f, 0xc323_a856_de35_9924, 0x4ad8_f2a6_5768_6088),
          Quad(0xfb29_447a_67d3_b4d2, 0xf51f_e27e_1dfc_14d3, 0x9408_0a07_8760_7d39, 0xf07b_130c_0c0f_9155),
          Quad(0x6ab8_48ba_7e81_3e78, 0x0eab_a7be_119f_a97b, 0x3f24_fa94_3e91_ea27, 0xea6f_72fe_dc98_1de5),
          Quad(0x54f6_2acb_c45a_c7a3, 0x0822_ecc9_4f3e_3b75, 0x5941_8063_44cc_196b, 0xfd3d_e245_8228_a7dc))
  }

  function DiagonalsFullAt0(): State {
    State(Quad(0x87ee_2c12_dc56_2ac5, 0xe5a8_6d97_9f42_73d4, 0x8d87_2828_f394_5ff4, 0x7763_5110_f091_1827),
          Quad(0xe0ef_8de3_6d08_cf56, 0xa21c_4881_eebd_abe2, 0x716b_caba_b3b6_1390, 0x7c7c_7b42_42f6_46fb),
          Quad(0x97c8_855d_0faa_eafc, 0x5ae5_c0bb_4957_ddbe, 0x636a_9d55_d7b5_4898, 0x6318_aae6_cf45_2590),
          Quad(0xa859_ce50_aab4_8074, 0xa93b_f237_e8fe_ab7e, 0xdfa7_1c8f_35b7_7475, 0x99b5_19b0_3687_dd7b))
  }

  lemma RoundFullAt0(m: Words16)
    requires IsFull(m)
    ensures Straighten(DiagonalsFullAt0())
         in Successors(RoundFor(MACHINE, m), ScheduleOf(0), StartFull())
  {
    var f := Feed(0x0706_0504_0302_0100, 0x0f0e_0d0c_0b0a_0908, 0x1716_1514_1312_1110, 0x1f1e_1d1c_1b1a_1918,
                  0x2726_2524_2322_2120, 0x2f2e_2d2c_2b2a_2928, 0x3736_3534_3332_3130, 0x3f3e_3d3c_3b3a_3938);
    var g := Feed(0x4746_4544_4342_4140, 0x4f4e_4d4c_4b4a_4948, 0x5756_5554_5352_5150, 0x5f5e_5d5c_5b5a_5958,
                  0x6766_6564_6362_6160, 0x6f6e_6d6c_6b6a_6968, 0x7776_7574_7372_7170, 0x7f7e_7d7c_7b7a_7978);
    FeedAt0(m);
    RoundLeads(MACHINE, m, ScheduleOf(0), f, g, StartFull(),
               ColumnsFullAt0(), DiagonalsFullAt0());
  }

  function ColumnsFullAt1(): State {
    State(Quad(0x6c91_d488_2c86_4247, 0xc99e_bc96_447f_0157, 0x8855_b53f_8253_29ef, 0xaaba_16a0_d5c0_f85a),
          Quad(0x5491_a03d_d9e3_a3e5, 0xedc2_52f3_82ed_50d1, 0xe96c_1323_a645_5633, 0x299c_b4b9_e1e7_5745),
          Quad(0xb07b_0656_655a_6188, 0x9032_b2f5_3e11_bf03, 0x6fd0_34d4_3f25_d86b, 0x6313_cf4e_3b0b_75dc),
          Quad(0x7d01_7828_4913_c5ba, 0xb276_764b_aee1_824a, 0x8a26_7d5e_611a_0dd5, 0x68d2_d2e6_a795_4cdd))
  }

  function DiagonalsFullAt1(): State {
    State(Quad(0x0cb6_b74c_9937_2042, 0xd064_149f_a7be_eb22, 0x53dc_172f_a888_5753, 0xc623_115e_67b1_9887),
          Quad(0x9ec3_dd14_9ab5_5a94, 0xed04_099b_0b35_bb5b, 0x6d61_6b04_e931_3831, 0x1403_51f4_46a6_dbc5),
          Quad(0xc8a3_93df_5c3a_5b22, 0x1472_344d_ad7d_57bf, 0x4d2c_6682_67d7_4f1f, 0x3665_46d2_f9b0_b7e9),
          Quad(0xf0f1_ffab_90fc_a84a, 0x502f_19d7_14a8_2802, 0x7412_0c4f_3771_8af8, 0x06ee_7346_7a4e_8621))
  }

  lemma RoundFullAt1(m: Words16)
    requires IsFull(m)
    ensures Straighten(DiagonalsFullAt1())
         in Successors(RoundFor(MACHINE, m), ScheduleOf(1), Straighten(DiagonalsFullAt0()))
  {
    var f := Feed(0x7776_7574_7372_7170, 0x5756_5554_5352_5150, 0x2726_2524_2322_2120, 0x4746_4544_4342_4140,
                  0x4f4e_4d4c_4b4a_4948, 0x7f7e_7d7c_7b7a_7978, 0x6f6e_6d6c_6b6a_6968, 0x3736_3534_3332_3130);
    var g := Feed(0x0f0e_0d0c_0b0a_0908, 0x6766_6564_6362_6160, 0x0706_0504_0302_0100, 0x1716_1514_1312_1110,
                  0x5f5e_5d5c_5b5a_5958, 0x3f3e_3d3c_3b3a_3938, 0x2f2e_2d2c_2b2a_2928, 0x1f1e_1d1c_1b1a_1918);
    FeedAt1(m);
    RoundLeads(MACHINE, m, ScheduleOf(1), f, g, Straighten(DiagonalsFullAt0()),
               ColumnsFullAt1(), DiagonalsFullAt1());
  }

  function ColumnsFullAt2(): State {
    State(Quad(0xba71_0591_3174_ede0, 0x330c_8e0c_d63c_d985, 0x2f60_d6ca_8fe7_67c6, 0x9294_f5ee_7fc8_9933),
          Quad(0xc00c_3c1c_c4e2_78d5, 0xb7c0_b372_b26c_20e9, 0x3997_b9b9_453f_c0cb, 0x691f_9c6a_2ce3_2409),
          Quad(0xed96_488c_5a85_8036, 0x0e59_7a4d_9e2b_cce1, 0x7686_d5f7_7bcc_c9f1, 0x39d6_0542_f108_b8be),
          Quad(0x83e1_0241_fad7_296f, 0xb6c8_95df_b485_ade8, 0xd4eb_a9b0_0f3a_9072, 0x8944_5da4_e347_b816))
  }

  function DiagonalsFullAt2(): State {
    State(Quad(0x363b_88c9_e5c3_4597, 0x28b5_2956_6c85_6de5, 0x6167_9056_0d5f_c2fc, 0x166b_e24f_50c6_a50f),
          Quad(0x9f34_4493_4666_700e, 0xae92_56b5_0968_20b6, 0x2d33_1082_11bf_f04b, 0x5666_9ed4_836e_3971),
          Quad(0xdeed_88d5_24df_660c, 0x372f_64aa_54f6_d097, 0x77d5_d275_e5f4_9de5, 0xe1ce_b84b_cb8a_ae5d),
          Quad(0x3ea2_23d5_21a0_a4af, 0x644b_464b_7d49_0145, 0xa365_8230_5c84_b7f1, 0x7c76_d3f4_d757_1e4d))
  }

  lemma RoundFullAt2(m: Words16)
    requires IsFull(m)
    ensures Straighten(DiagonalsFullAt2())
         in Successors(RoundFor(MACHINE, m), ScheduleOf(2), Straighten(DiagonalsFullAt1()))
  {
    var f := Feed(0x5f5e_5d5c_5b5a_5958, 0x4746_4544_4342_4140, 0x6766_6564_6362_6160, 0x0706_0504_0302_0100,
                  0x2f2e_2d2c_2b2a_2928, 0x1716_1514_1312_1110, 0x7f7e_7d7c_7b7a_7978, 0x6f6e_6d6c_6b6a_6968);
    var g := Feed(0x5756_5554_5352_5150, 0x7776_7574_7372_7170, 0x1f1e_1d1c_1b1a_1918, 0x3736_3534_3332_3130,
                  0x3f3e_3d3c_3b3a_3938, 0x0f0e_0d0c_0b0a_0908, 0x4f4e_4d4c_4b4a_4948, 0x2726_2524_2322_2120);
    FeedAt2(m);
    RoundLeads(MACHINE, m, ScheduleOf(2), f, g, Straighten(DiagonalsFullAt1()),
               ColumnsFullAt2(), DiagonalsFullAt2());
  }

  function ColumnsFullAt3(): State {
    State(Quad(0xfa44_898e_9f5e_5964, 0x63a2_b96e_269d_a2df, 0x60e0_7347_a683_4167, 0xcbe1_e76c_30eb_10fd),
          Quad(0xbe9c_7292_1b02_d022, 0x89ce_9833_9dc1_b20a, 0x8c61_9699_8f12_090a, 0xe36c_bb13_2bc4_1dcb),
          Quad(0xf495_fa79_d93c_5a0e, 0xca34_e25c_fc7d_664d, 0x755b_3930_a216_bba2, 0xc50c_ba73_141e_59a4),
          Quad(0x41cd_a3e9_8a7c_f98f, 0xb342_eb2f_b0c9_f12c, 0xac86_3d0e_9d7c_4117, 0xfe1b_c0fa_c878_4938))
  }

  function DiagonalsFullAt3(): State {
    State(Quad(0x5a63_308e_ee7a_9248, 0xf413_2848_0c08_f319, 0x720a_50a0_6d12_3d16, 0x6464_c229_65c8_8b48),
          Quad(0xf716_9b44_896a_d6cc, 0x6a87_a408_3d4f_73ce, 0xd283_11d0_edc9_9c02, 0xb3bb_8557_d42e_f574),
          Quad(0xb507_7926_3e3a_64be, 0xc45e_e32e_a583_e314, 0xbd2d_18c3_dcce_06ee, 0xd560_33eb_08b7_13a9),
          Quad(0xd600_8ebf_be33_097c, 0x8e07_7f9e_fb54_f7a8, 0x2ec8_d168_33f1_c982, 0x69db_ee8b_c2fd_5fd1))
  }

  lemma RoundFullAt3(m: Words16)
    requires IsFull(m)
    ensures Straighten(DiagonalsFullAt3())
         in Successors(RoundFor(MACHINE, m), ScheduleOf(3), Straighten(DiagonalsFullAt2()))
  {
    var f := Feed(0x3f3e_3d3c_3b3a_3938, 0x4f4e_4d4c_4b4a_4948, 0x1f1e_1d1c_1b1a_1918, 0x0f0e_0d0c_0b0a_0908,
                  0x6f6e_6d6c_6b6a_6968, 0x6766_6564_6362_6160, 0x5f5e_5d5c_5b5a_5958, 0x7776_7574_7372_7170);
    var g := Feed(0x1716_1514_1312_1110, 0x3736_3534_3332_3130, 0x2f2e_2d2c_2b2a_2928, 0x5756_5554_5352_5150,
                  0x2726_2524_2322_2120, 0x0706_0504_0302_0100, 0x7f7e_7d7c_7b7a_7978, 0x4746_4544_4342_4140);
    FeedAt3(m);
    RoundLeads(MACHINE, m, ScheduleOf(3), f, g, Straighten(DiagonalsFullAt2()),
               ColumnsFullAt3(), DiagonalsFullAt3());
  }

  function ColumnsFullAt4(): State {
    State(Quad(0xc447_b58e_9b5c_62d3, 0x79d5_af21_2fa6_21c2, 0xb962_6480_f493_9e7a, 0x1afe_2570_93c2_1f5f),
          Quad(0x7b15_f9f7_dc72_7154, 0x1309_529d_f9cd_ca2b, 0xa8fb_654c_1c7c_a01a, 0xb207_b33f_1953_1345),
          Quad(0x3c35_693b_a860_f0ad, 0x697e_cd2a_b555_ea18, 0xead5_7741_ac08_10fd, 0x2c64_7053_df76_f71e),
          Quad(0x8a76_be20_4caf_0e7e, 0x5230_b0a3_2c10_5b9b, 0xb05a_2130_8c23_7aeb, 0x0b15_58b7_0888_d97e))
  }

  function DiagonalsFullAt4(): State {
    State(Quad(0x75d1_c3a6_f493_737e, 0xad5c_19dd_2cf8_56b8, 0x4152_3417_7690_e754, 0x5668_75c5_84b6_b141),
          Quad(0x10eb_6b29_9486_f774, 0x8049_b723_c3c5_51a8, 0x25b5_3ad7_a5e3_4984, 0xf67a_6e0b_c0b2_cd8b),
          Quad(0x4ca3_d1e1_ad47_dbf8, 0x7fcc_3130_9cdc_d184, 0x0027_2512_2c0c_7582, 0x27d4_5253_bfdc_dadc),
          Quad(0xc094_e252_c366_65c4, 0x7ac8_8d2e_8e59_ab29, 0x90df_ac1f_87a0_6690, 0x9fca_888d_5c14_cc68))
  }

  lemma RoundFullAt4(m: Words16)
    requires IsFull(m)
    ensures Straighten(DiagonalsFullAt4())
         in Successors(RoundFor(MACHINE, m), ScheduleOf(4), Straighten(DiagonalsFullAt3()))
  {
    var f := Feed(0x4f4e_4d4c_4b4a_4948, 0x0706_0504_0302_0100, 0x2f2e_2d2c_2b2a_2928, 0x3f3e_3d3c_3b3a_3938,
                  0x1716_1514_1312_1110, 0x2726_2524_2322_2120, 0x5756_5554_5352_5150, 0x7f7e_7d7c_7b7a_7978);
    var g := Feed(0x7776_7574_7372_7170, 0x0f0e_0d0c_0b0a_0908, 0x5f5e_5d5c_5b5a_5958, 0x6766_6564_6362_6160,
                  0x3736_3534_3332_3130, 0x4746_4544_4342_4140, 0x1f1e_1d1c_1b1a_1918, 0x6f6e_6d6c_6b6a_6968);
    FeedAt4(m);
    RoundLeads(MACHINE, m, ScheduleOf(4), f, g, Straighten(DiagonalsFullAt3()),
               ColumnsFullAt4(), DiagonalsFullAt4());
  }

  function ColumnsFullAt5(): State {
    State(Quad(0xfe41_187d_b6eb_f2aa, 0x832f_fee7_4b3b_522d, 0x4ebd_b25c_1817_c885, 0xf948_ab0c_fa41_4721),
          Quad(0xfeec_5100_594c_4e22, 0x6102_8ca6_bf05_4f50, 0x8299_0722_4eca_dade, 0xa64b_b581_f480_8be5),
          Quad(0x400e_5c4e_f70b_83f9, 0xc4ae_1c39_4de2_aa17, 0xeeeb_7ef5_8150_a90a, 0x857d_6815_be86_bb32),
          Quad(0x156c_7816_e3d5_238b, 0x6baa_6a64_1948_7296, 0x5b72_3701_2991_a8a0, 0x0e89_325f_b1df_321a))
  }

  function DiagonalsFullAt5(): State {
    State(Quad(0x2ac6_a92b_b9c1_1d37, 0x9073_46ef_6e3f_05ef, 0xfcd7_d201_025c_d242, 0xe520_020a_f82b_3121),
          Quad(0xf506_e659_4244_c601, 0xf027_286f_0334_110b, 0x3b13_9a80_b52b_63ed, 0xc778_ed2e_9009_b9d4),
          Quad(0x7f76_5f49_a605_3c33, 0x8ec2_17a5_d9f7_7e20, 0x9ba9_ae77_4a3f_e5ac, 0xcd9d_0038_a4ab_2b79),
          Quad(0x908d_a1da_9f98_bb42, 0x8e0c_6343_9ff0_eeed, 0x5e92_e125_d5cb_844c, 0x575d_1411_6428_bd4f))
  }

  lemma RoundFullAt5(m: Words16)
    requires IsFull(m)
    ensures Straighten(DiagonalsFullAt5())
         in Successors(RoundFor(MACHINE, m), ScheduleOf(5), Straighten(DiagonalsFullAt4()))
  {
    var f := Feed(0x1716_1514_1312_1110, 0x6766_6564_6362_6160, 0x3736_3534_3332_3130, 0x5756_5554_5352_5150,
                  0x0706_0504_0302_0100, 0x5f5e_5d5c_5b5a_5958, 0x4746_4544_4342_4140, 0x1f1e_1d1c_1b1a_1918);
    var g := Feed(0x2726_2524_2322_2120, 0x6f6e_6d6c_6b6a_6968, 0x3f3e_3d3c_3b3a_3938, 0x2f2e_2d2c_2b2a_2928,
                  0x7f7e_7d7c_7b7a_7978, 0x7776_7574_7372_7170, 0x0f0e_0d0c_0b0a_0908, 0x4f4e_4d4c_4b4a_4948);
    FeedAt5(m);
    RoundLeads(MACHINE, m, ScheduleOf(5), f, g, Straighten(DiagonalsFullAt4()),
               ColumnsFullAt5(), DiagonalsFullAt5());
  }

  function ColumnsFullAt6(): State {
    State(Quad(0xc0d3_e346_b420_225a, 0xec06_69a1_46ec_bb49, 0x876f_7096_6897_d60a, 0xbea7_edce_3716_5361),
          Quad(0xf3c2_0fbf_01ae_96b0, 0xea5b_34c3_ab72_be67, 0x2a96_cd8c_1f1f_1773, 0xacdc_ece4_f03e_58bb),
          Quad(0xf62c_e01f_0613_b5c7, 0x9bf8_222f_d6af_f8d4, 0xd256_6492_96aa_71db, 0x5cfb_8eaf_e3fe_b65d),
          Quad(0x140a_ef0a_5f16_2d53, 0xcf29_9b4d_6475_7abf, 0x91aa_76b7_dd2b_3cde, 0xf1fd_7093_84a9_fc43))
  }

  function DiagonalsFullAt6(): State {
    State(Quad(0xf1d4_799d_6685_f26a, 0xb1d7_0d59_ec49_a768, 0x588a_99fe_3e92_04c5, 0x9ff7_17e9_641f_254d),
          Quad(0x134d_a394_efd3_7c4f, 0xd3d8_4a1a_99d9_fb99, 0xc4d3_3a58_85c4_5f4f, 0xf6a2_2fcb_3041_9784),
          Quad(0xa63b_b6cf_3dee_cc23, 0x9eb9_59c1_9b86_7d73, 0xb5dc_75e2_b8ca_7ffc, 0xe87f_e3d6_97ba_8596),
          Quad(0xce47_f625_98a4_2fb0, 0xaba5_91a1_e0d6_038e, 0x7243_3209_a46f_adbb, 0x3cf0_c4fc_69a4_8308))
  }

  lemma RoundFullAt6(m: Words16)
    requires IsFull(m)
    ensures Straighten(DiagonalsFullAt6())
         in Successors(RoundFor(MACHINE, m), ScheduleOf(6), Straighten(DiagonalsFullAt5()))
  {
    var f := Feed(0x6766_6564_6362_6160, 0x2f2e_2d2c_2b2a_2928, 0x0f0e_0d0c_0b0a_0908, 0x7f7e_7d7c_7b7a_7978,
                  0x7776_7574_7372_7170, 0x6f6e_6d6c_6b6a_6968, 0x2726_2524_2322_2120, 0x5756_5554_5352_5150);
    var g := Feed(0x0706_0504_0302_0100, 0x3f3e_3d3c_3b3a_3938, 0x3736_3534_3332_3130, 0x1f1e_1d1c_1b1a_1918,
                  0x4f4e_4d4c_4b4a_4948, 0x1716_1514_1312_1110, 0x4746_4544_4342_4140, 0x5f5e_5d5c_5b5a_5958);
    FeedAt6(m);
    RoundLeads(MACHINE, m, ScheduleOf(6), f, g, Straighten(DiagonalsFullAt5()),
               ColumnsFullAt6(), DiagonalsFullAt6());
  }

  function ColumnsFullAt7(): State {
    State(Quad(0x2f1b_a89b_cfd0_1f0b, 0x8436_7def_a476_d54a, 0x80cf_ec64_1394_0cf6, 0x486b_ad9c_607f_359a),
          Quad(0x40f6_33e2_70d0_a8db, 0xba96_37bb_3a5d_05f2, 0x9857_cb9f_7b28_5885, 0xa526_c01b_ea9b_9ccd),
          Quad(0xb5e5_61d3_0843_3ba9, 0x02d5_8a0a_4bd4_e98b, 0x4436_2b7d_e7e4_7d40, 0x991b_e76a_cbc7_d5c9),
          Quad(0x0615_04be_30d3_1e85, 0xfc72_02e6_2e61_e4ec, 0x549e_4b1d_8174_fd74, 0x646f_2d4e_e7c8_233b))
  }

  function DiagonalsFullAt7(): State {
    State(Quad(0x4e82_1233_7c08_7683, 0x877f_962b_401f_7394, 0x6d24_34b9_e3a0_9e94, 0x564e_9c1d_7f2d_0087),
          Quad(0x2cee_433b_8345_9545, 0xe5a0_397b_442d_e915, 0xb0ad_fe13_8a15_9ccd, 0x03b0_74b1_7d7f_0864),
          Quad(0x5f66_1019_ec05_2d63, 0xec81_0afe_c775_7b88, 0x58d2_b597_5d51_279a, 0x4485_cc1a_ed01_b0be),
          Quad(0xccd4_6756_018f_b046, 0x51fb_ec75_5804_b265, 0x7ce1_8c05_69e3_0325, 0xc0ed_ef4f_b640_39f5))
  }

  lemma RoundFullAt7(m: Words16)
    requires IsFull(m)
    ensures Straighten(DiagonalsFullAt7())
         in Successors(RoundFor(MACHINE, m), ScheduleOf(7), Straighten(DiagonalsFullAt6()))
  {
    var f := Feed(0x6f6e_6d6c_6b6a_6968, 0x5f5e_5d5c_5b5a_5958, 0x3f3e_3d3c_3b3a_3938, 0x7776_7574_7372_7170,
                  0x6766_6564_6362_6160, 0x0f0e_0d0c_0b0a_0908, 0x1f1e_1d1c_1b1a_1918, 0x4f4e_4d4c_4b4a_4948);
    var g := Feed(0x2f2e_2d2c_2b2a_2928, 0x0706_0504_0302_0100, 0x7f7e_7d7c_7b7a_7978, 0x2726_2524_2322_2120,
                  0x4746_4544_4342_4140, 0x3736_3534_3332_3130, 0x1716_1514_1312_1110, 0x5756_5554_5352_5150);
    FeedAt7(m);
    RoundLeads(MACHINE, m, ScheduleOf(7), f, g, Straighten(DiagonalsFullAt6()),
               ColumnsFullAt7(), DiagonalsFullAt7());
  }

  function ColumnsFullAt8(): State {
    State(Quad(0xa910_14dc_6b9e_34f9, 0x2eeb_71cd_3e24_9f92, 0x46a8_db64_77f6_2ea0, 0x7395_d350_46a0_bf9a),
          Quad(0xd729_0f07_49e2_9b2a, 0x52aa_2246_b1e8_f7e0, 0x72a3_63fc_9f34_ac69, 0x19eb_0cff_c5f0_2683),
          Quad(0xc784_0b5c_f85b_2cf4, 0x287b_84cf_e820_4250, 0x103c_8528_a5a3_8524, 0x654a_fa49_5d79_9cd2),
          Quad(0x6695_572c_686a_11f5, 0x00f5_3527_8562_4aec, 0x5e89_001c_9b91_8691, 0xfab0_d5bf_7b65_fe7f))
  }

  function DiagonalsFullAt8(): State {
    State(Quad(0x5570_6df4_f6d2_c8d7, 0xad02_3064_7c62_2820, 0x8db8_a46b_5ce6_3d9e, 0x81ef_aefc_1db2_6f42),
          Quad(0xe66c_3292_0624_db6a, 0xf795_8649_52fe_502c, 0x43d0_3736_8402_7346, 0x0979_3da1_cbea_1aa2),
          Quad(0xfee8_5647_c19e_99cb, 0xd97f_ac46_4674_ef84, 0x6c85_35b0_368e_8001, 0xd8a4_b3df_f02c_0ff2),
          Quad(0x1215_4ab3_fc7e_fb15, 0x8084_8f6c_55f5_928d, 0x364d_b88f_fd89_0650, 0x1f11_b68d_d4b6_75e3))
  }

  lemma RoundFullAt8(m: Words16)
    requires IsFull(m)
    ensures Straighten(DiagonalsFullAt8())
         in Successors(RoundFor(MACHINE, m), ScheduleOf(8), Straighten(DiagonalsFullAt7()))
  {
    var f := Feed(0x3736_3534_3332_3130, 0x7f7e_7d7c_7b7a_7978, 0x7776_7574_7372_7170, 0x4f4e_4d4c_4b4a_4948,
                  0x5f5e_5d5c_5b5a_5958, 0x1f1e_1d1c_1b1a_1918, 0x0706_0504_0302_0100, 0x4746_4544_4342_4140);
    var g := Feed(0x6766_6564_6362_6160, 0x1716_1514_1312_1110, 0x6f6e_6d6c_6b6a_6968, 0x3f3e_3d3c_3b3a_3938,
                  0x0f0e_0d0c_0b0a_0908, 0x2726_2524_2322_2120, 0x5756_5554_5352_5150, 0x2f2e_2d2c_2b2a_2928);
    FeedAt8(m);
    RoundLeads(MACHINE, m, ScheduleOf(8), f, g, Straighten(DiagonalsFullAt7()),
               ColumnsFullAt8(), DiagonalsFullAt8());
  }

  function ColumnsFullAt9(): State {
    State(Quad(0x79df_0022_a491_67d3, 0xa882_cb5d_c323_8b6f, 0xe13c_fdf6_10f5_6fb8, 0x08c7_122f_b634_80a3),
          Quad(0xfce4_e320_1a1f_096d, 0x0b63_b211_2d05_338f, 0x7ebb_ccc9_a7b1_3a44, 0x1288_c901_a818_180f),
          Quad(0xdaaf_41e0_0f86_d334, 0x9065_9fb6_257a_d9b9, 0xa58e_3d05_9ec0_1209, 0x7c74_41ce_172c_252b),
          Quad(0x65c2_f57f_d9a0_7c82, 0xa2d3_9bd4_1127_3d2a, 0x6a98_09a7_68eb_c12c, 0xd678_358d_699c_a2ec))
  }

  function DiagonalsFullAt9(): State {
    State(Quad(0xe03f_56ce_20ac_9b8e, 0x6fa0_fc5c_5466_660e, 0x4bcf_b7ef_5272_1e5b, 0x81b3_c4b2_e0f8_f215),
          Quad(0x8569_c5ce_0b80_60f6, 0xf67d_e033_56cd_4000, 0x4a64_702e_a64f_6318, 0xa2fb_b9b9_6903_dfdf),
          Quad(0x3ea6_040c_7ddf_4664, 0xa0b8_fe64_144e_581d, 0xeac2_dce5_d493_9780, 0x75b5_ad76_3575_f3f7),
          Quad(0xd6dc_da83_481a_d8c3, 0x0e4e_985e_0911_2b90, 0x5505_eb1a_3862_f3a2, 0xb747_c9de_8ef1_49da))
  }

  lemma RoundFullAt9(m: Words16)
    requires IsFull(m)
    ensures Straighten(DiagonalsFullAt9())
         in Successors(RoundFor(MACHINE, m), ScheduleOf(9), Straighten(DiagonalsFullAt8()))
  {
    var f := Feed(0x5756_5554_5352_5150, 0x1716_1514_1312_1110, 0x4746_4544_4342_4140, 0x2726_2524_2322_2120,
                  0x3f3e_3d3c_3b3a_3938, 0x3736_3534_3332_3130, 0x0f0e_0d0c_0b0a_0908, 0x2f2e_2d2c_2b2a_2928);
    var g := Feed(0x7f7e_7d7c_7b7a_7978, 0x5f5e_5d5c_5b5a_5958, 0x4f4e_4d4c_4b4a_4948, 0x7776_7574_7372_7170,
                  0x1f1e_1d1c_1b1a_1918, 0x6766_6564_6362_6160, 0x6f6e_6d6c_6b6a_6968, 0x0706_0504_0302_0100);
    FeedAt9(m);
    RoundLeads(MACHINE, m, ScheduleOf(9), f, g, Straighten(DiagonalsFullAt8()),
               ColumnsFullAt9(), DiagonalsFullAt9());
  }

  function ColumnsFullAt10(): State {
    State(Quad(0xef70_9a7a_6836_ca48, 0xa51c_0c9b_13b7_ba8a, 0xb840_9f73_b9b7_2467, 0x87c1_aacc_8dbb_3f5e),
          Quad(0xc94a_d94d_c1fd_9311, 0x37ce_826d_2e9b_0f6e, 0x85ec_a5c5_a4a7_2652, 0xe959_8ec7_f2ae_b868),
          Quad(0x3e17_4ec3_953f_4e17, 0xc24d_ea8b_58b6_4043, 0x53b9_ed76_de1d_5d4a, 0x8eaa_4728_a09d_7e32),
          Quad(0x6f80_2771_3bd3_f309, 0xe43b_ba1d_fb7a_2b58, 0xf368_0117_8d43_426d, 0x39a0_00e3_b774_14ac))
  }

  function DiagonalsFullAt10(): State {
    State(Quad(0x97a3_2c6e_fcd8_2059, 0xb4c9_14c5_001d_a029, 0x03ab_f694_5777_6c0f, 0x4291_fac3_2234_abfd),
          Quad(0x0a03_839f_3258_18a6, 0x8bb6_178b_c441_aedc, 0x826d_06d0_8ad7_4dc4, 0xab47_e9be_9865_5776),
          Quad(0xdb57_8d0d_2d3e_4b18, 0x117e_dd49_8ff4_a84d, 0x6a90_dffe_0a42_52c7, 0xab9a_dde2_efaa_4dde),
          Quad(0xe33f_974a_8a83_062f, 0x0ef3_f03d_a3a3_e102, 0xd0d7_8853_9ddb_9d35, 0xe887_815c_f67b_883b))
  }

  lemma RoundFullAt10(m: Words16)
    requires IsFull(m)
    ensures Straighten(DiagonalsFullAt10())
         in Successors(RoundFor(MACHINE, m), ScheduleOf(0), Straighten(DiagonalsFullAt9()))
  {
    var f := Feed(0x0706_0504_0302_0100, 0x0f0e_0d0c_0b0a_0908, 0x1716_1514_1312_1110, 0x1f1e_1d1c_1b1a_1918,
                  0x2726_2524_2322_2120, 0x2f2e_2d2c_2b2a_2928, 0x3736_3534_3332_3130, 0x3f3e_3d3c_3b3a_3938);
    var g := Feed(0x4746_4544_4342_4140, 0x4f4e_4d4c_4b4a_4948, 0x5756_5554_5352_5150, 0x5f5e_5d5c_5b5a_5958,
                  0x6766_6564_6362_6160, 0x6f6e_6d6c_6b6a_6968, 0x7776_7574_7372_7170, 0x7f7e_7d7c_7b7a_7978);
    FeedAt0(m);
    RoundLeads(MACHINE, m, ScheduleOf(0), f, g, Straighten(DiagonalsFullAt9()),
               ColumnsFullAt10(), DiagonalsFullAt10());
  }

  function ColumnsFullAt11(): State {
    State(Quad(0xa493_4c6e_5736_4a37, 0x11d6_a059_8d2a_6dfc, 0x27c4_34d4_2960_b0e2, 0x31a8_2f18_69d3_e27c),
          Quad(0x8b96_b90c_74e2_5d1b, 0x2db7_f01f_8b12_f38b, 0xc886_4e30_1981_3829, 0x3d71_31ab_2d3d_3a8a),
          Quad(0x484c_83a7_a41a_cd26, 0x331e_a1ba_2a45_8ff9, 0x8bfd_4498_fef4_d78e, 0xbd9f_82fd_48a0_fac6),
          Quad(0xfc31_e16f_f633_e952, 0xf637_a9d4_6429_2e56, 0x1bd5_1ed1_0f0b_3715, 0xf191_5be7_5d76_d08e))
  }

  function DiagonalsFullAt11(): State {
    State(Quad(0xf6d9_360f_e5e0_6aae, 0x35d5_4d90_4a44_3b60, 0xb4f3_21d9_b008_df34, 0x78d0_46fc_a04b_f528),
          Quad(0x37f9_93b3_86c6_7f4d, 0x588e_73d2_e6e1_352b, 0xf76f_273d_a2fa_1abc, 0x0f9f_fc03_9fdb_72d5),
          Quad(0xba62_cb94_eee3_74b9, 0x36e1_28e8_7f68_b8d1, 0x4632_97f4_6fbe_bac5, 0xcfca_f4c1_a5ca_4e70),
          Quad(0x5c5e_99d1_420b_52a5, 0x5aaa_9dd0_0bc9_3f88, 0x2d5c_8357_7d8c_26d3, 0x7ead_ba76_e361_c2a2))
  }

  lemma RoundFullAt11(m: Words16)
    requires IsFull(m)
    ensures Straighten(DiagonalsFullAt11())
         in Successors(RoundFor(MACHINE, m), ScheduleOf(1), Straighten(DiagonalsFullAt10()))
  {
    var f := Feed(0x7776_7574_7372_7170, 0x5756_5554_5352_5150, 0x2726_2524_2322_2120, 0x4746_4544_4342_4140,
                  0x4f4e_4d4c_4b4a_4948, 0x7f7e_7d7c_7b7a_7978, 0x6f6e_6d6c_6b6a_6968, 0x3736_3534_3332_3130);
    var g := Feed(0x0f0e_0d0c_0b0a_0908, 0x6766_6564_6362_6160, 0x0706_0504_0302_0100, 0x1716_1514_1312_1110,
                  0x5f5e_5d5c_5b5a_5958, 0x3f3e_3d3c_3b3a_3938, 0x2f2e_2d2c_2b2a_2928, 0x1f1e_1d1c_1b1a_1918);
    FeedAt1(m);
    RoundLeads(MACHINE, m, ScheduleOf(1), f, g, Straighten(DiagonalsFullAt10()),
               ColumnsFullAt11(), DiagonalsFullAt11());
  }

  function TraceFull(): seq<State> {
    [StartFull(),
     Straighten(DiagonalsFullAt0()),
     Straighten(DiagonalsFullAt1()),
     Straighten(DiagonalsFullAt2()),
     Straighten(DiagonalsFullAt3()),
     Straighten(DiagonalsFullAt4()),
     Straighten(DiagonalsFullAt5()),
     Straighten(DiagonalsFullAt6()),
     Straighten(DiagonalsFullAt7()),
     Straighten(DiagonalsFullAt8()),
     Straighten(DiagonalsFullAt9()),
     Straighten(DiagonalsFullAt10()),
     Straighten(DiagonalsFullAt11())]
  }

  lemma LeadsFull(m: Words16)
    requires IsFull(m)
    ensures Leads(RoundFor(MACHINE, m), RfcSchedules(), TraceFull())
  {
    RfcTwelve();
    RoundFullAt0(m);
    RoundFullAt1(m);
    RoundFullAt2(m);
    RoundFullAt3(m);
    RoundFullAt4(m);
    RoundFullAt5(m);
    RoundFullAt6(m);
    RoundFullAt7(m);
    RoundFullAt8(m);
    RoundFullAt9(m);
    RoundFullAt10(m);
    RoundFullAt11(m);
    LeadsTwelve(RoundFor(MACHINE, m), RfcSchedules(), TraceFull());
  }

  lemma BeginsFull()
    ensures Shows(Initial(MACHINE, H0(64), 128, 0, true), StartFull())
  {
    forall i | 0 <= i < 16 { InitialWords(MACHINE, H0(64), 128, 0, i); }
    forall i | 0 <= i < 8 { H0Words(64, i); }
  }

  function FinalFull(): Words8 {
    [0xdae2_479c_78e3_1923, 0xa1c2_be61_7f80_fea5, 0x32ff_193f_a07f_53a6, 0x0e7e_4bd6_bfec_7ee8,
     0x043b_33ac_39f4_cf8c, 0x611a_d1dd_c4b0_190f, 0x39a0_100f_fec1_4ae2, 0x15d1_a30d_cc5d_6c80]
  }

  lemma EndsFull(v: Words16)
    requires Shows(v, Straighten(DiagonalsFullAt11()))
    ensures Finish(MACHINE, H0(64), v) == FinalFull()
  {
    forall i | 0 <= i < 8 { H0Words(64, i); }
    var h := H0(64);
    assert h[0] ^ (v[0] ^ v[8]) == FinalFull()[0];
    assert h[1] ^ (v[1] ^ v[9]) == FinalFull()[1];
    assert h[2] ^ (v[2] ^ v[10]) == FinalFull()[2];
    assert h[3] ^ (v[3] ^ v[11]) == FinalFull()[3];
    assert h[4] ^ (v[4] ^ v[12]) == FinalFull()[4];
    assert h[5] ^ (v[5] ^ v[13]) == FinalFull()[5];
    assert h[6] ^ (v[6] ^ v[14]) == FinalFull()[6];
    assert h[7] ^ (v[7] ^ v[15]) == FinalFull()[7];
  }

  /** The digest as published. */
  function DigestFull(): seq<bv8> {
    [0x23, 0x19, 0xe3, 0x78, 0x9c, 0x47, 0xe2, 0xda] + [0xa5, 0xfe, 0x80, 0x7f, 0x61, 0xbe, 0xc2, 0xa1]
    + [0xa6, 0x53, 0x7f, 0xa0, 0x3f, 0x19, 0xff, 0x32] + [0xe8, 0x7e, 0xec, 0xbf, 0xd6, 0x4b, 0x7e, 0x0e]
    + [0x8c, 0xcf, 0xf4, 0x39, 0xac, 0x33, 0x3b, 0x04] + [0x0f, 0x19, 0xb0, 0xc4, 0xdd, 0xd1, 0x1a, 0x61]
    + [0xe2, 0x4a, 0xc1, 0xfe, 0x0f, 0x10, 0xa0, 0x39] + [0x80, 0x6c, 0x5d, 0xcc, 0x0d, 0xa3, 0xd1, 0x15]
  }

  lemma BytesFull()
    ensures Bytes(FinalFull()[..8]) == DigestFull()
  {
    var h := FinalFull();
    assert LeBytes(h[0]) == [0x23, 0x19, 0xe3, 0x78, 0x9c, 0x47, 0xe2, 0xda];
    assert LeBytes(h[1]) == [0xa5, 0xfe, 0x80, 0x7f, 0x61, 0xbe, 0xc2, 0xa1];
    assert LeBytes(h[2]) == [0xa6, 0x53, 0x7f, 0xa0, 0x3f, 0x19, 0xff, 0x32];
    assert LeBytes(h[3]) == [0xe8, 0x7e, 0xec, 0xbf, 0xd6, 0x4b, 0x7e, 0x0e];
    assert LeBytes(h[4]) == [0x8c, 0xcf, 0xf4, 0x39, 0xac, 0x33, 0x3b, 0x04];
    assert LeBytes(h[5]) == [0x0f, 0x19, 0xb0, 0xc4, 0xdd, 0xd1, 0x1a, 0x61];
    assert LeBytes(h[6]) == [0xe2, 0x4a, 0xc1, 0xfe, 0x0f, 0x10, 0xa0, 0x39];
    assert LeBytes(h[7]) == [0x80, 0x6c, 0x5d, 0xcc, 0x0d, 0xa3, 0xd1, 0x15];
    BytesOfEight(h);
    assert h[..8] == h;
  }

  lemma WorkingFull(m: Words16, v: Words16)
    requires IsFull(m) && Shows(v, StartFull())
    ensures Shows(Rounds(MACHINE, v, m, RfcSchedules()), Straighten(DiagonalsFullAt11()))
  {
    LeadsFull(m);
    FoldLeads(RoundFor(MACHINE, m), v, RfcSchedules(), TraceFull());
    RoundsFold(MACHINE, v, m, RfcSchedules());
  }

  lemma ClosingFull(w: Words16)
    requires Shows(w, Straighten(DiagonalsFullAt11()))
    ensures Bytes(Finish(MACHINE, H0(64), w)) == DigestFull()
  {
    EndsFull(w);
    assert FinalFull()[..8] == FinalFull();
    BytesFull();
  }

  /** The 64-byte digest of the bytes 0 to 127, as BLAKE2's own known-answer tests give it. */
  lemma Full64()
    ensures Digest(F, 64, FullBlock()) == DigestFull()
  {
    var m, v := Message(Pad(FullBlock())), Initial(MACHINE, H0(64), 128, 0, true);
    var w := Rounds(MACHINE, v, m, RfcSchedules());
    FullCounter();
    FullMessage();
    OneBlock(64, FullBlock(), 128, w);
    BeginsFull();
    WorkingFull(m, v);
    ClosingFull(w);
  }
}
