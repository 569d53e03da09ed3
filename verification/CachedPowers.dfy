/** The table of powers of ten and the choice among them (utils/rapidjson/internal/diyfp.h). */
module CachedPowers {
  import opened NumberTheory
  import opened Limbs
  import opened Diyfp

  /** 10^-348, 10^-340, ..., 10^340. */
  function Table(index: nat): DiyFp
    requires index < 87
  {
    match index
    case 0 => DiyFp(0xfa8fd5a0_081c0288, -1220)
    case 1 => DiyFp(0xbaaee17f_a23ebf76, -1193)
    case 2 => DiyFp(0x8b16fb20_3055ac76, -1166)
    case 3 => DiyFp(0xcf42894a_5dce35ea, -1140)
    case 4 => DiyFp(0x9a6bb0aa_55653b2d, -1113)
    case 5 => DiyFp(0xe61acf03_3d1a45df, -1087)
    case 6 => DiyFp(0xab70fe17_c79ac6ca, -1060)
    case 7 => DiyFp(0xff77b1fc_bebcdc4f, -1034)
    case 8 => DiyFp(0xbe5691ef_416bd60c, -1007)
    case 9 => DiyFp(0x8dd01fad_907ffc3c, -980)
    case 10 => DiyFp(0xd3515c28_31559a83, -954)
    case 11 => DiyFp(0x9d71ac8f_ada6c9b5, -927)
    case 12 => DiyFp(0xea9c2277_23ee8bcb, -901)
    case 13 => DiyFp(0xaecc4991_4078536d, -874)
    case 14 => DiyFp(0x823c1279_5db6ce57, -847)
    case 15 => DiyFp(0xc2109436_4dfb5637, -821)
    case 16 => DiyFp(0x9096ea6f_3848984f, -794)
    case 17 => DiyFp(0xd77485cb_25823ac7, -768)
    case 18 => DiyFp(0xa086cfcd_97bf97f4, -741)
    case 19 => DiyFp(0xef340a98_172aace5, -715)
    case 20 => DiyFp(0xb23867fb_2a35b28e, -688)
    case 21 => DiyFp(0x84c8d4df_d2c63f3b, -661)
    case 22 => DiyFp(0xc5dd4427_1ad3cdba, -635)
    case 23 => DiyFp(0x936b9fce_bb25c996, -608)
    case 24 => DiyFp(0xdbac6c24_7d62a584, -582)
    case 25 => DiyFp(0xa3ab6658_0d5fdaf6, -555)
    case 26 => DiyFp(0xf3e2f893_dec3f126, -529)
    case 27 => DiyFp(0xb5b5ada8_aaff80b8, -502)
    case 28 => DiyFp(0x87625f05_6c7c4a8b, -475)
    case 29 => DiyFp(0xc9bcff60_34c13053, -449)
    case 30 => DiyFp(0x964e858c_91ba2655, -422)
    case 31 => DiyFp(0xdff97724_70297ebd, -396)
    case 32 => DiyFp(0xa6dfbd9f_b8e5b88f, -369)
    case 33 => DiyFp(0xf8a95fcf_88747d94, -343)
    case 34 => DiyFp(0xb9447093_8fa89bcf, -316)
    case 35 => DiyFp(0x8a08f0f8_bf0f156b, -289)
    case 36 => DiyFp(0xcdb02555_653131b6, -263)
    case 37 => DiyFp(0x993fe2c6_d07b7fac, -236)
    case 38 => DiyFp(0xe45c10c4_2a2b3b06, -210)
    case 39 => DiyFp(0xaa242499_697392d3, -183)
    case 40 => DiyFp(0xfd87b5f2_8300ca0e, -157)
    case 41 => DiyFp(0xbce50864_92111aeb, -130)
    case 42 => DiyFp(0x8cbccc09_6f5088cc, -103)
    case 43 => DiyFp(0xd1b71758_e219652c, -77)
    case 44 => DiyFp(0x9c400000_00000000, -50)
    case 45 => DiyFp(0xe8d4a510_00000000, -24)
    case 46 => DiyFp(0xad78ebc5_ac620000, 3)
    case 47 => DiyFp(0x813f3978_f8940984, 30)
    case 48 => DiyFp(0xc097ce7b_c90715b3, 56)
    case 49 => DiyFp(0x8f7e32ce_7bea5c70, 83)
    case 50 => DiyFp(0xd5d238a4_abe98068, 109)
    case 51 => DiyFp(0x9f4f2726_179a2245, 136)
    case 52 => DiyFp(0xed63a231_d4c4fb27, 162)
    case 53 => DiyFp(0xb0de6538_8cc8ada8, 189)
    case 54 => DiyFp(0x83c7088e_1aab65db, 216)
    case 55 => DiyFp(0xc45d1df9_42711d9a, 242)
    case 56 => DiyFp(0x924d692c_a61be758, 269)
    case 57 => DiyFp(0xda01ee64_1a708dea, 295)
    case 58 => DiyFp(0xa26da399_9aef774a, 322)
    case 59 => DiyFp(0xf209787b_b47d6b85, 348)
    case 60 => DiyFp(0xb454e4a1_79dd1877, 375)
    case 61 => DiyFp(0x865b8692_5b9bc5c2, 402)
    case 62 => DiyFp(0xc83553c5_c8965d3d, 428)
    case 63 => DiyFp(0x952ab45c_fa97a0b3, 455)
    case 64 => DiyFp(0xde469fbd_99a05fe3, 481)
    case 65 => DiyFp(0xa59bc234_db398c25, 508)
    case 66 => DiyFp(0xf6c69a72_a3989f5c, 534)
    case 67 => DiyFp(0xb7dcbf53_54e9bece, 561)
    case 68 => DiyFp(0x88fcf317_f22241e2, 588)
    case 69 => DiyFp(0xcc20ce9b_d35c78a5, 614)
    case 70 => DiyFp(0x98165af3_7b2153df, 641)
    case 71 => DiyFp(0xe2a0b5dc_971f303a, 667)
    case 72 => DiyFp(0xa8d9d153_5ce3b396, 694)
    case 73 => DiyFp(0xfb9b7cd9_a4a7443c, 720)
    case 74 => DiyFp(0xbb764c4c_a7a44410, 747)
    case 75 => DiyFp(0x8bab8eef_b6409c1a, 774)
    case 76 => DiyFp(0xd01fef10_a657842c, 800)
    case 77 => DiyFp(0x9b10a4e5_e9913129, 827)
    case 78 => DiyFp(0xe7109bfb_a19c0c9d, 853)
    case 79 => DiyFp(0xac2820d9_623bf429, 880)
    case 80 => DiyFp(0x80444b5e_7aa7cf85, 907)
    case 81 => DiyFp(0xbf21e440_03acdd2d, 933)
    case 82 => DiyFp(0x8e679c2f_5e44ff8f, 960)
    case 83 => DiyFp(0xd433179d_9c8cb841, 986)
    case 84 => DiyFp(0x9e19db92_b4e31ba9, 1013)
    case 85 => DiyFp(0xeb96bf6e_badf77d9, 1039)
    case _ => DiyFp(0xaf87023b_9bf0ee6b, 1066)
  }

  function DecimalExponent(index: nat): int
  {
    8 * index - 348
  }

  // ----- accuracy -----------------------------------------------------------

  function PowerUp(b: nat, n: int): int
  {
    if n > 0 then Pow(b, n) else 1
  }

  /** The power of ten at an index, divided by 2^e with e the exponent stored, is num / den. */
  ghost predicate Fraction(index: nat, num: nat, den: nat)
    requires index < 87
  {
    var k, e := DecimalExponent(index), Table(index).e;
    den > 0 && num == PowerUp(10, k) * PowerUp(2, -e) && den == PowerUp(10, -k) * PowerUp(2, e)
  }

  /** The significand is normalised and within half a unit of the exact one. */
  predicate HalfUnit(f: Limb, num: nat, den: nat)
  {
    TOP_BIT <= f && 2 * num - den <= 2 * f * den <= 2 * num + den
  }

  const LOG2_OF_10 := 3_3219280948873623 // times 10^16
  const TEN_16 := 1_0000_0000_0000_0000

  /** Where the exponent lies beside the binary logarithm; and a bound on the significand when
      the logarithm is at most 0.6 above the exponent. */
  predicate Placed(f: Limb, e: int, k: int)
  {
    && (e + 63) * TEN_16 + TEN_16 / 1000 <= k * LOG2_OF_10 <= (e + 64) * TEN_16 - TEN_16 / 1000
    && (5 * (k * LOG2_OF_10 - (e + 63) * TEN_16) <= 3 * TEN_16 ==> f < 1000000000 * 0x4_0000_0000)
  }

  ghost predicate Rounded(index: nat)
    requires index < 87
  {
    && Placed(Table(index).f, Table(index).e, DecimalExponent(index))
    && exists num: nat, den: nat :: Fraction(index, num, den) && HalfUnit(Table(index).f, num, den)
  }

  lemma ShiftPowers()
    ensures Pow(10, 8) == 1_0000_0000 && Pow(2, 26) == 0x400_0000 && Pow(2, 27) == 0x800_0000
  {
    assert Pow(2, 2) == 4 && Pow(2, 3) == 8 && Pow(10, 4) == 10000;
    hide Pow;
    PowAdd(10, 4, 4);
    PowAdd(2, 3, 3);
    PowAdd(2, 6, 6);
    PowAdd(2, 12, 12);
    PowAdd(2, 2, 24);
    PowAdd(2, 3, 24);
  }

  function Shift(n: int): nat
  {
    if n == 26 then 0x400_0000 else 0x800_0000
  }

  lemma FirstPowers()
    ensures Pow(10, 4) == 10000 && Pow(10, 12) == 10000_00000000 && Pow(10, 20) == 10000_00000000_00000000
    ensures Pow(2, 3) == 8 && Pow(2, 24) == 0x100_0000 && Pow(2, 50) == 0x4_0000_0000_0000
    ensures Pow(2, 77) == 0x2000_0000_0000_0000_0000
  {
    assert Pow(2, 3) == 8 && Pow(10, 4) == 10000;
    hide Pow;
    ShiftPowers();
    PowAdd(10, 4, 8);
    PowAdd(10, 8, 12);
    PowAdd(2, 3, 3);
    PowAdd(2, 6, 6);
    PowAdd(2, 12, 12);
    PowAdd(2, 24, 26);
    PowAdd(2, 27, 50);
  }

  /** The four entries around 10^8, which the others are derived from. */
  lemma FirstRows()
    ensures Rounded(43) && Fraction(43, NUM_43, DEN_43) && Rounded(44) && Rounded(45)
    ensures Rounded(46) && Fraction(46, NUM_46, DEN_46)
  {
    FirstPowers();
    hide Pow;
    assert Fraction(43, NUM_43, DEN_43) && HalfUnit(Table(43).f, NUM_43, DEN_43);
    assert Fraction(44, 10000 * 0x4_0000_0000_0000, 1) && HalfUnit(Table(44).f, 10000 * 0x4_0000_0000_0000, 1);
    assert Fraction(45, 10000_00000000 * 0x100_0000, 1) && HalfUnit(Table(45).f, 10000_00000000 * 0x100_0000, 1);
    assert Fraction(46, NUM_46, DEN_46) && HalfUnit(Table(46).f, NUM_46, DEN_46);
  }

  /** From an entry to the one below, both below 10^0. */
  lemma Down(index: nat, num: nat, den: nat) returns (n: nat, d: nat)
    requires index <= 42 && Fraction(index + 1, num, den)
    requires Table(index).e < Table(index + 1).e < 0 && 26 <= Table(index + 1).e - Table(index).e <= 27
    requires HalfUnit(Table(index).f, num * Shift(Table(index + 1).e - Table(index).e), den * 1_0000_0000)
    requires Placed(Table(index).f, Table(index).e, DecimalExponent(index))
    ensures n == num * Shift(Table(index + 1).e - Table(index).e) && d == den * 1_0000_0000
    ensures Rounded(index) && Fraction(index, n, d)
  {
    hide Table, HalfUnit, Placed, Pow;
    var e, gap, k := Table(index + 1).e, Table(index + 1).e - Table(index).e, -DecimalExponent(index + 1);
    n, d := num * Shift(gap), den * 1_0000_0000;
    ShiftPowers();
    PowAdd(2, -e, gap);
    PowAdd(10, k, 8);
  }

  /** From an entry to the one above, both with an exponent above zero. */
  lemma Up(index: nat, num: nat, den: nat) returns (n: nat, d: nat)
    requires 47 <= index < 87 && Fraction(index - 1, num, den)
    requires 0 < Table(index - 1).e < Table(index).e && 26 <= Table(index).e - Table(index - 1).e <= 27
    requires HalfUnit(Table(index).f, num * 1_0000_0000, den * Shift(Table(index).e - Table(index - 1).e))
    requires Placed(Table(index).f, Table(index).e, DecimalExponent(index))
    ensures n == num * 1_0000_0000 && d == den * Shift(Table(index).e - Table(index - 1).e)
    ensures Rounded(index) && Fraction(index, n, d)
  {
    hide Table, HalfUnit, Placed, Pow;
    var e, gap, k := Table(index - 1).e, Table(index).e - Table(index - 1).e, DecimalExponent(index - 1);
    n, d := num * 1_0000_0000, den * Shift(gap);
    ShiftPowers();
    PowAdd(2, e, gap);
    PowAdd(10, k, 8);
  }

  // The fractions of some entries, each worked out from the one before.
  const NUM_43 := 0x2000_0000_0000_0000_0000
  const DEN_43 := 10000
  const NUM_36 := NUM_43 * 0x40000000000000000000000000000000000000000000000
  const DEN_36 := DEN_43 * 1_00000000_00000000_00000000_00000000_00000000_00000000_00000000
  const NUM_29 := NUM_36 * 0x40000000000000000000000000000000000000000000000
  const DEN_29 := DEN_36 * 1_00000000_00000000_00000000_00000000_00000000_00000000_00000000
  const NUM_22 := NUM_29 * 0x40000000000000000000000000000000000000000000000
  const DEN_22 := DEN_29 * 1_00000000_00000000_00000000_00000000_00000000_00000000_00000000
  const NUM_15 := NUM_22 * 0x40000000000000000000000000000000000000000000000
  const DEN_15 := DEN_22 * 1_00000000_00000000_00000000_00000000_00000000_00000000_00000000
  const NUM_10 := NUM_15 * 0x2000000000000000000000000000000000
  const DEN_10 := DEN_15 * 1_00000000_00000000_00000000_00000000_00000000
  const NUM_5 := NUM_10 * 0x2000000000000000000000000000000000
  const DEN_5 := DEN_10 * 1_00000000_00000000_00000000_00000000_00000000
  const NUM_46 := 10000_00000000_00000000
  const DEN_46 := 8
  const NUM_50 := NUM_46 * 1_00000000_00000000_00000000_00000000
  const DEN_50 := DEN_46 * 0x400000000000000000000000000
  const NUM_54 := NUM_50 * 1_00000000_00000000_00000000_00000000
  const DEN_54 := DEN_50 * 0x800000000000000000000000000
  const NUM_58 := NUM_54 * 1_00000000_00000000_00000000_00000000
  const DEN_58 := DEN_54 * 0x400000000000000000000000000
  const NUM_62 := NUM_58 * 1_00000000_00000000_00000000_00000000
  const DEN_62 := DEN_58 * 0x400000000000000000000000000
  const NUM_66 := NUM_62 * 1_00000000_00000000_00000000_00000000
  const DEN_66 := DEN_62 * 0x400000000000000000000000000
  const NUM_70 := NUM_66 * 1_00000000_00000000_00000000_00000000
  const DEN_70 := DEN_66 * 0x800000000000000000000000000
  const NUM_74 := NUM_70 * 1_00000000_00000000_00000000_00000000
  const DEN_74 := DEN_70 * 0x400000000000000000000000000
  const NUM_78 := NUM_74 * 1_00000000_00000000_00000000_00000000
  const DEN_78 := DEN_74 * 0x400000000000000000000000000
  const NUM_82 := NUM_78 * 1_00000000_00000000_00000000_00000000
  const DEN_82 := DEN_78 * 0x800000000000000000000000000

  lemma Rows36To42()
    requires Fraction(43, NUM_43, DEN_43)
    ensures forall index :: 36 <= index <= 42 ==> Rounded(index)
    ensures Fraction(36, NUM_36, DEN_36)
  {
    hide Rounded, Fraction;
    var num, den := Down(42, NUM_43, DEN_43);
    num, den := Down(41, num, den);
    num, den := Down(40, num, den);
    num, den := Down(39, num, den);
    num, den := Down(38, num, den);
    num, den := Down(37, num, den);
    num, den := Down(36, num, den);
  }

  lemma Rows29To35()
    requires Fraction(36, NUM_36, DEN_36)
    ensures forall index :: 29 <= index <= 35 ==> Rounded(index)
    ensures Fraction(29, NUM_29, DEN_29)
  {
    hide Rounded, Fraction;
    var num, den := Down(35, NUM_36, DEN_36);
    num, den := Down(34, num, den);
    num, den := Down(33, num, den);
    num, den := Down(32, num, den);
    num, den := Down(31, num, den);
    num, den := Down(30, num, den);
    num, den := Down(29, num, den);
  }

  lemma Rows22To28()
    requires Fraction(29, NUM_29, DEN_29)
    ensures forall index :: 22 <= index <= 28 ==> Rounded(index)
    ensures Fraction(22, NUM_22, DEN_22)
  {
    hide Rounded, Fraction;
    var num, den := Down(28, NUM_29, DEN_29);
    num, den := Down(27, num, den);
    num, den := Down(26, num, den);
    num, den := Down(25, num, den);
    num, den := Down(24, num, den);
    num, den := Down(23, num, den);
    num, den := Down(22, num, den);
  }

  lemma Rows15To21()
    requires Fraction(22, NUM_22, DEN_22)
    ensures forall index :: 15 <= index <= 21 ==> Rounded(index)
    ensures Fraction(15, NUM_15, DEN_15)
  {
    hide Rounded, Fraction;
    var num, den := Down(21, NUM_22, DEN_22);
    num, den := Down(20, num, den);
    num, den := Down(19, num, den);
    num, den := Down(18, num, den);
    num, den := Down(17, num, den);
    num, den := Down(16, num, den);
    num, den := Down(15, num, den);
  }

  lemma Rows10To14()
    requires Fraction(15, NUM_15, DEN_15)
    ensures forall index :: 10 <= index <= 14 ==> Rounded(index)
    ensures Fraction(10, NUM_10, DEN_10)
  {
    hide Rounded, Fraction;
    var num, den := Down(14, NUM_15, DEN_15);
    num, den := Down(13, num, den);
    num, den := Down(12, num, den);
    num, den := Down(11, num, den);
    num, den := Down(10, num, den);
  }

  lemma Rows5To9()
    requires Fraction(10, NUM_10, DEN_10)
    ensures forall index :: 5 <= index <= 9 ==> Rounded(index)
    ensures Fraction(5, NUM_5, DEN_5)
  {
    hide Rounded, Fraction;
    var num, den := Down(9, NUM_10, DEN_10);
    num, den := Down(8, num, den);
    num, den := Down(7, num, den);
    num, den := Down(6, num, den);
    num, den := Down(5, num, den);
  }

  lemma Rows0To4()
    requires Fraction(5, NUM_5, DEN_5)
    ensures forall index :: 0 <= index <= 4 ==> Rounded(index)
  {
    hide Rounded, Fraction;
    var num, den := Down(4, NUM_5, DEN_5);
    num, den := Down(3, num, den);
    num, den := Down(2, num, den);
    num, den := Down(1, num, den);
    num, den := Down(0, num, den);
  }

  lemma Rows47To50()
    requires Fraction(46, NUM_46, DEN_46)
    ensures forall index :: 47 <= index <= 50 ==> Rounded(index)
    ensures Fraction(50, NUM_50, DEN_50)
  {
    hide Rounded, Fraction;
    var num, den := Up(47, NUM_46, DEN_46);
    num, den := Up(48, num, den);
    num, den := Up(49, num, den);
    num, den := Up(50, num, den);
  }

  lemma Rows51To54()
    requires Fraction(50, NUM_50, DEN_50)
    ensures forall index :: 51 <= index <= 54 ==> Rounded(index)
    ensures Fraction(54, NUM_54, DEN_54)
  {
    hide Rounded, Fraction;
    var num, den := Up(51, NUM_50, DEN_50);
    num, den := Up(52, num, den);
    num, den := Up(53, num, den);
    num, den := Up(54, num, den);
  }

  lemma Rows55To58()
    requires Fraction(54, NUM_54, DEN_54)
    ensures forall index :: 55 <= index <= 58 ==> Rounded(index)
    ensures Fraction(58, NUM_58, DEN_58)
  {
    hide Rounded, Fraction;
    var num, den := Up(55, NUM_54, DEN_54);
    num, den := Up(56, num, den);
    num, den := Up(57, num, den);
    num, den := Up(58, num, den);
  }

  lemma Rows59To62()
    requires Fraction(58, NUM_58, DEN_58)
    ensures forall index :: 59 <= index <= 62 ==> Rounded(index)
    ensures Fraction(62, NUM_62, DEN_62)
  {
    hide Rounded, Fraction;
    var num, den := Up(59, NUM_58, DEN_58);
    num, den := Up(60, num, den);
    num, den := Up(61, num, den);
    num, den := Up(62, num, den);
  }

  lemma Rows63To66()
    requires Fraction(62, NUM_62, DEN_62)
    ensures forall index :: 63 <= index <= 66 ==> Rounded(index)
    ensures Fraction(66, NUM_66, DEN_66)
  {
    hide Rounded, Fraction;
    var num, den := Up(63, NUM_62, DEN_62);
    num, den := Up(64, num, den);
    num, den := Up(65, num, den);
    num, den := Up(66, num, den);
  }

  lemma Rows67To70()
    requires Fraction(66, NUM_66, DEN_66)
    ensures forall index :: 67 <= index <= 70 ==> Rounded(index)
    ensures Fraction(70, NUM_70, DEN_70)
  {
    hide Rounded, Fraction;
    var num, den := Up(67, NUM_66, DEN_66);
    num, den := Up(68, num, den);
    num, den := Up(69, num, den);
    num, den := Up(70, num, den);
  }

  lemma Rows71To74()
    requires Fraction(70, NUM_70, DEN_70)
    ensures forall index :: 71 <= index <= 74 ==> Rounded(index)
    ensures Fraction(74, NUM_74, DEN_74)
  {
    hide Rounded, Fraction;
    var num, den := Up(71, NUM_70, DEN_70);
    num, den := Up(72, num, den);
    num, den := Up(73, num, den);
    num, den := Up(74, num, den);
  }

  lemma Rows75To78()
    requires Fraction(74, NUM_74, DEN_74)
    ensures forall index :: 75 <= index <= 78 ==> Rounded(index)
    ensures Fraction(78, NUM_78, DEN_78)
  {
    hide Rounded, Fraction;
    var num, den := Up(75, NUM_74, DEN_74);
    num, den := Up(76, num, den);
    num, den := Up(77, num, den);
    num, den := Up(78, num, den);
  }

  lemma Rows79To82()
    requires Fraction(78, NUM_78, DEN_78)
    ensures forall index :: 79 <= index <= 82 ==> Rounded(index)
    ensures Fraction(82, NUM_82, DEN_82)
  {
    hide Rounded, Fraction;
    var num, den := Up(79, NUM_78, DEN_78);
    num, den := Up(80, num, den);
    num, den := Up(81, num, den);
    num, den := Up(82, num, den);
  }

  lemma Rows83To86()
    requires Fraction(82, NUM_82, DEN_82)
    ensures forall index :: 83 <= index <= 86 ==> Rounded(index)
  {
    hide Rounded, Fraction;
    var num, den := Up(83, NUM_82, DEN_82);
    num, den := Up(84, num, den);
    num, den := Up(85, num, den);
    num, den := Up(86, num, den);
  }

  /** Every entry of the table is the power of ten it stands for, to half a unit. */
  lemma TableIsRounded(index: nat)
    requires index < 87
    ensures Rounded(index)
  {
    hide *;
    FirstRows();
    Rows36To42();
    Rows29To35();
    Rows22To28();
    Rows15To21();
    Rows10To14();
    Rows5To9();
    Rows0To4();
    Rows47To50();
    Rows51To54();
    Rows55To58();
    Rows59To62();
    Rows63To66();
    Rows67To70();
    Rows71To74();
    Rows75To78();
    Rows79To82();
    Rows83To86();
  }

  // ----- choice ---------------------------------------------------------------

  /** 10^k is at least 2^n and less than 10^8 times that; the exponents then add up. */
  lemma ExponentInRange(n: int, k: int, f: Limb, e: int, decimal: int)
    requires Placed(f, e, decimal) && k <= decimal <= k + 7 && -2000 <= n <= 2000
    requires 30102999566398114 * n <= k * 10 * TEN_16 < 30102999566398114 * n + 10 * TEN_16
    ensures -60 <= e + 3 - n <= -34 && (e + 3 - n == -34 ==> f < 1000000000 * 0x4_0000_0000)
  {
  }

  /** Picks the power that brings a number of exponent e to one between -60 and -34, with fewer
      than ten digits before the point. */
  method GetCachedPower(e: int) returns (c: DiyFp, K: int, ghost index: nat)
    requires -1190 <= e <= 1091
    ensures index < 87 && c == Table(index) && K == -DecimalExponent(index) && Rounded(index)
    ensures -60 <= e + c.e + 64 <= -34 && (e + c.e + 64 == -34 ==> c.f < 1000000000 * 0x4_0000_0000)
  {
    hide Table;
    var dk: real := ((-61 - e) as real) * 0.30102999566398114 + 347.0;
    var k := dk.Floor;
    if dk - k as real > 0.0 {
      k := k + 1;
    }
    var i := k / 8 + 1;
    K := -(-348 + i * 8);
    c := Table(i);
    index := i;
    TableIsRounded(index);
    assert Placed(c.f, c.e, DecimalExponent(index));
    ExponentInRange(-61 - e, k - 347, c.f, c.e, DecimalExponent(index));
  }
}
