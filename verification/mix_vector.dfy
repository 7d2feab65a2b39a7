/** One word of the generator in numbers, so that there is no doubt which generator it is. */
module MixVector {
  import opened RandomIndex
  import opened Words
  import opened XorShifts

  function Bit(b: bv64): nat { if Odd(b) then 1 else 0 }

  // The number the lowest four bits denote.
  function Low4(b: bv64): nat { Bit(b) + 2 * Bit(b >> 1) + 4 * Bit(b >> 2) + 8 * Bit(b >> 3) }

  lemma HalvesAdd(b: bv64)
    ensures Half(b) == b >> 1 && Half(b >> 1) == b >> 2 && Half(b >> 2) == b >> 3 && Half(b >> 3) == b >> 4
  {}

  lemma FourBits(b: bv64)
    ensures Val(b) == Low4(b) + 0x10 * Val(b >> 4)
  {
    HalvesAdd(b);
    ValUnfold(b);
    ValUnfold(b >> 1);
    ValUnfold(b >> 2);
    ValUnfold(b >> 3);
  }

  // Four hexadecimal digits, and four 16-bit words, put together.
  lemma FourDigits(v: nat, v1: nat, v2: nat, v3: nat, v4: nat, n0: nat, n1: nat, n2: nat, n3: nat)
    requires v == n0 + 0x10 * v1 && v1 == n1 + 0x10 * v2 && v2 == n2 + 0x10 * v3 && v3 == n3 + 0x10 * v4
    ensures v == n0 + 0x10 * n1 + 0x100 * n2 + 0x1000 * n3 + 0x1_0000 * v4
  {}

  lemma FourWords(v: nat, v1: nat, v2: nat, v3: nat, n0: nat, n1: nat, n2: nat, n3: nat)
    requires v == n0 + 0x1_0000 * v1 && v1 == n1 + 0x1_0000 * v2 && v2 == n2 + 0x1_0000 * v3 && v3 == n3
    ensures v == n0 + 0x1_0000 * n1 + 0x1_0000_0000 * n2 + 0x1_0000_0000_0000 * n3
  {}

  lemma FourBitsOn(b: bv64, c: bv64)
    requires c == b >> 4
    ensures Val(b) == Low4(b) + 0x10 * Val(c)
  {
    FourBits(b);
  }

  // Sixteen bits at once: n is what the lowest ones denote, b16 what is above them.
  lemma SixteenBits(b: bv64, b4: bv64, b8: bv64, b12: bv64, b16: bv64, n: nat)
    requires b4 == b >> 4 && b8 == b4 >> 4 && b12 == b8 >> 4 && b16 == b12 >> 4
    requires n == Low4(b) + 0x10 * Low4(b4) + 0x100 * Low4(b8) + 0x1000 * Low4(b12)
    ensures Val(b) == n + 0x1_0000 * Val(b16)
  {
    FourBitsOn(b, b4);
    FourBitsOn(b4, b8);
    FourBitsOn(b8, b12);
    FourBitsOn(b12, b16);
    FourDigits(Val(b), Val(b4), Val(b8), Val(b12), Val(b16), Low4(b), Low4(b4), Low4(b8), Low4(b12));
  }

  lemma SixtyFourBits(b: bv64, b16: bv64, b32: bv64, b48: bv64, n: u64, n0: nat, n1: nat, n2: nat, n3: nat)
    requires Val(b) == n0 + 0x1_0000 * Val(b16) && Val(b16) == n1 + 0x1_0000 * Val(b32)
    requires Val(b32) == n2 + 0x1_0000 * Val(b48) && Val(b48) == n3 + 0x1_0000 * Val(0)
    requires n == n0 + 0x1_0000 * n1 + 0x1_0000_0000 * n2 + 0x1_0000_0000_0000 * n3
    ensures Val(b) == n
    ensures WordOf(n) == b
  {
    ValUnfold(0);
    FourWords(Val(b), Val(b16), Val(b32), Val(b48), n0, n1, n2, n3);
    WordOfVal(b);
  }

  lemma State()
    ensures Val(0x9E37_79B9_7F4A_7C15) == 0x9E37_79B9_7F4A_7C15
    ensures WordOf(0x9E37_79B9_7F4A_7C15) == 0x9E37_79B9_7F4A_7C15
  {
    SixteenBits(0x9E37_79B9_7F4A_7C15, 0x09E3_779B_97F4_A7C1, 0x009E_3779_B97F_4A7C, 0x0009_E377_9B97_F4A7,
                0x9E37_79B9_7F4A, 0x7C15);
    SixteenBits(0x9E37_79B9_7F4A, 0x09E3_779B_97F4, 0x009E_3779_B97F, 0x0009_E377_9B97, 0x9E37_79B9, 0x7F4A);
    SixteenBits(0x9E37_79B9, 0x09E3_779B, 0x009E_3779, 0x0009_E377, 0x9E37, 0x79B9);
    SixteenBits(0x9E37, 0x9E3, 0x9E, 0x9, 0x0, 0x9E37);
    SixtyFourBits(0x9E37_79B9_7F4A_7C15, 0x9E37_79B9_7F4A, 0x9E37_79B9, 0x9E37, 0x9E37_79B9_7F4A_7C15,
                  0x7C15, 0x7F4A, 0x79B9, 0x9E37);
  }

  lemma FirstShift()
    ensures Val(0x9E37_79BB_0797_9AF0) == 0x9E37_79BB_0797_9AF0
    ensures WordOf(0x9E37_79BB_0797_9AF0) == 0x9E37_79BB_0797_9AF0
  {
    SixteenBits(0x9E37_79BB_0797_9AF0, 0x09E3_779B_B079_79AF, 0x009E_3779_BB07_979A, 0x0009_E377_9BB0_7979,
                0x9E37_79BB_0797, 0x9AF0);
    SixteenBits(0x9E37_79BB_0797, 0x09E3_779B_B079, 0x009E_3779_BB07, 0x0009_E377_9BB0, 0x9E37_79BB, 0x797);
    SixteenBits(0x9E37_79BB, 0x09E3_779B, 0x009E_3779, 0x0009_E377, 0x9E37, 0x79BB);
    SixteenBits(0x9E37, 0x9E3, 0x9E, 0x9, 0x0, 0x9E37);
    SixtyFourBits(0x9E37_79BB_0797_9AF0, 0x9E37_79BB_0797, 0x9E37_79BB, 0x9E37, 0x9E37_79BB_0797_9AF0,
                  0x9AF0, 0x797, 0x79BB, 0x9E37);
  }

  lemma FirstProduct()
    ensures Val(0x6F68_261B_57E7_A770) == 0x6F68_261B_57E7_A770
    ensures WordOf(0x6F68_261B_57E7_A770) == 0x6F68_261B_57E7_A770
  {
    SixteenBits(0x6F68_261B_57E7_A770, 0x06F6_8261_B57E_7A77, 0x006F_6826_1B57_E7A7, 0x0006_F682_61B5_7E7A,
                0x6F68_261B_57E7, 0xA770);
    SixteenBits(0x6F68_261B_57E7, 0x06F6_8261_B57E, 0x006F_6826_1B57, 0x0006_F682_61B5, 0x6F68_261B, 0x57E7);
    SixteenBits(0x6F68_261B, 0x06F6_8261, 0x006F_6826, 0x0006_F682, 0x6F68, 0x261B);
    SixteenBits(0x6F68, 0x6F6, 0x6F, 0x6, 0x0, 0x6F68);
    SixtyFourBits(0x6F68_261B_57E7_A770, 0x6F68_261B_57E7, 0x6F68_261B, 0x6F68, 0x6F68_261B_57E7_A770,
                  0xA770, 0x57E7, 0x261B, 0x6F68);
  }

  lemma SecondShift()
    ensures Val(0x6F68_2616_BAE3_641A) == 0x6F68_2616_BAE3_641A
    ensures WordOf(0x6F68_2616_BAE3_641A) == 0x6F68_2616_BAE3_641A
  {
    SixteenBits(0x6F68_2616_BAE3_641A, 0x06F6_8261_6BAE_3641, 0x006F_6826_16BA_E364, 0x0006_F682_616B_AE36,
                0x6F68_2616_BAE3, 0x641A);
    SixteenBits(0x6F68_2616_BAE3, 0x06F6_8261_6BAE, 0x006F_6826_16BA, 0x0006_F682_616B, 0x6F68_2616, 0xBAE3);
    SixteenBits(0x6F68_2616, 0x06F6_8261, 0x006F_6826, 0x0006_F682, 0x6F68, 0x2616);
    SixteenBits(0x6F68, 0x6F6, 0x6F, 0x6, 0x0, 0x6F68);
    SixtyFourBits(0x6F68_2616_BAE3_641A, 0x6F68_2616_BAE3, 0x6F68_2616, 0x6F68, 0x6F68_2616_BAE3_641A,
                  0x641A, 0xBAE3, 0x2616, 0x6F68);
  }

  lemma SecondProduct()
    ensures Val(0xE220_A838_BF5C_9DDE) == 0xE220_A838_BF5C_9DDE
    ensures WordOf(0xE220_A838_BF5C_9DDE) == 0xE220_A838_BF5C_9DDE
  {
    SixteenBits(0xE220_A838_BF5C_9DDE, 0x0E22_0A83_8BF5_C9DD, 0x00E2_20A8_38BF_5C9D, 0x000E_220A_838B_F5C9,
                0xE220_A838_BF5C, 0x9DDE);
    SixteenBits(0xE220_A838_BF5C, 0x0E22_0A83_8BF5, 0x00E2_20A8_38BF, 0x000E_220A_838B, 0xE220_A838, 0xBF5C);
    SixteenBits(0xE220_A838, 0x0E22_0A83, 0x00E2_20A8, 0x000E_220A, 0xE220, 0xA838);
    SixteenBits(0xE220, 0xE22, 0xE2, 0xE, 0x0, 0xE220);
    SixtyFourBits(0xE220_A838_BF5C_9DDE, 0xE220_A838_BF5C, 0xE220_A838, 0xE220, 0xE220_A838_BF5C_9DDE,
                  0x9DDE, 0xBF5C, 0xA838, 0xE220);
  }

  lemma LastShift()
    ensures Val(0xE220_A839_7B1D_CDAF) == 0xE220_A839_7B1D_CDAF
    ensures WordOf(0xE220_A839_7B1D_CDAF) == 0xE220_A839_7B1D_CDAF
  {
    SixteenBits(0xE220_A839_7B1D_CDAF, 0x0E22_0A83_97B1_DCDA, 0x00E2_20A8_397B_1DCD, 0x000E_220A_8397_B1DC,
                0xE220_A839_7B1D, 0xCDAF);
    SixteenBits(0xE220_A839_7B1D, 0x0E22_0A83_97B1, 0x00E2_20A8_397B, 0x000E_220A_8397, 0xE220_A839, 0x7B1D);
    SixteenBits(0xE220_A839, 0x0E22_0A83, 0x00E2_20A8, 0x000E_220A, 0xE220, 0xA839);
    SixteenBits(0xE220, 0xE22, 0xE2, 0xE, 0x0, 0xE220);
    SixtyFourBits(0xE220_A839_7B1D_CDAF, 0xE220_A839_7B1D, 0xE220_A839, 0xE220, 0xE220_A839_7B1D_CDAF,
                  0xCDAF, 0x7B1D, 0xA839, 0xE220);
  }

  lemma WordsShift()
    ensures Shift30(0x9E37_79B9_7F4A_7C15) == 0x9E37_79BB_0797_9AF0
    ensures Shift27(0x6F68_261B_57E7_A770) == 0x6F68_2616_BAE3_641A
    ensures Shift31(0xE220_A838_BF5C_9DDE) == 0xE220_A839_7B1D_CDAF
  {}

  lemma NumbersMultiply()
    ensures WrappingMul(0x9E37_79BB_0797_9AF0, FIRST_FACTOR) == 0x6F68_261B_57E7_A770
    ensures WrappingMul(0x6F68_2616_BAE3_641A, SECOND_FACTOR) == 0xE220_A838_BF5C_9DDE
  {}

  // The first word after seed zero is that of SplitMix64.
  lemma FirstWordAfterZero()
    ensures Advance(0, 1) == 0x9E37_79B9_7F4A_7C15 && Draw(Mix, 0, 1) == 0xE220_A839_7B1D_CDAF
  {
    assert Advance(0, 0) == 0;
    State();
    FirstShift();
    FirstProduct();
    SecondShift();
    SecondProduct();
    LastShift();
    WordsShift();
    NumbersMultiply();
  }
}
