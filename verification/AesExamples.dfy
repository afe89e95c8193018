/**
 * Known answers for AES-128 (core/uds_aes_cmac.c): the S-box of FIPS 197 Figure 7, the key
 * expansion of Appendix A.1 and the cipher of Appendix B. They fix every constant, index
 * and round of the definitions.
 */
module AesExamples {
  import opened Bytes
  import opened Gf256
  import opened Aes

  // ---- The S-box, FIPS 197 Figure 7 ----

  /** z is the inverse of x in the field, and y the value of its S-box. */
  predicate Sub(x: byte, z: byte, y: byte) {
    Inverse(x) == z && SubByte(x) == y
  }

  predicate Candidate(x: byte, z: byte, y: byte) {
    (if x == 0 then z == 0 else MulNested(x, z) == 1) && Affine(z) == y
  }

  lemma UniqueInverse(x: byte, z: byte)
    requires Mul(x, z) == 1
    ensures Inverse(x) == z
  {
    hide Mul, Inverse;
    if x == 0 {
      MulCommutes(0, z);
      MulZero(z);
    } else {
      InverseIsInverse(x);
      MulAssociative(z, x, Inverse(x));
      MulCommutes(z, x);
      OneTimes(Inverse(x));
      TimesOne(z);
    }
  }

  lemma ZeroInverse()
    ensures Inverse(0) == 0
  {
    hide Mul;
    InverseIsPow(0);
    MulZero(Pow(0, 253));
    MulCommutes(0, Pow(0, 253));
  }

  lemma Candidates()
    ensures forall x, z, y {:trigger Sub(x, z, y)} :: Candidate(x, z, y) ==> Sub(x, z, y)
  {
    forall x, z, y | Candidate(x, z, y)
      ensures Sub(x, z, y)
    {
      hide Inverse, MulNested, Mul, Affine;
      if x == 0 {
        ZeroInverse();
      } else {
        MulUnrolls(x, z);
        UniqueInverse(x, z);
      }
    }
  }

  // The table itself, as facts about any function that has its values.

  predicate Figure0(f: byte -> byte) {
    f(0x00) == 0x63 && f(0x01) == 0x7C && f(0x02) == 0x77 && f(0x03) == 0x7B && f(0x04) == 0xF2 && f(0x05) == 0x6B &&
    f(0x06) == 0x6F && f(0x07) == 0xC5 && f(0x08) == 0x30 && f(0x09) == 0x01 && f(0x0A) == 0x67 &&
    f(0x0B) == 0x2B && f(0x0C) == 0xFE && f(0x0D) == 0xD7 && f(0x0E) == 0xAB && f(0x0F) == 0x76
  }

  predicate Figure1(f: byte -> byte) {
    f(0x10) == 0xCA && f(0x11) == 0x82 && f(0x12) == 0xC9 && f(0x13) == 0x7D && f(0x14) == 0xFA && f(0x15) == 0x59 &&
    f(0x16) == 0x47 && f(0x17) == 0xF0 && f(0x18) == 0xAD && f(0x19) == 0xD4 && f(0x1A) == 0xA2 &&
    f(0x1B) == 0xAF && f(0x1C) == 0x9C && f(0x1D) == 0xA4 && f(0x1E) == 0x72 && f(0x1F) == 0xC0
  }

  predicate Figure2(f: byte -> byte) {
    f(0x20) == 0xB7 && f(0x21) == 0xFD && f(0x22) == 0x93 && f(0x23) == 0x26 && f(0x24) == 0x36 && f(0x25) == 0x3F &&
    f(0x26) == 0xF7 && f(0x27) == 0xCC && f(0x28) == 0x34 && f(0x29) == 0xA5 && f(0x2A) == 0xE5 &&
    f(0x2B) == 0xF1 && f(0x2C) == 0x71 && f(0x2D) == 0xD8 && f(0x2E) == 0x31 && f(0x2F) == 0x15
  }

  predicate Figure3(f: byte -> byte) {
    f(0x30) == 0x04 && f(0x31) == 0xC7 && f(0x32) == 0x23 && f(0x33) == 0xC3 && f(0x34) == 0x18 && f(0x35) == 0x96 &&
    f(0x36) == 0x05 && f(0x37) == 0x9A && f(0x38) == 0x07 && f(0x39) == 0x12 && f(0x3A) == 0x80 &&
    f(0x3B) == 0xE2 && f(0x3C) == 0xEB && f(0x3D) == 0x27 && f(0x3E) == 0xB2 && f(0x3F) == 0x75
  }

  predicate Figure4(f: byte -> byte) {
    f(0x40) == 0x09 && f(0x41) == 0x83 && f(0x42) == 0x2C && f(0x43) == 0x1A && f(0x44) == 0x1B && f(0x45) == 0x6E &&
    f(0x46) == 0x5A && f(0x47) == 0xA0 && f(0x48) == 0x52 && f(0x49) == 0x3B && f(0x4A) == 0xD6 &&
    f(0x4B) == 0xB3 && f(0x4C) == 0x29 && f(0x4D) == 0xE3 && f(0x4E) == 0x2F && f(0x4F) == 0x84
  }

  predicate Figure5(f: byte -> byte) {
    f(0x50) == 0x53 && f(0x51) == 0xD1 && f(0x52) == 0x00 && f(0x53) == 0xED && f(0x54) == 0x20 && f(0x55) == 0xFC &&
    f(0x56) == 0xB1 && f(0x57) == 0x5B && f(0x58) == 0x6A && f(0x59) == 0xCB && f(0x5A) == 0xBE &&
    f(0x5B) == 0x39 && f(0x5C) == 0x4A && f(0x5D) == 0x4C && f(0x5E) == 0x58 && f(0x5F) == 0xCF
  }

  predicate Figure6(f: byte -> byte) {
    f(0x60) == 0xD0 && f(0x61) == 0xEF && f(0x62) == 0xAA && f(0x63) == 0xFB && f(0x64) == 0x43 && f(0x65) == 0x4D &&
    f(0x66) == 0x33 && f(0x67) == 0x85 && f(0x68) == 0x45 && f(0x69) == 0xF9 && f(0x6A) == 0x02 &&
    f(0x6B) == 0x7F && f(0x6C) == 0x50 && f(0x6D) == 0x3C && f(0x6E) == 0x9F && f(0x6F) == 0xA8
  }

  predicate Figure7(f: byte -> byte) {
    f(0x70) == 0x51 && f(0x71) == 0xA3 && f(0x72) == 0x40 && f(0x73) == 0x8F && f(0x74) == 0x92 && f(0x75) == 0x9D &&
    f(0x76) == 0x38 && f(0x77) == 0xF5 && f(0x78) == 0xBC && f(0x79) == 0xB6 && f(0x7A) == 0xDA &&
    f(0x7B) == 0x21 && f(0x7C) == 0x10 && f(0x7D) == 0xFF && f(0x7E) == 0xF3 && f(0x7F) == 0xD2
  }

  predicate Figure8(f: byte -> byte) {
    f(0x80) == 0xCD && f(0x81) == 0x0C && f(0x82) == 0x13 && f(0x83) == 0xEC && f(0x84) == 0x5F && f(0x85) == 0x97 &&
    f(0x86) == 0x44 && f(0x87) == 0x17 && f(0x88) == 0xC4 && f(0x89) == 0xA7 && f(0x8A) == 0x7E &&
    f(0x8B) == 0x3D && f(0x8C) == 0x64 && f(0x8D) == 0x5D && f(0x8E) == 0x19 && f(0x8F) == 0x73
  }

  predicate Figure9(f: byte -> byte) {
    f(0x90) == 0x60 && f(0x91) == 0x81 && f(0x92) == 0x4F && f(0x93) == 0xDC && f(0x94) == 0x22 && f(0x95) == 0x2A &&
    f(0x96) == 0x90 && f(0x97) == 0x88 && f(0x98) == 0x46 && f(0x99) == 0xEE && f(0x9A) == 0xB8 &&
    f(0x9B) == 0x14 && f(0x9C) == 0xDE && f(0x9D) == 0x5E && f(0x9E) == 0x0B && f(0x9F) == 0xDB
  }

  predicate FigureA(f: byte -> byte) {
    f(0xA0) == 0xE0 && f(0xA1) == 0x32 && f(0xA2) == 0x3A && f(0xA3) == 0x0A && f(0xA4) == 0x49 && f(0xA5) == 0x06 &&
    f(0xA6) == 0x24 && f(0xA7) == 0x5C && f(0xA8) == 0xC2 && f(0xA9) == 0xD3 && f(0xAA) == 0xAC &&
    f(0xAB) == 0x62 && f(0xAC) == 0x91 && f(0xAD) == 0x95 && f(0xAE) == 0xE4 && f(0xAF) == 0x79
  }

  predicate FigureB(f: byte -> byte) {
    f(0xB0) == 0xE7 && f(0xB1) == 0xC8 && f(0xB2) == 0x37 && f(0xB3) == 0x6D && f(0xB4) == 0x8D && f(0xB5) == 0xD5 &&
    f(0xB6) == 0x4E && f(0xB7) == 0xA9 && f(0xB8) == 0x6C && f(0xB9) == 0x56 && f(0xBA) == 0xF4 &&
    f(0xBB) == 0xEA && f(0xBC) == 0x65 && f(0xBD) == 0x7A && f(0xBE) == 0xAE && f(0xBF) == 0x08
  }

  predicate FigureC(f: byte -> byte) {
    f(0xC0) == 0xBA && f(0xC1) == 0x78 && f(0xC2) == 0x25 && f(0xC3) == 0x2E && f(0xC4) == 0x1C && f(0xC5) == 0xA6 &&
    f(0xC6) == 0xB4 && f(0xC7) == 0xC6 && f(0xC8) == 0xE8 && f(0xC9) == 0xDD && f(0xCA) == 0x74 &&
    f(0xCB) == 0x1F && f(0xCC) == 0x4B && f(0xCD) == 0xBD && f(0xCE) == 0x8B && f(0xCF) == 0x8A
  }

  predicate FigureD(f: byte -> byte) {
    f(0xD0) == 0x70 && f(0xD1) == 0x3E && f(0xD2) == 0xB5 && f(0xD3) == 0x66 && f(0xD4) == 0x48 && f(0xD5) == 0x03 &&
    f(0xD6) == 0xF6 && f(0xD7) == 0x0E && f(0xD8) == 0x61 && f(0xD9) == 0x35 && f(0xDA) == 0x57 &&
    f(0xDB) == 0xB9 && f(0xDC) == 0x86 && f(0xDD) == 0xC1 && f(0xDE) == 0x1D && f(0xDF) == 0x9E
  }

  predicate FigureE(f: byte -> byte) {
    f(0xE0) == 0xE1 && f(0xE1) == 0xF8 && f(0xE2) == 0x98 && f(0xE3) == 0x11 && f(0xE4) == 0x69 && f(0xE5) == 0xD9 &&
    f(0xE6) == 0x8E && f(0xE7) == 0x94 && f(0xE8) == 0x9B && f(0xE9) == 0x1E && f(0xEA) == 0x87 &&
    f(0xEB) == 0xE9 && f(0xEC) == 0xCE && f(0xED) == 0x55 && f(0xEE) == 0x28 && f(0xEF) == 0xDF
  }

  predicate FigureF(f: byte -> byte) {
    f(0xF0) == 0x8C && f(0xF1) == 0xA1 && f(0xF2) == 0x89 && f(0xF3) == 0x0D && f(0xF4) == 0xBF && f(0xF5) == 0xE6 &&
    f(0xF6) == 0x42 && f(0xF7) == 0x68 && f(0xF8) == 0x41 && f(0xF9) == 0x99 && f(0xFA) == 0x2D &&
    f(0xFB) == 0x0F && f(0xFC) == 0xB0 && f(0xFD) == 0x54 && f(0xFE) == 0xBB && f(0xFF) == 0x16
  }

  predicate IsFigure7(f: byte -> byte) {
    Figure0(f) && Figure1(f) && Figure2(f) && Figure3(f) &&
    Figure4(f) && Figure5(f) && Figure6(f) && Figure7(f) &&
    Figure8(f) && Figure9(f) && FigureA(f) && FigureB(f) &&
    FigureC(f) && FigureD(f) && FigureE(f) && FigureF(f)
  }

  lemma FigureHolds0()
    ensures Figure0(SubByte)
  {
    hide Inverse, SubByte;
    Candidates();
    assert Sub(0x00, 0x00, 0x63) && Sub(0x01, 0x01, 0x7C) && Sub(0x02, 0x8D, 0x77) && Sub(0x03, 0xF6, 0x7B);
    assert Sub(0x04, 0xCB, 0xF2) && Sub(0x05, 0x52, 0x6B) && Sub(0x06, 0x7B, 0x6F) && Sub(0x07, 0xD1, 0xC5);
    assert Sub(0x08, 0xE8, 0x30) && Sub(0x09, 0x4F, 0x01) && Sub(0x0A, 0x29, 0x67) && Sub(0x0B, 0xC0, 0x2B);
    assert Sub(0x0C, 0xB0, 0xFE) && Sub(0x0D, 0xE1, 0xD7) && Sub(0x0E, 0xE5, 0xAB) && Sub(0x0F, 0xC7, 0x76);
  }

  lemma FigureHolds1()
    ensures Figure1(SubByte)
  {
    hide Inverse, SubByte;
    Candidates();
    assert Sub(0x10, 0x74, 0xCA) && Sub(0x11, 0xB4, 0x82) && Sub(0x12, 0xAA, 0xC9) && Sub(0x13, 0x4B, 0x7D);
    assert Sub(0x14, 0x99, 0xFA) && Sub(0x15, 0x2B, 0x59) && Sub(0x16, 0x60, 0x47) && Sub(0x17, 0x5F, 0xF0);
    assert Sub(0x18, 0x58, 0xAD) && Sub(0x19, 0x3F, 0xD4) && Sub(0x1A, 0xFD, 0xA2) && Sub(0x1B, 0xCC, 0xAF);
    assert Sub(0x1C, 0xFF, 0x9C) && Sub(0x1D, 0x40, 0xA4) && Sub(0x1E, 0xEE, 0x72) && Sub(0x1F, 0xB2, 0xC0);
  }

  lemma FigureHolds2()
    ensures Figure2(SubByte)
  {
    hide Inverse, SubByte;
    Candidates();
    assert Sub(0x20, 0x3A, 0xB7) && Sub(0x21, 0x6E, 0xFD) && Sub(0x22, 0x5A, 0x93) && Sub(0x23, 0xF1, 0x26);
    assert Sub(0x24, 0x55, 0x36) && Sub(0x25, 0x4D, 0x3F) && Sub(0x26, 0xA8, 0xF7) && Sub(0x27, 0xC9, 0xCC);
    assert Sub(0x28, 0xC1, 0x34) && Sub(0x29, 0x0A, 0xA5) && Sub(0x2A, 0x98, 0xE5) && Sub(0x2B, 0x15, 0xF1);
    assert Sub(0x2C, 0x30, 0x71) && Sub(0x2D, 0x44, 0xD8) && Sub(0x2E, 0xA2, 0x31) && Sub(0x2F, 0xC2, 0x15);
  }

  lemma FigureHolds3()
    ensures Figure3(SubByte)
  {
    hide Inverse, SubByte;
    Candidates();
    assert Sub(0x30, 0x2C, 0x04) && Sub(0x31, 0x45, 0xC7) && Sub(0x32, 0x92, 0x23) && Sub(0x33, 0x6C, 0xC3);
    assert Sub(0x34, 0xF3, 0x18) && Sub(0x35, 0x39, 0x96) && Sub(0x36, 0x66, 0x05) && Sub(0x37, 0x42, 0x9A);
    assert Sub(0x38, 0xF2, 0x07) && Sub(0x39, 0x35, 0x12) && Sub(0x3A, 0x20, 0x80) && Sub(0x3B, 0x6F, 0xE2);
    assert Sub(0x3C, 0x77, 0xEB) && Sub(0x3D, 0xBB, 0x27) && Sub(0x3E, 0x59, 0xB2) && Sub(0x3F, 0x19, 0x75);
  }

  lemma FigureHolds4()
    ensures Figure4(SubByte)
  {
    hide Inverse, SubByte;
    Candidates();
    assert Sub(0x40, 0x1D, 0x09) && Sub(0x41, 0xFE, 0x83) && Sub(0x42, 0x37, 0x2C) && Sub(0x43, 0x67, 0x1A);
    assert Sub(0x44, 0x2D, 0x1B) && Sub(0x45, 0x31, 0x6E) && Sub(0x46, 0xF5, 0x5A) && Sub(0x47, 0x69, 0xA0);
    assert Sub(0x48, 0xA7, 0x52) && Sub(0x49, 0x64, 0x3B) && Sub(0x4A, 0xAB, 0xD6) && Sub(0x4B, 0x13, 0xB3);
    assert Sub(0x4C, 0x54, 0x29) && Sub(0x4D, 0x25, 0xE3) && Sub(0x4E, 0xE9, 0x2F) && Sub(0x4F, 0x09, 0x84);
  }

  lemma FigureHolds5()
    ensures Figure5(SubByte)
  {
    hide Inverse, SubByte;
    Candidates();
    assert Sub(0x50, 0xED, 0x53) && Sub(0x51, 0x5C, 0xD1) && Sub(0x52, 0x05, 0x00) && Sub(0x53, 0xCA, 0xED);
    assert Sub(0x54, 0x4C, 0x20) && Sub(0x55, 0x24, 0xFC) && Sub(0x56, 0x87, 0xB1) && Sub(0x57, 0xBF, 0x5B);
    assert Sub(0x58, 0x18, 0x6A) && Sub(0x59, 0x3E, 0xCB) && Sub(0x5A, 0x22, 0xBE) && Sub(0x5B, 0xF0, 0x39);
    assert Sub(0x5C, 0x51, 0x4A) && Sub(0x5D, 0xEC, 0x4C) && Sub(0x5E, 0x61, 0x58) && Sub(0x5F, 0x17, 0xCF);
  }

  lemma FigureHolds6()
    ensures Figure6(SubByte)
  {
    hide Inverse, SubByte;
    Candidates();
    assert Sub(0x60, 0x16, 0xD0) && Sub(0x61, 0x5E, 0xEF) && Sub(0x62, 0xAF, 0xAA) && Sub(0x63, 0xD3, 0xFB);
    assert Sub(0x64, 0x49, 0x43) && Sub(0x65, 0xA6, 0x4D) && Sub(0x66, 0x36, 0x33) && Sub(0x67, 0x43, 0x85);
    assert Sub(0x68, 0xF4, 0x45) && Sub(0x69, 0x47, 0xF9) && Sub(0x6A, 0x91, 0x02) && Sub(0x6B, 0xDF, 0x7F);
    assert Sub(0x6C, 0x33, 0x50) && Sub(0x6D, 0x93, 0x3C) && Sub(0x6E, 0x21, 0x9F) && Sub(0x6F, 0x3B, 0xA8);
  }

  lemma FigureHolds7()
    ensures Figure7(SubByte)
  {
    hide Inverse, SubByte;
    Candidates();
    assert Sub(0x70, 0x79, 0x51) && Sub(0x71, 0xB7, 0xA3) && Sub(0x72, 0x97, 0x40) && Sub(0x73, 0x85, 0x8F);
    assert Sub(0x74, 0x10, 0x92) && Sub(0x75, 0xB5, 0x9D) && Sub(0x76, 0xBA, 0x38) && Sub(0x77, 0x3C, 0xF5);
    assert Sub(0x78, 0xB6, 0xBC) && Sub(0x79, 0x70, 0xB6) && Sub(0x7A, 0xD0, 0xDA) && Sub(0x7B, 0x06, 0x21);
    assert Sub(0x7C, 0xA1, 0x10) && Sub(0x7D, 0xFA, 0xFF) && Sub(0x7E, 0x81, 0xF3) && Sub(0x7F, 0x82, 0xD2);
  }

  lemma FigureHolds8()
    ensures Figure8(SubByte)
  {
    hide Inverse, SubByte;
    Candidates();
    assert Sub(0x80, 0x83, 0xCD) && Sub(0x81, 0x7E, 0x0C) && Sub(0x82, 0x7F, 0x13) && Sub(0x83, 0x80, 0xEC);
    assert Sub(0x84, 0x96, 0x5F) && Sub(0x85, 0x73, 0x97) && Sub(0x86, 0xBE, 0x44) && Sub(0x87, 0x56, 0x17);
    assert Sub(0x88, 0x9B, 0xC4) && Sub(0x89, 0x9E, 0xA7) && Sub(0x8A, 0x95, 0x7E) && Sub(0x8B, 0xD9, 0x3D);
    assert Sub(0x8C, 0xF7, 0x64) && Sub(0x8D, 0x02, 0x5D) && Sub(0x8E, 0xB9, 0x19) && Sub(0x8F, 0xA4, 0x73);
  }

  lemma FigureHolds9()
    ensures Figure9(SubByte)
  {
    hide Inverse, SubByte;
    Candidates();
    assert Sub(0x90, 0xDE, 0x60) && Sub(0x91, 0x6A, 0x81) && Sub(0x92, 0x32, 0x4F) && Sub(0x93, 0x6D, 0xDC);
    assert Sub(0x94, 0xD8, 0x22) && Sub(0x95, 0x8A, 0x2A) && Sub(0x96, 0x84, 0x90) && Sub(0x97, 0x72, 0x88);
    assert Sub(0x98, 0x2A, 0x46) && Sub(0x99, 0x14, 0xEE) && Sub(0x9A, 0x9F, 0xB8) && Sub(0x9B, 0x88, 0x14);
    assert Sub(0x9C, 0xF9, 0xDE) && Sub(0x9D, 0xDC, 0x5E) && Sub(0x9E, 0x89, 0x0B) && Sub(0x9F, 0x9A, 0xDB);
  }

  lemma FigureHoldsA()
    ensures FigureA(SubByte)
  {
    hide Inverse, SubByte;
    Candidates();
    assert Sub(0xA0, 0xFB, 0xE0) && Sub(0xA1, 0x7C, 0x32) && Sub(0xA2, 0x2E, 0x3A) && Sub(0xA3, 0xC3, 0x0A);
    assert Sub(0xA4, 0x8F, 0x49) && Sub(0xA5, 0xB8, 0x06) && Sub(0xA6, 0x65, 0x24) && Sub(0xA7, 0x48, 0x5C);
    assert Sub(0xA8, 0x26, 0xC2) && Sub(0xA9, 0xC8, 0xD3) && Sub(0xAA, 0x12, 0xAC) && Sub(0xAB, 0x4A, 0x62);
    assert Sub(0xAC, 0xCE, 0x91) && Sub(0xAD, 0xE7, 0x95) && Sub(0xAE, 0xD2, 0xE4) && Sub(0xAF, 0x62, 0x79);
  }

  lemma FigureHoldsB()
    ensures FigureB(SubByte)
  {
    hide Inverse, SubByte;
    Candidates();
    assert Sub(0xB0, 0x0C, 0xE7) && Sub(0xB1, 0xE0, 0xC8) && Sub(0xB2, 0x1F, 0x37) && Sub(0xB3, 0xEF, 0x6D);
    assert Sub(0xB4, 0x11, 0x8D) && Sub(0xB5, 0x75, 0xD5) && Sub(0xB6, 0x78, 0x4E) && Sub(0xB7, 0x71, 0xA9);
    assert Sub(0xB8, 0xA5, 0x6C) && Sub(0xB9, 0x8E, 0x56) && Sub(0xBA, 0x76, 0xF4) && Sub(0xBB, 0x3D, 0xEA);
    assert Sub(0xBC, 0xBD, 0x65) && Sub(0xBD, 0xBC, 0x7A) && Sub(0xBE, 0x86, 0xAE) && Sub(0xBF, 0x57, 0x08);
  }

  lemma FigureHoldsC()
    ensures FigureC(SubByte)
  {
    hide Inverse, SubByte;
    Candidates();
    assert Sub(0xC0, 0x0B, 0xBA) && Sub(0xC1, 0x28, 0x78) && Sub(0xC2, 0x2F, 0x25) && Sub(0xC3, 0xA3, 0x2E);
    assert Sub(0xC4, 0xDA, 0x1C) && Sub(0xC5, 0xD4, 0xA6) && Sub(0xC6, 0xE4, 0xB4) && Sub(0xC7, 0x0F, 0xC6);
    assert Sub(0xC8, 0xA9, 0xE8) && Sub(0xC9, 0x27, 0xDD) && Sub(0xCA, 0x53, 0x74) && Sub(0xCB, 0x04, 0x1F);
    assert Sub(0xCC, 0x1B, 0x4B) && Sub(0xCD, 0xFC, 0xBD) && Sub(0xCE, 0xAC, 0x8B) && Sub(0xCF, 0xE6, 0x8A);
  }

  lemma FigureHoldsD()
    ensures FigureD(SubByte)
  {
    hide Inverse, SubByte;
    Candidates();
    assert Sub(0xD0, 0x7A, 0x70) && Sub(0xD1, 0x07, 0x3E) && Sub(0xD2, 0xAE, 0xB5) && Sub(0xD3, 0x63, 0x66);
    assert Sub(0xD4, 0xC5, 0x48) && Sub(0xD5, 0xDB, 0x03) && Sub(0xD6, 0xE2, 0xF6) && Sub(0xD7, 0xEA, 0x0E);
    assert Sub(0xD8, 0x94, 0x61) && Sub(0xD9, 0x8B, 0x35) && Sub(0xDA, 0xC4, 0x57) && Sub(0xDB, 0xD5, 0xB9);
    assert Sub(0xDC, 0x9D, 0x86) && Sub(0xDD, 0xF8, 0xC1) && Sub(0xDE, 0x90, 0x1D) && Sub(0xDF, 0x6B, 0x9E);
  }

  lemma FigureHoldsE()
    ensures FigureE(SubByte)
  {
    hide Inverse, SubByte;
    Candidates();
    assert Sub(0xE0, 0xB1, 0xE1) && Sub(0xE1, 0x0D, 0xF8) && Sub(0xE2, 0xD6, 0x98) && Sub(0xE3, 0xEB, 0x11);
    assert Sub(0xE4, 0xC6, 0x69) && Sub(0xE5, 0x0E, 0xD9) && Sub(0xE6, 0xCF, 0x8E) && Sub(0xE7, 0xAD, 0x94);
    assert Sub(0xE8, 0x08, 0x9B) && Sub(0xE9, 0x4E, 0x1E) && Sub(0xEA, 0xD7, 0x87) && Sub(0xEB, 0xE3, 0xE9);
    assert Sub(0xEC, 0x5D, 0xCE) && Sub(0xED, 0x50, 0x55) && Sub(0xEE, 0x1E, 0x28) && Sub(0xEF, 0xB3, 0xDF);
  }

  lemma FigureHoldsF()
    ensures FigureF(SubByte)
  {
    hide Inverse, SubByte;
    Candidates();
    assert Sub(0xF0, 0x5B, 0x8C) && Sub(0xF1, 0x23, 0xA1) && Sub(0xF2, 0x38, 0x89) && Sub(0xF3, 0x34, 0x0D);
    assert Sub(0xF4, 0x68, 0xBF) && Sub(0xF5, 0x46, 0xE6) && Sub(0xF6, 0x03, 0x42) && Sub(0xF7, 0x8C, 0x68);
    assert Sub(0xF8, 0xDD, 0x41) && Sub(0xF9, 0x9C, 0x99) && Sub(0xFA, 0x7D, 0x2D) && Sub(0xFB, 0xA0, 0x0F);
    assert Sub(0xFC, 0xCD, 0xB0) && Sub(0xFD, 0x1A, 0x54) && Sub(0xFE, 0x41, 0xBB) && Sub(0xFF, 0x1C, 0x16);
  }

  /** The computed S-box as a value. */
  function Box(): byte -> byte {
    SubByte
  }

  /** The computed S-box has all 256 values of Figure 7. */
  lemma SboxIsFigure7()
    ensures IsFigure7(Box())
  {
    hide Figure0, Figure1, Figure2, Figure3, Figure4, Figure5, Figure6, Figure7;
    hide Figure8, Figure9, FigureA, FigureB, FigureC, FigureD, FigureE, FigureF;
    FigureHolds0();
    FigureHolds1();
    FigureHolds2();
    FigureHolds3();
    FigureHolds4();
    FigureHolds5();
    FigureHolds6();
    FigureHolds7();
    FigureHolds8();
    FigureHolds9();
    FigureHoldsA();
    FigureHoldsB();
    FigureHoldsC();
    FigureHoldsD();
    FigureHoldsE();
    FigureHoldsF();
  }

  // ---- Rounds byte by byte ----

  function Mixed(a: byte, b: byte, c: byte, d: byte, k: byte): byte {
    XorB(XorB(XorB(Mul2(a), XorB(Mul2(b), b)), XorB(c, d)), k)
  }

  /** One of the nine full rounds. */
  function Turn(f: byte -> byte, s: block, k: block): seq<byte> {
    [Mixed(f(s[0]), f(s[5]), f(s[10]), f(s[15]), k[0]),
     Mixed(f(s[5]), f(s[10]), f(s[15]), f(s[0]), k[1]),
     Mixed(f(s[10]), f(s[15]), f(s[0]), f(s[5]), k[2]),
     Mixed(f(s[15]), f(s[0]), f(s[5]), f(s[10]), k[3]),
     Mixed(f(s[4]), f(s[9]), f(s[14]), f(s[3]), k[4]),
     Mixed(f(s[9]), f(s[14]), f(s[3]), f(s[4]), k[5]),
     Mixed(f(s[14]), f(s[3]), f(s[4]), f(s[9]), k[6]),
     Mixed(f(s[3]), f(s[4]), f(s[9]), f(s[14]), k[7]),
     Mixed(f(s[8]), f(s[13]), f(s[2]), f(s[7]), k[8]),
     Mixed(f(s[13]), f(s[2]), f(s[7]), f(s[8]), k[9]),
     Mixed(f(s[2]), f(s[7]), f(s[8]), f(s[13]), k[10]),
     Mixed(f(s[7]), f(s[8]), f(s[13]), f(s[2]), k[11]),
     Mixed(f(s[12]), f(s[1]), f(s[6]), f(s[11]), k[12]),
     Mixed(f(s[1]), f(s[6]), f(s[11]), f(s[12]), k[13]),
     Mixed(f(s[6]), f(s[11]), f(s[12]), f(s[1]), k[14]),
     Mixed(f(s[11]), f(s[12]), f(s[1]), f(s[6]), k[15])]
  }

  /** The tenth round, without the mix. */
  function LastTurn(f: byte -> byte, s: block, k: block): seq<byte> {
    [XorB(f(s[0]), k[0]), XorB(f(s[5]), k[1]), XorB(f(s[10]), k[2]), XorB(f(s[15]), k[3]),
     XorB(f(s[4]), k[4]), XorB(f(s[9]), k[5]), XorB(f(s[14]), k[6]), XorB(f(s[3]), k[7]),
     XorB(f(s[8]), k[8]), XorB(f(s[13]), k[9]), XorB(f(s[2]), k[10]), XorB(f(s[7]), k[11]),
     XorB(f(s[12]), k[12]), XorB(f(s[1]), k[13]), XorB(f(s[6]), k[14]), XorB(f(s[11]), k[15])]
  }

  lemma ThreeTimes(b: byte)
    ensures Mul(b, 3) == XorB(Mul2(b), b)
  {
    hide Mul, Mul2;
    TimesX(b);
    TimesOne(b);
    MulDistributes(2, 1, b);
    MulCommutes(b, 3);
    MulCommutes(b, 2);
    MulCommutes(b, 1);
    assert XorB(2, 1) == 3;
  }

  /** The four bytes of a mixed column with a round key byte added. */
  lemma MixedRows(a: byte, b: byte, c: byte, d: byte, k: byte)
    ensures XorB(Lin([a, b, c, d], MIX0), k) == Mixed(a, b, c, d, k)
    ensures XorB(Lin([a, b, c, d], MIX1), k) == Mixed(b, c, d, a, k)
    ensures XorB(Lin([a, b, c, d], MIX2), k) == Mixed(c, d, a, b, k)
    ensures XorB(Lin([a, b, c, d], MIX3), k) == Mixed(d, a, b, c, k)
  {
    hide Mul, Mul2, XorB, Sum, Mixed;
    Products(a);
    Products(b);
    Products(c);
    Products(d);
    Reorder(a, b, c, d, k);
  }

  lemma Products(a: byte)
    ensures Mul(a, 1) == a && Mul(a, 2) == Mul2(a) && Mul(a, 3) == XorB(Mul2(a), a)
  {
    hide Mul;
    TimesOne(a);
    TimesX(a);
    ThreeTimes(a);
  }

  lemma Reorder(a: byte, b: byte, c: byte, d: byte, k: byte)
    ensures XorB(Sum(Mul2(a), XorB(Mul2(b), b), c, d), k) == Mixed(a, b, c, d, k)
    ensures XorB(Sum(a, Mul2(b), XorB(Mul2(c), c), d), k) == Mixed(b, c, d, a, k)
    ensures XorB(Sum(a, b, Mul2(c), XorB(Mul2(d), d)), k) == Mixed(c, d, a, b, k)
    ensures XorB(Sum(XorB(Mul2(a), a), b, c, Mul2(d)), k) == Mixed(d, a, b, c, k)
  {
    hide Mul2, XorB;
    Rotated(a, Mul2(b), XorB(Mul2(c), c), d);
    Rotated(a, b, Mul2(c), XorB(Mul2(d), d));
    Rotated(b, Mul2(c), XorB(Mul2(d), d), a);
    Rotated(Mul2(d), XorB(Mul2(a), a), b, c);
    Rotated(c, Mul2(d), XorB(Mul2(a), a), b);
    Rotated(XorB(Mul2(a), a), b, c, Mul2(d));
    Rotated(b, c, Mul2(d), XorB(Mul2(a), a));
  }

  lemma Rotated(p: byte, q: byte, r: byte, s: byte)
    ensures Sum(p, q, r, s) == Sum(q, r, s, p)
  {
    hide XorB;
    XorBCommutes(p, q);
    XorBInterchange(q, p, r, s);
    XorBCommutes(p, s);
  }

  // ---- Key expansion, FIPS 197 Appendix A.1 ----

  /** The bytes of a word move one place towards the front, the first to the end. */
  lemma RotWordMoves(w: quad, i: nat)
    requires i < 4
    ensures RotWord(w)[i] == w[(i + 1) % 4]
  {}

  /** The round constants are the powers of x, from 1 on. */
  lemma RoundConstantsDouble(i: nat)
    requires i < 9
    ensures RCON[0] == 1 && RCON[i + 1] == Mul2(RCON[i])
  {
    if i == 0 {} else if i == 1 {} else if i == 2 {} else if i == 3 {} else if i == 4 {}
    else if i == 5 {} else if i == 6 {} else if i == 7 {} else { assert i == 8; }
  }

  const KEY0: block := [0x2B, 0x7E, 0x15, 0x16, 0x28, 0xAE, 0xD2, 0xA6, 0xAB, 0xF7, 0x15, 0x88, 0x09, 0xCF, 0x4F, 0x3C]
  const KEY1: block := [0xA0, 0xFA, 0xFE, 0x17, 0x88, 0x54, 0x2C, 0xB1, 0x23, 0xA3, 0x39, 0x39, 0x2A, 0x6C, 0x76, 0x05]
  const KEY2: block := [0xF2, 0xC2, 0x95, 0xF2, 0x7A, 0x96, 0xB9, 0x43, 0x59, 0x35, 0x80, 0x7A, 0x73, 0x59, 0xF6, 0x7F]
  const KEY3: block := [0x3D, 0x80, 0x47, 0x7D, 0x47, 0x16, 0xFE, 0x3E, 0x1E, 0x23, 0x7E, 0x44, 0x6D, 0x7A, 0x88, 0x3B]
  const KEY4: block := [0xEF, 0x44, 0xA5, 0x41, 0xA8, 0x52, 0x5B, 0x7F, 0xB6, 0x71, 0x25, 0x3B, 0xDB, 0x0B, 0xAD, 0x00]
  const KEY5: block := [0xD4, 0xD1, 0xC6, 0xF8, 0x7C, 0x83, 0x9D, 0x87, 0xCA, 0xF2, 0xB8, 0xBC, 0x11, 0xF9, 0x15, 0xBC]
  const KEY6: block := [0x6D, 0x88, 0xA3, 0x7A, 0x11, 0x0B, 0x3E, 0xFD, 0xDB, 0xF9, 0x86, 0x41, 0xCA, 0x00, 0x93, 0xFD]
  const KEY7: block := [0x4E, 0x54, 0xF7, 0x0E, 0x5F, 0x5F, 0xC9, 0xF3, 0x84, 0xA6, 0x4F, 0xB2, 0x4E, 0xA6, 0xDC, 0x4F]
  const KEY8: block := [0xEA, 0xD2, 0x73, 0x21, 0xB5, 0x8D, 0xBA, 0xD2, 0x31, 0x2B, 0xF5, 0x60, 0x7F, 0x8D, 0x29, 0x2F]
  const KEY9: block := [0xAC, 0x77, 0x66, 0xF3, 0x19, 0xFA, 0xDC, 0x21, 0x28, 0xD1, 0x29, 0x41, 0x57, 0x5C, 0x00, 0x6E]
  const KEY10: block := [0xD0, 0x14, 0xF9, 0xA8, 0xC9, 0xEE, 0x25, 0x89, 0xE1, 0x3F, 0x0C, 0xC8, 0xB6, 0x63, 0x0C, 0xA6]

  function NextKey(box: byte -> byte, k: block, rcon: byte): seq<byte> {
    var a, b, c, d := XorB(k[0], XorB(box(k[13]), rcon)), XorB(k[1], box(k[14])),
      XorB(k[2], box(k[15])), XorB(k[3], box(k[12]));
    var e, f, g, h := XorB(k[4], a), XorB(k[5], b), XorB(k[6], c), XorB(k[7], d);
    var i, j, l, m := XorB(k[8], e), XorB(k[9], f), XorB(k[10], g), XorB(k[11], h);
    [a, b, c, d, e, f, g, h, i, j, l, m, XorB(k[12], i), XorB(k[13], j), XorB(k[14], l), XorB(k[15], m)]
  }

  /** One step of the key expansion is four words of it. */
  lemma NextRoundKey(key: block, n: nat, k: block, l: block)
    requires 1 <= n <= 10 && RoundKey(key, n - 1) == k && NextKey(Box(), k, RCON[n - 1]) == l
    ensures RoundKey(key, n) == l
  {
    hide XorWords, SubWord, RotWord, KeyWord, NextKey, RoundKey;
    var a, b := KeyWord(key, 4 * n - 4), KeyWord(key, 4 * n - 3);
    var c, d := KeyWord(key, 4 * n - 2), KeyWord(key, 4 * n - 1);
    RoundKeyWords(key, n - 1, 4 * n - 4);
    RoundKeyWords(key, n, 4 * n);
    NextWords(k, RCON[n - 1], a, b, c, d);
    WordsFollow(key, n);
  }

  lemma RoundKeyWords(key: block, n: nat, i: nat)
    requires n <= 10 && i == 4 * n
    ensures RoundKey(key, n) == KeyWord(key, i) + KeyWord(key, i + 1) + KeyWord(key, i + 2) + KeyWord(key, i + 3)
  {
    hide KeyWord;
  }

  lemma WordsFollow(key: block, n: nat)
    requires 1 <= n <= 10
    ensures var e := XorWords(KeyWord(key, 4 * n - 4),
                              XorWords(SubWord(RotWord(KeyWord(key, 4 * n - 1))), [RCON[n - 1], 0, 0, 0]));
      var f := XorWords(KeyWord(key, 4 * n - 3), e);
      var g := XorWords(KeyWord(key, 4 * n - 2), f);
      KeyWord(key, 4 * n) == e && KeyWord(key, 4 * n + 1) == f && KeyWord(key, 4 * n + 2) == g &&
      KeyWord(key, 4 * n + 3) == XorWords(KeyWord(key, 4 * n - 1), g)
  {
    hide XorWords, SubWord, RotWord, KeyWord;
    Quarters4(n);
    KeyWordStep(key, 4 * n);
    KeyWordStep(key, 4 * n + 1);
    KeyWordStep(key, 4 * n + 2);
    KeyWordStep(key, 4 * n + 3);
  }

  lemma Quarters4(n: nat)
    ensures 4 * n / 4 == n && 4 * n % 4 == 0
    ensures (4 * n + 1) % 4 == 1 && (4 * n + 2) % 4 == 2 && (4 * n + 3) % 4 == 3
  {}

  lemma Flat16(a: quad, b: quad, c: quad, d: quad)
    ensures a + b + c + d ==
      [a[0], a[1], a[2], a[3], b[0], b[1], b[2], b[3], c[0], c[1], c[2], c[3], d[0], d[1], d[2], d[3]]
  {}

  lemma FirstWord(a: quad, d: quad, rcon: byte)
    ensures XorWords(a, XorWords(SubWord(RotWord(d)), [rcon, 0, 0, 0])) ==
      [XorB(a[0], XorB(SubByte(d[1]), rcon)), XorB(a[1], SubByte(d[2])), XorB(a[2], SubByte(d[3])),
       XorB(a[3], SubByte(d[0]))]
  {
    hide XorB, SubByte;
    XorBZero(SubByte(d[2]));
    XorBZero(SubByte(d[3]));
    XorBZero(SubByte(d[0]));
  }

  lemma NextWords(k: block, rcon: byte, a: quad, b: quad, c: quad, d: quad)
    requires k == a + b + c + d
    ensures var e := XorWords(a, XorWords(SubWord(RotWord(d)), [rcon, 0, 0, 0]));
      var f := XorWords(b, e);
      var g := XorWords(c, f);
      NextKey(Box(), k, rcon) == e + f + g + XorWords(d, g)
  {
    hide XorB, SubByte, SubWord, RotWord;
    FirstWord(a, d, rcon);
    var e := XorWords(a, XorWords(SubWord(RotWord(d)), [rcon, 0, 0, 0]));
    var f := XorWords(b, e);
    var g := XorWords(c, f);
    Flat16(a, b, c, d);
    Flat16(e, f, g, XorWords(d, g));
  }

  lemma NextKey1(f: byte -> byte) requires IsFigure7(f) ensures NextKey(f, KEY0, RCON[0]) == KEY1 {}
  lemma NextKey2(f: byte -> byte) requires IsFigure7(f) ensures NextKey(f, KEY1, RCON[1]) == KEY2 {}
  lemma NextKey3(f: byte -> byte) requires IsFigure7(f) ensures NextKey(f, KEY2, RCON[2]) == KEY3 {}
  lemma NextKey4(f: byte -> byte) requires IsFigure7(f) ensures NextKey(f, KEY3, RCON[3]) == KEY4 {}
  lemma NextKey5(f: byte -> byte) requires IsFigure7(f) ensures NextKey(f, KEY4, RCON[4]) == KEY5 {}
  lemma NextKey6(f: byte -> byte) requires IsFigure7(f) ensures NextKey(f, KEY5, RCON[5]) == KEY6 {}
  lemma NextKey7(f: byte -> byte) requires IsFigure7(f) ensures NextKey(f, KEY6, RCON[6]) == KEY7 {}
  lemma NextKey8(f: byte -> byte) requires IsFigure7(f) ensures NextKey(f, KEY7, RCON[7]) == KEY8 {}
  lemma NextKey9(f: byte -> byte) requires IsFigure7(f) ensures NextKey(f, KEY8, RCON[8]) == KEY9 {}
  lemma NextKey10(f: byte -> byte) requires IsFigure7(f) ensures NextKey(f, KEY9, RCON[9]) == KEY10 {}

  lemma RoundKey0() ensures RoundKey(KEY0, 0) == KEY0 {}

  lemma RoundKey1()
    ensures RoundKey(KEY0, 1) == KEY1
  {
    hide RoundKey, NextKey, IsFigure7, Box;
    RoundKey0();
    SboxIsFigure7();
    NextKey1(Box());
    NextRoundKey(KEY0, 1, KEY0, KEY1);
  }

  lemma RoundKey2()
    ensures RoundKey(KEY0, 2) == KEY2
  {
    hide RoundKey, NextKey, IsFigure7, Box;
    RoundKey1();
    SboxIsFigure7();
    NextKey2(Box());
    NextRoundKey(KEY0, 2, KEY1, KEY2);
  }

  lemma RoundKey3()
    ensures RoundKey(KEY0, 3) == KEY3
  {
    hide RoundKey, NextKey, IsFigure7, Box;
    RoundKey2();
    SboxIsFigure7();
    NextKey3(Box());
    NextRoundKey(KEY0, 3, KEY2, KEY3);
  }

  lemma RoundKey4()
    ensures RoundKey(KEY0, 4) == KEY4
  {
    hide RoundKey, NextKey, IsFigure7, Box;
    RoundKey3();
    SboxIsFigure7();
    NextKey4(Box());
    NextRoundKey(KEY0, 4, KEY3, KEY4);
  }

  lemma RoundKey5()
    ensures RoundKey(KEY0, 5) == KEY5
  {
    hide RoundKey, NextKey, IsFigure7, Box;
    RoundKey4();
    SboxIsFigure7();
    NextKey5(Box());
    NextRoundKey(KEY0, 5, KEY4, KEY5);
  }

  lemma RoundKey6()
    ensures RoundKey(KEY0, 6) == KEY6
  {
    hide RoundKey, NextKey, IsFigure7, Box;
    RoundKey5();
    SboxIsFigure7();
    NextKey6(Box());
    NextRoundKey(KEY0, 6, KEY5, KEY6);
  }

  lemma RoundKey7()
    ensures RoundKey(KEY0, 7) == KEY7
  {
    hide RoundKey, NextKey, IsFigure7, Box;
    RoundKey6();
    SboxIsFigure7();
    NextKey7(Box());
    NextRoundKey(KEY0, 7, KEY6, KEY7);
  }

  lemma RoundKey8()
    ensures RoundKey(KEY0, 8) == KEY8
  {
    hide RoundKey, NextKey, IsFigure7, Box;
    RoundKey7();
    SboxIsFigure7();
    NextKey8(Box());
    NextRoundKey(KEY0, 8, KEY7, KEY8);
  }

  lemma RoundKey9()
    ensures RoundKey(KEY0, 9) == KEY9
  {
    hide RoundKey, NextKey, IsFigure7, Box;
    RoundKey8();
    SboxIsFigure7();
    NextKey9(Box());
    NextRoundKey(KEY0, 9, KEY8, KEY9);
  }

  lemma RoundKey10()
    ensures RoundKey(KEY0, 10) == KEY10
  {
    hide RoundKey, NextKey, IsFigure7, Box;
    RoundKey9();
    SboxIsFigure7();
    NextKey10(Box());
    NextRoundKey(KEY0, 10, KEY9, KEY10);
  }

  /** All eleven round keys of the key 2b7e1516 28aed2a6 abf71588 09cf4f3c. */
  lemma KeyExpansionExample()
    ensures RoundKey(KEY0, 0) == KEY0
    ensures RoundKey(KEY0, 1) == KEY1
    ensures RoundKey(KEY0, 2) == KEY2
    ensures RoundKey(KEY0, 3) == KEY3
    ensures RoundKey(KEY0, 4) == KEY4
    ensures RoundKey(KEY0, 5) == KEY5
    ensures RoundKey(KEY0, 6) == KEY6
    ensures RoundKey(KEY0, 7) == KEY7
    ensures RoundKey(KEY0, 8) == KEY8
    ensures RoundKey(KEY0, 9) == KEY9
    ensures RoundKey(KEY0, 10) == KEY10
  {
    hide RoundKey;
    RoundKey0();
    RoundKey1();
    RoundKey2();
    RoundKey3();
    RoundKey4();
    RoundKey5();
    RoundKey6();
    RoundKey7();
    RoundKey8();
    RoundKey9();
    RoundKey10();
  }

  // ---- From rounds to the cipher ----

  function Shuffled(s: block): block {
    [SubByte(s[0]), SubByte(s[5]), SubByte(s[10]), SubByte(s[15]),
     SubByte(s[4]), SubByte(s[9]), SubByte(s[14]), SubByte(s[3]),
     SubByte(s[8]), SubByte(s[13]), SubByte(s[2]), SubByte(s[7]),
     SubByte(s[12]), SubByte(s[1]), SubByte(s[6]), SubByte(s[11])]
  }

  lemma ShuffledIs(s: block)
    ensures ShiftRows(SubBytes(s)) == Shuffled(s)
  {
    hide SubByte;
  }

  function AddFlat(s: block, k: block): seq<byte> {
    [XorB(s[0], k[0]), XorB(s[1], k[1]), XorB(s[2], k[2]), XorB(s[3], k[3]),
     XorB(s[4], k[4]), XorB(s[5], k[5]), XorB(s[6], k[6]), XorB(s[7], k[7]),
     XorB(s[8], k[8]), XorB(s[9], k[9]), XorB(s[10], k[10]), XorB(s[11], k[11]),
     XorB(s[12], k[12]), XorB(s[13], k[13]), XorB(s[14], k[14]), XorB(s[15], k[15])]
  }

  lemma Listed(s: block)
    ensures s == [s[0], s[1], s[2], s[3], s[4], s[5], s[6], s[7],
                  s[8], s[9], s[10], s[11], s[12], s[13], s[14], s[15]]
  {}

  lemma XorAt(s: block, k: block, i: nat)
    requires i < 16
    ensures XorBlocks(s, k)[i] == XorB(s[i], k[i])
  {
    hide XorB;
  }

  lemma AddIs(s: block, k: block)
    ensures XorBlocks(s, k) == AddFlat(s, k)
  {
    hide XorB, XorBlocks;
    Listed(XorBlocks(s, k));
    forall i | 0 <= i < 16
      ensures XorBlocks(s, k)[i] == XorB(s[i], k[i])
    {
      XorAt(s, k, i);
    }
  }

  lemma XorFlat(a: quad, b: quad, c: quad, d: quad, k: block)
    ensures XorBlocks(a + b + c + d, k) ==
      [XorB(a[0], k[0]), XorB(a[1], k[1]), XorB(a[2], k[2]), XorB(a[3], k[3]),
       XorB(b[0], k[4]), XorB(b[1], k[5]), XorB(b[2], k[6]), XorB(b[3], k[7]),
       XorB(c[0], k[8]), XorB(c[1], k[9]), XorB(c[2], k[10]), XorB(c[3], k[11]),
       XorB(d[0], k[12]), XorB(d[1], k[13]), XorB(d[2], k[14]), XorB(d[3], k[15])]
  {
    hide XorB, XorBlocks;
    var s: block := a + b + c + d;
    AddIs(s, k);
    Flat16(a, b, c, d);
  }

  lemma Quarters(u: block)
    ensures u[0..4] == [u[0], u[1], u[2], u[3]] && u[4..8] == [u[4], u[5], u[6], u[7]]
    ensures u[8..12] == [u[8], u[9], u[10], u[11]] && u[12..16] == [u[12], u[13], u[14], u[15]]
    ensures u == u[0..4] + u[4..8] + u[8..12] + u[12..16]
  {}

  lemma MixedColumn(q: quad, k: byte)
    ensures var m := MixColumn(q);
      && XorB(m[0], k) == Mixed(q[0], q[1], q[2], q[3], k) && XorB(m[1], k) == Mixed(q[1], q[2], q[3], q[0], k)
      && XorB(m[2], k) == Mixed(q[2], q[3], q[0], q[1], k) && XorB(m[3], k) == Mixed(q[3], q[0], q[1], q[2], k)
  {
    hide XorB, Lin, Mixed;
    assert q == [q[0], q[1], q[2], q[3]];
    MixedRows(q[0], q[1], q[2], q[3], k);
  }

  lemma TurnIs(s: block, k: block)
    ensures XorBlocks(MixColumns(ShiftRows(SubBytes(s))), k) == Turn(Box(), s, k)
  {
    hide XorB, SubByte, Mixed, MixColumn, SubBytes, ShiftRows, XorBlocks;
    ShuffledIs(s);
    var u := Shuffled(s);
    XorFlat(MixColumn(u[0..4]), MixColumn(u[4..8]), MixColumn(u[8..12]), MixColumn(u[12..16]), k);
    Quarters(u);
    MixedColumns(u[0..4], k[0], k[1], k[2], k[3]);
    MixedColumns(u[4..8], k[4], k[5], k[6], k[7]);
    MixedColumns(u[8..12], k[8], k[9], k[10], k[11]);
    MixedColumns(u[12..16], k[12], k[13], k[14], k[15]);
  }

  lemma MixedColumns(q: quad, k: byte, l: byte, m: byte, n: byte)
    ensures var c := MixColumn(q);
      && XorB(c[0], k) == Mixed(q[0], q[1], q[2], q[3], k) && XorB(c[1], l) == Mixed(q[1], q[2], q[3], q[0], l)
      && XorB(c[2], m) == Mixed(q[2], q[3], q[0], q[1], m) && XorB(c[3], n) == Mixed(q[3], q[0], q[1], q[2], n)
  {
    hide XorB, Mixed, MixColumn;
    MixedColumn(q, k);
    MixedColumn(q, l);
    MixedColumn(q, m);
    MixedColumn(q, n);
  }

  lemma LastTurnIs(s: block, k: block)
    ensures XorBlocks(ShiftRows(SubBytes(s)), k) == LastTurn(Box(), s, k)
  {
    hide XorB, SubByte, SubBytes, ShiftRows, XorBlocks;
    ShuffledIs(s);
    var u := Shuffled(s);
    Quarters(u);
    XorFlat(u[0..4], u[4..8], u[8..12], u[12..16], k);
  }

  lemma NextState(p: block, n: nat, s: block, k: block)
    requires 1 <= n <= 9 && Rounds(KEY0, p, n - 1) == s && RoundKey(KEY0, n) == k
    ensures Rounds(KEY0, p, n) == Turn(Box(), s, k)
  {
    hide Turn, XorBlocks, MixColumns, ShiftRows, SubBytes, RoundKey;
    TurnIs(s, k);
  }

  /** The states s0 to s10 of an encryption of p lead to its ciphertext. */
  lemma CourseEncrypts(p: block, s0: block, s1: block, s2: block, s3: block, s4: block, s5: block,
                       s6: block, s7: block, s8: block, s9: block, s10: block)
    requires s0 == AddFlat(p, KEY0)
    requires s1 == Turn(Box(), s0, KEY1)
    requires s2 == Turn(Box(), s1, KEY2)
    requires s3 == Turn(Box(), s2, KEY3)
    requires s4 == Turn(Box(), s3, KEY4)
    requires s5 == Turn(Box(), s4, KEY5)
    requires s6 == Turn(Box(), s5, KEY6)
    requires s7 == Turn(Box(), s6, KEY7)
    requires s8 == Turn(Box(), s7, KEY8)
    requires s9 == Turn(Box(), s8, KEY9)
    requires s10 == LastTurn(Box(), s9, KEY10)
    ensures Cipher(KEY0, p) == s10
  {
    hide Turn, LastTurn, XorBlocks, AddFlat, RoundKey, SubBytes, ShiftRows, Rounds;
    KeyExpansionExample();
    RoundZero(p);
    AddIs(p, KEY0);
    NextState(p, 1, s0, KEY1);
    NextState(p, 2, s1, KEY2);
    NextState(p, 3, s2, KEY3);
    NextState(p, 4, s3, KEY4);
    NextState(p, 5, s4, KEY5);
    NextState(p, 6, s5, KEY6);
    NextState(p, 7, s6, KEY7);
    NextState(p, 8, s7, KEY8);
    NextState(p, 9, s8, KEY9);
    LastTurnIs(s9, KEY10);
  }

  lemma RoundZero(p: block)
    ensures Rounds(KEY0, p, 0) == XorBlocks(p, RoundKey(KEY0, 0))
  {}

  // ---- The cipher, FIPS 197 Appendix B ----

  const FIPS: block := [0x32, 0x43, 0xF6, 0xA8, 0x88, 0x5A, 0x30, 0x8D, 0x31, 0x31, 0x98, 0xA2, 0xE0, 0x37, 0x07, 0x34]
  const FIPS0: block := [0x19, 0x3D, 0xE3, 0xBE, 0xA0, 0xF4, 0xE2, 0x2B, 0x9A, 0xC6, 0x8D, 0x2A, 0xE9, 0xF8, 0x48, 0x08]
  const FIPS1: block := [0xA4, 0x9C, 0x7F, 0xF2, 0x68, 0x9F, 0x35, 0x2B, 0x6B, 0x5B, 0xEA, 0x43, 0x02, 0x6A, 0x50, 0x49]
  const FIPS2: block := [0xAA, 0x8F, 0x5F, 0x03, 0x61, 0xDD, 0xE3, 0xEF, 0x82, 0xD2, 0x4A, 0xD2, 0x68, 0x32, 0x46, 0x9A]
  const FIPS3: block := [0x48, 0x6C, 0x4E, 0xEE, 0x67, 0x1D, 0x9D, 0x0D, 0x4D, 0xE3, 0xB1, 0x38, 0xD6, 0x5F, 0x58, 0xE7]
  const FIPS4: block := [0xE0, 0x92, 0x7F, 0xE8, 0xC8, 0x63, 0x63, 0xC0, 0xD9, 0xB1, 0x35, 0x50, 0x85, 0xB8, 0xBE, 0x01]
  const FIPS5: block := [0xF1, 0x00, 0x6F, 0x55, 0xC1, 0x92, 0x4C, 0xEF, 0x7C, 0xC8, 0x8B, 0x32, 0x5D, 0xB5, 0xD5, 0x0C]
  const FIPS6: block := [0x26, 0x0E, 0x2E, 0x17, 0x3D, 0x41, 0xB7, 0x7D, 0xE8, 0x64, 0x72, 0xA9, 0xFD, 0xD2, 0x8B, 0x25]
  const FIPS7: block := [0x5A, 0x41, 0x42, 0xB1, 0x19, 0x49, 0xDC, 0x1F, 0xA3, 0xE0, 0x19, 0x65, 0x7A, 0x8C, 0x04, 0x0C]
  const FIPS8: block := [0xEA, 0x83, 0x5C, 0xF0, 0x04, 0x45, 0x33, 0x2D, 0x65, 0x5D, 0x98, 0xAD, 0x85, 0x96, 0xB0, 0xC5]
  const FIPS9: block := [0xEB, 0x40, 0xF2, 0x1E, 0x59, 0x2E, 0x38, 0x84, 0x8B, 0xA1, 0x13, 0xE7, 0x1B, 0xC3, 0x42, 0xD2]
  const FIPS10: block :=
    [0x39, 0x25, 0x84, 0x1D, 0x02, 0xDC, 0x09, 0xFB, 0xDC, 0x11, 0x85, 0x97, 0x19, 0x6A, 0x0B, 0x32]

  lemma Fips0() ensures AddFlat(FIPS, KEY0) == FIPS0 {}
  lemma Fips1(f: byte -> byte) requires IsFigure7(f) ensures Turn(f, FIPS0, KEY1) == FIPS1 {}
  lemma Fips2(f: byte -> byte) requires IsFigure7(f) ensures Turn(f, FIPS1, KEY2) == FIPS2 {}
  lemma Fips3(f: byte -> byte) requires IsFigure7(f) ensures Turn(f, FIPS2, KEY3) == FIPS3 {}
  lemma Fips4(f: byte -> byte) requires IsFigure7(f) ensures Turn(f, FIPS3, KEY4) == FIPS4 {}
  lemma Fips5(f: byte -> byte) requires IsFigure7(f) ensures Turn(f, FIPS4, KEY5) == FIPS5 {}
  lemma Fips6(f: byte -> byte) requires IsFigure7(f) ensures Turn(f, FIPS5, KEY6) == FIPS6 {}
  lemma Fips7(f: byte -> byte) requires IsFigure7(f) ensures Turn(f, FIPS6, KEY7) == FIPS7 {}
  lemma Fips8(f: byte -> byte) requires IsFigure7(f) ensures Turn(f, FIPS7, KEY8) == FIPS8 {}
  lemma Fips9(f: byte -> byte) requires IsFigure7(f) ensures Turn(f, FIPS8, KEY9) == FIPS9 {}
  lemma Fips10(f: byte -> byte) requires IsFigure7(f) ensures LastTurn(f, FIPS9, KEY10) == FIPS10 {}

  /** The ciphertext of 3243f6a8 885a308d 313198a2 e0370734 under that key. */
  lemma CipherExample()
    ensures Cipher(KEY0, FIPS) == FIPS10
  {
    hide *;
    Fips0();
    SboxIsFigure7();
    Fips1(Box());
    Fips2(Box());
    Fips3(Box());
    Fips4(Box());
    Fips5(Box());
    Fips6(Box());
    Fips7(Box());
    Fips8(Box());
    Fips9(Box());
    Fips10(Box());
    CourseEncrypts(FIPS, FIPS0, FIPS1, FIPS2, FIPS3, FIPS4, FIPS5, FIPS6, FIPS7, FIPS8, FIPS9, FIPS10);
  }
}
