/**
 * Known answers for AES-CMAC (core/uds_aes_cmac.c): subkeys and tags of section 4 of
 * RFC 4493, and the tag of an eight-byte seed.
 */
module CmacExamples {
  import opened Bytes
  import opened Gf256
  import opened Aes
  import opened AesExamples
  import opened Cmac

  // ---- The zero block, AES-128(key, 0) ----

  const NIL: block := [0x00, 0x00, 0x00, 0x00, 0x00, 0x00, 0x00, 0x00, 0x00, 0x00, 0x00, 0x00, 0x00, 0x00, 0x00, 0x00]
  const NIL0: block := [0x2B, 0x7E, 0x15, 0x16, 0x28, 0xAE, 0xD2, 0xA6, 0xAB, 0xF7, 0x15, 0x88, 0x09, 0xCF, 0x4F, 0x3C]
  const NIL1: block := [0xDC, 0xD8, 0x7F, 0x6F, 0x9B, 0x60, 0xAA, 0x8F, 0x1F, 0x01, 0x0F, 0x04, 0x57, 0x90, 0xA2, 0xD3]
  const NIL2: block := [0x9E, 0x03, 0x85, 0x09, 0x44, 0x9C, 0x46, 0x72, 0xC3, 0x2B, 0x0A, 0x75, 0x38, 0xDD, 0x82, 0xA0]
  const NIL3: block := [0xD5, 0x65, 0x67, 0x02, 0x6B, 0xC0, 0x31, 0xF3, 0xCD, 0x76, 0x64, 0xE0, 0x29, 0xF8, 0xFC, 0x32]
  const NIL4: block := [0x5C, 0xCE, 0xFF, 0xFB, 0xD9, 0xE1, 0xFE, 0x98, 0x9C, 0xD7, 0xDF, 0x39, 0x7B, 0x87, 0xE8, 0xA7]
  const NIL5: block := [0x91, 0x95, 0xB7, 0xF8, 0x90, 0x13, 0x9A, 0x53, 0x04, 0x7E, 0x97, 0x48, 0x7C, 0x11, 0xE4, 0xCB]
  const NIL6: block := [0x64, 0x6F, 0x75, 0x29, 0xF7, 0x6C, 0xBC, 0x45, 0xFD, 0x19, 0x93, 0xA6, 0x7E, 0xC5, 0x34, 0xFB]
  const NIL7: block := [0xEB, 0xC7, 0x56, 0x59, 0x55, 0x09, 0xB1, 0xD6, 0x2E, 0x77, 0x2E, 0xA9, 0x11, 0x95, 0x21, 0xC4]
  const NIL8: block := [0x0D, 0x76, 0xDD, 0x09, 0x64, 0x57, 0x14, 0x48, 0x6A, 0x70, 0x96, 0x5F, 0x2A, 0x08, 0x88, 0x01]
  const NIL9: block := [0x18, 0xC1, 0x55, 0xA2, 0xA9, 0x4D, 0x5E, 0x73, 0xEF, 0xB9, 0x74, 0x12, 0xFB, 0x13, 0x78, 0x1D]
  const NIL10: block := [0x7D, 0xF7, 0x6B, 0x0C, 0x1A, 0xB8, 0x99, 0xB3, 0x3E, 0x42, 0xF0, 0x47, 0xB9, 0x1B, 0x54, 0x6F]

  lemma Nil0() ensures AddFlat(NIL, KEY0) == NIL0 {}
  lemma Nil1(f: byte -> byte) requires IsFigure7(f) ensures Turn(f, NIL0, KEY1) == NIL1 {}
  lemma Nil2(f: byte -> byte) requires IsFigure7(f) ensures Turn(f, NIL1, KEY2) == NIL2 {}
  lemma Nil3(f: byte -> byte) requires IsFigure7(f) ensures Turn(f, NIL2, KEY3) == NIL3 {}
  lemma Nil4(f: byte -> byte) requires IsFigure7(f) ensures Turn(f, NIL3, KEY4) == NIL4 {}
  lemma Nil5(f: byte -> byte) requires IsFigure7(f) ensures Turn(f, NIL4, KEY5) == NIL5 {}
  lemma Nil6(f: byte -> byte) requires IsFigure7(f) ensures Turn(f, NIL5, KEY6) == NIL6 {}
  lemma Nil7(f: byte -> byte) requires IsFigure7(f) ensures Turn(f, NIL6, KEY7) == NIL7 {}
  lemma Nil8(f: byte -> byte) requires IsFigure7(f) ensures Turn(f, NIL7, KEY8) == NIL8 {}
  lemma Nil9(f: byte -> byte) requires IsFigure7(f) ensures Turn(f, NIL8, KEY9) == NIL9 {}
  lemma Nil10(f: byte -> byte) requires IsFigure7(f) ensures LastTurn(f, NIL9, KEY10) == NIL10 {}

  lemma NilEncrypts()
    ensures Cipher(KEY0, NIL) == NIL10
  {
    hide *;
    Nil0();
    SboxIsFigure7();
    Nil1(Box());
    Nil2(Box());
    Nil3(Box());
    Nil4(Box());
    Nil5(Box());
    Nil6(Box());
    Nil7(Box());
    Nil8(Box());
    Nil9(Box());
    Nil10(Box());
    CourseEncrypts(NIL, NIL0, NIL1, NIL2, NIL3, NIL4, NIL5, NIL6, NIL7, NIL8, NIL9, NIL10);
  }

  // ---- The one block of a 16-byte message ----

  const ONE: block := [0x90, 0x2F, 0x68, 0xFA, 0x1B, 0x31, 0xAC, 0xF0, 0x95, 0xB8, 0x9E, 0x9E, 0x01, 0xA5, 0xBF, 0xF4]
  const ONE0: block := [0xBB, 0x51, 0x7D, 0xEC, 0x33, 0x9F, 0x7E, 0x56, 0x3E, 0x4F, 0x8B, 0x16, 0x08, 0x6A, 0xF0, 0xC8]
  const ONE1: block := [0xCC, 0x12, 0x96, 0x1F, 0xC0, 0xC5, 0x21, 0x60, 0x14, 0xBE, 0xA4, 0x70, 0x96, 0xAC, 0xA3, 0xF9]
  const ONE2: block := [0x45, 0x9C, 0x5A, 0xE9, 0x36, 0xB5, 0xE2, 0xA9, 0x5E, 0x8D, 0xBB, 0xD5, 0xA4, 0x0D, 0xBD, 0x42]
  const ONE3: block := [0x43, 0x56, 0x47, 0xA8, 0xCE, 0x39, 0x70, 0x2A, 0xA1, 0xC4, 0xF8, 0x78, 0x1D, 0x24, 0x31, 0xA0]
  const ONE4: block := [0x4C, 0x59, 0x14, 0xE7, 0x84, 0x71, 0x04, 0xBD, 0xCD, 0x31, 0x4E, 0x2A, 0xAD, 0x99, 0xC5, 0x74]
  const ONE5: block := [0xC5, 0x46, 0xBF, 0x30, 0xA2, 0x2C, 0xF5, 0x34, 0x02, 0xE7, 0x8A, 0x80, 0x71, 0x09, 0x80, 0xF0]
  const ONE6: block := [0x5B, 0xC2, 0x07, 0x87, 0x0B, 0x4A, 0x1D, 0xE2, 0x26, 0x8C, 0xC8, 0xE1, 0x52, 0xEB, 0xF1, 0x3E]
  const ONE7: block := [0x07, 0x4B, 0x1E, 0x04, 0x13, 0x53, 0xE6, 0x65, 0x0C, 0x54, 0x73, 0xB7, 0x7D, 0xE3, 0xB9, 0x25]
  const ONE8: block := [0xE7, 0x63, 0x1F, 0x69, 0x8B, 0xB8, 0x46, 0xDC, 0xDA, 0x2C, 0x29, 0x80, 0x73, 0x2F, 0x82, 0x41]
  const ONE9: block := [0x0D, 0x4C, 0x51, 0x80, 0x1A, 0xE9, 0xA6, 0xED, 0xFF, 0x71, 0x61, 0x7A, 0xD3, 0x1D, 0x8C, 0xC4]
  const ONE10: block := [0x07, 0x0A, 0x16, 0xB4, 0x6B, 0x4D, 0x41, 0x44, 0xF7, 0x9B, 0xDD, 0x9D, 0xD0, 0x4A, 0x28, 0x7C]

  lemma One0() ensures AddFlat(ONE, KEY0) == ONE0 {}
  lemma One1(f: byte -> byte) requires IsFigure7(f) ensures Turn(f, ONE0, KEY1) == ONE1 {}
  lemma One2(f: byte -> byte) requires IsFigure7(f) ensures Turn(f, ONE1, KEY2) == ONE2 {}
  lemma One3(f: byte -> byte) requires IsFigure7(f) ensures Turn(f, ONE2, KEY3) == ONE3 {}
  lemma One4(f: byte -> byte) requires IsFigure7(f) ensures Turn(f, ONE3, KEY4) == ONE4 {}
  lemma One5(f: byte -> byte) requires IsFigure7(f) ensures Turn(f, ONE4, KEY5) == ONE5 {}
  lemma One6(f: byte -> byte) requires IsFigure7(f) ensures Turn(f, ONE5, KEY6) == ONE6 {}
  lemma One7(f: byte -> byte) requires IsFigure7(f) ensures Turn(f, ONE6, KEY7) == ONE7 {}
  lemma One8(f: byte -> byte) requires IsFigure7(f) ensures Turn(f, ONE7, KEY8) == ONE8 {}
  lemma One9(f: byte -> byte) requires IsFigure7(f) ensures Turn(f, ONE8, KEY9) == ONE9 {}
  lemma One10(f: byte -> byte) requires IsFigure7(f) ensures LastTurn(f, ONE9, KEY10) == ONE10 {}

  lemma OneEncrypts()
    ensures Cipher(KEY0, ONE) == ONE10
  {
    hide *;
    One0();
    SboxIsFigure7();
    One1(Box());
    One2(Box());
    One3(Box());
    One4(Box());
    One5(Box());
    One6(Box());
    One7(Box());
    One8(Box());
    One9(Box());
    One10(Box());
    CourseEncrypts(ONE, ONE0, ONE1, ONE2, ONE3, ONE4, ONE5, ONE6, ONE7, ONE8, ONE9, ONE10);
  }

  // ---- The padded block of an eight-byte seed ----

  const SEED: block := [0x9C, 0x1C, 0x12, 0xD2, 0x44, 0xA2, 0x66, 0xCD, 0x79, 0x0B, 0xC1, 0x1E, 0xE4, 0x6D, 0x51, 0x3B]
  const SEED0: block := [0xB7, 0x62, 0x07, 0xC4, 0x6C, 0x0C, 0xB4, 0x6B, 0xD2, 0xFC, 0xD4, 0x96, 0xED, 0xA2, 0x1E, 0x07]
  const SEED1: block := [0x7D, 0xA9, 0x6D, 0xD0, 0x8D, 0xF5, 0x0C, 0xBB, 0xA6, 0x49, 0xA6, 0xFC, 0x78, 0x6A, 0x23, 0xE6]
  const SEED2: block := [0x8C, 0x08, 0x4D, 0x2D, 0xDB, 0xA7, 0x03, 0x59, 0xC1, 0xBB, 0xFB, 0xE7, 0x30, 0xF1, 0xB5, 0xF6]
  const SEED3: block := [0x5C, 0x0F, 0xA7, 0x06, 0x06, 0xDC, 0x6F, 0x7A, 0x3E, 0xF7, 0x3C, 0x03, 0xDA, 0x07, 0xED, 0x4F]
  const SEED4: block := [0x85, 0xBB, 0x33, 0xE1, 0xF4, 0x7D, 0x47, 0x2D, 0x1B, 0x6C, 0x9F, 0xC0, 0x3C, 0x28, 0x4A, 0xD1]
  const SEED5: block := [0x1E, 0xEB, 0x41, 0x02, 0xC7, 0x05, 0xD6, 0x30, 0xC8, 0xB3, 0xCD, 0x0A, 0xE3, 0x9C, 0x9A, 0xBF]
  const SEED6: block := [0x81, 0xF8, 0xC3, 0x2A, 0xFE, 0xB3, 0x67, 0x97, 0xEE, 0x2C, 0xA1, 0x37, 0x59, 0xBE, 0x35, 0x1F]
  const SEED7: block := [0x13, 0x14, 0xA9, 0xDE, 0xD2, 0x42, 0x00, 0x13, 0x9B, 0x33, 0x16, 0x41, 0x1F, 0xE1, 0xF2, 0xE2]
  const SEED8: block := [0xBB, 0xA6, 0x1F, 0xE6, 0x0E, 0x38, 0xE2, 0x66, 0xA4, 0xC7, 0x23, 0x8D, 0x11, 0x84, 0x4B, 0xF0]
  const SEED9: block := [0xC0, 0x75, 0x48, 0xF4, 0x38, 0x86, 0x45, 0xB5, 0xA8, 0x4E, 0xF1, 0x63, 0xE1, 0x78, 0x6A, 0xF5]
  const SEED10: block :=
    [0x6A, 0x50, 0x58, 0x4E, 0xCE, 0xC1, 0x27, 0x36, 0x23, 0x83, 0x5E, 0x1D, 0x4E, 0xFE, 0x62, 0x5D]

  lemma Seed0() ensures AddFlat(SEED, KEY0) == SEED0 {}
  lemma Seed1(f: byte -> byte) requires IsFigure7(f) ensures Turn(f, SEED0, KEY1) == SEED1 {}
  lemma Seed2(f: byte -> byte) requires IsFigure7(f) ensures Turn(f, SEED1, KEY2) == SEED2 {}
  lemma Seed3(f: byte -> byte) requires IsFigure7(f) ensures Turn(f, SEED2, KEY3) == SEED3 {}
  lemma Seed4(f: byte -> byte) requires IsFigure7(f) ensures Turn(f, SEED3, KEY4) == SEED4 {}
  lemma Seed5(f: byte -> byte) requires IsFigure7(f) ensures Turn(f, SEED4, KEY5) == SEED5 {}
  lemma Seed6(f: byte -> byte) requires IsFigure7(f) ensures Turn(f, SEED5, KEY6) == SEED6 {}
  lemma Seed7(f: byte -> byte) requires IsFigure7(f) ensures Turn(f, SEED6, KEY7) == SEED7 {}
  lemma Seed8(f: byte -> byte) requires IsFigure7(f) ensures Turn(f, SEED7, KEY8) == SEED8 {}
  lemma Seed9(f: byte -> byte) requires IsFigure7(f) ensures Turn(f, SEED8, KEY9) == SEED9 {}
  lemma Seed10(f: byte -> byte) requires IsFigure7(f) ensures LastTurn(f, SEED9, KEY10) == SEED10 {}

  lemma SeedEncrypts()
    ensures Cipher(KEY0, SEED) == SEED10
  {
    hide *;
    Seed0();
    SboxIsFigure7();
    Seed1(Box());
    Seed2(Box());
    Seed3(Box());
    Seed4(Box());
    Seed5(Box());
    Seed6(Box());
    Seed7(Box());
    Seed8(Box());
    Seed9(Box());
    Seed10(Box());
    CourseEncrypts(SEED, SEED0, SEED1, SEED2, SEED3, SEED4, SEED5, SEED6, SEED7, SEED8, SEED9, SEED10);
  }

  // ---- The three blocks of a 40-byte message ----

  const FST: block := [0x6B, 0xC1, 0xBE, 0xE2, 0x2E, 0x40, 0x9F, 0x96, 0xE9, 0x3D, 0x7E, 0x11, 0x73, 0x93, 0x17, 0x2A]
  const FST0: block := [0x40, 0xBF, 0xAB, 0xF4, 0x06, 0xEE, 0x4D, 0x30, 0x42, 0xCA, 0x6B, 0x99, 0x7A, 0x5C, 0x58, 0x16]
  const FST1: block := [0xF2, 0x65, 0xE8, 0xD5, 0x1F, 0xD2, 0x39, 0x7B, 0xC3, 0xB9, 0x97, 0x6D, 0x90, 0x76, 0x50, 0x5C]
  const FST2: block := [0xFD, 0xF3, 0x7C, 0xDB, 0x4B, 0x0C, 0x8C, 0x1B, 0xF7, 0xFC, 0xD8, 0xE9, 0x4A, 0xA9, 0xBB, 0xF8]
  const FST3: block := [0xAC, 0xD1, 0xEC, 0x9C, 0xA2, 0x42, 0xE2, 0xC3, 0x1F, 0x69, 0x0F, 0x7A, 0xB7, 0x04, 0xB9, 0x0F]
  const FST4: block := [0xA2, 0x61, 0x6E, 0x5F, 0x44, 0xA5, 0x4D, 0x39, 0xC0, 0x29, 0xE2, 0x00, 0x92, 0xB7, 0x64, 0xE9]
  const FST5: block := [0x2C, 0x4A, 0xF3, 0x14, 0x32, 0xC3, 0xEF, 0xC9, 0xC8, 0xA9, 0xB8, 0x7B, 0x25, 0x2E, 0xCD, 0xA7]
  const FST6: block := [0xCD, 0x4D, 0xC0, 0x13, 0x7E, 0xB3, 0xBA, 0x19, 0x93, 0xB9, 0x39, 0xFF, 0x2B, 0xD3, 0xBC, 0xF7]
  const FST7: block := [0xE2, 0x6D, 0xBB, 0x7D, 0x40, 0xD2, 0x21, 0x34, 0xE3, 0xB7, 0xFD, 0xA2, 0x6B, 0x9B, 0x07, 0x7C]
  const FST8: block := [0x41, 0xD7, 0xC6, 0x53, 0x7D, 0x66, 0x91, 0x40, 0xDD, 0x2F, 0x17, 0x9D, 0x02, 0xAC, 0xC5, 0x1B]
  const FST9: block := [0xBB, 0x36, 0xC7, 0xEB, 0x88, 0x33, 0x4D, 0x49, 0xA4, 0xE7, 0x11, 0x2E, 0x74, 0xF1, 0x82, 0xC4]
  const FST10: block := [0x3A, 0xD7, 0x7B, 0xB4, 0x0D, 0x7A, 0x36, 0x60, 0xA8, 0x9E, 0xCA, 0xF3, 0x24, 0x66, 0xEF, 0x97]

  lemma Fst0() ensures AddFlat(FST, KEY0) == FST0 {}
  lemma Fst1(f: byte -> byte) requires IsFigure7(f) ensures Turn(f, FST0, KEY1) == FST1 {}
  lemma Fst2(f: byte -> byte) requires IsFigure7(f) ensures Turn(f, FST1, KEY2) == FST2 {}
  lemma Fst3(f: byte -> byte) requires IsFigure7(f) ensures Turn(f, FST2, KEY3) == FST3 {}
  lemma Fst4(f: byte -> byte) requires IsFigure7(f) ensures Turn(f, FST3, KEY4) == FST4 {}
  lemma Fst5(f: byte -> byte) requires IsFigure7(f) ensures Turn(f, FST4, KEY5) == FST5 {}
  lemma Fst6(f: byte -> byte) requires IsFigure7(f) ensures Turn(f, FST5, KEY6) == FST6 {}
  lemma Fst7(f: byte -> byte) requires IsFigure7(f) ensures Turn(f, FST6, KEY7) == FST7 {}
  lemma Fst8(f: byte -> byte) requires IsFigure7(f) ensures Turn(f, FST7, KEY8) == FST8 {}
  lemma Fst9(f: byte -> byte) requires IsFigure7(f) ensures Turn(f, FST8, KEY9) == FST9 {}
  lemma Fst10(f: byte -> byte) requires IsFigure7(f) ensures LastTurn(f, FST9, KEY10) == FST10 {}

  lemma FstEncrypts()
    ensures Cipher(KEY0, FST) == FST10
  {
    hide *;
    Fst0();
    SboxIsFigure7();
    Fst1(Box());
    Fst2(Box());
    Fst3(Box());
    Fst4(Box());
    Fst5(Box());
    Fst6(Box());
    Fst7(Box());
    Fst8(Box());
    Fst9(Box());
    Fst10(Box());
    CourseEncrypts(FST, FST0, FST1, FST2, FST3, FST4, FST5, FST6, FST7, FST8, FST9, FST10);
  }

  const SND: block := [0x94, 0xFA, 0xF1, 0xE3, 0x13, 0x79, 0x9A, 0xFC, 0x36, 0x29, 0xA5, 0x5F, 0x61, 0xC9, 0x61, 0xC6]
  const SND0: block := [0xBF, 0x84, 0xE4, 0xF5, 0x3B, 0xD7, 0x48, 0x5A, 0x9D, 0xDE, 0xB0, 0xD7, 0x68, 0x06, 0x2E, 0xFA]
  const SND1: block := [0x68, 0xF1, 0x5A, 0xBC, 0xA7, 0x39, 0x80, 0x77, 0xF9, 0x26, 0x03, 0xBA, 0x1D, 0x6F, 0xDA, 0xDB]
  const SND2: block := [0x8C, 0x97, 0xE4, 0x3D, 0xF2, 0xA3, 0x13, 0xCD, 0xD8, 0xCB, 0xD2, 0x2D, 0xE1, 0x1C, 0x75, 0x17]
  const SND3: block := [0xAE, 0xC4, 0x53, 0x95, 0xD5, 0x3A, 0x20, 0x72, 0xB7, 0x67, 0x8D, 0x73, 0xA0, 0xD6, 0x71, 0x76]
  const SND4: block := [0xC2, 0x64, 0x33, 0xDB, 0xB3, 0x94, 0xFE, 0x08, 0x53, 0x43, 0x7B, 0x40, 0x1C, 0x9E, 0xAE, 0x95]
  const SND5: block := [0xF3, 0xF9, 0xFD, 0xC0, 0xD5, 0x54, 0xE9, 0xA7, 0xE5, 0x67, 0x93, 0x38, 0x45, 0x3C, 0xBC, 0xE9]
  const SND6: block := [0xD5, 0xA4, 0x0F, 0xAD, 0x5C, 0x0C, 0xA7, 0x77, 0x5C, 0x4D, 0xF8, 0x36, 0xBF, 0x62, 0x51, 0xC6]
  const SND7: block := [0xA4, 0xC7, 0x4F, 0xC7, 0xB1, 0x35, 0x7D, 0x2E, 0x76, 0xCC, 0x47, 0x41, 0xDC, 0xDD, 0x2A, 0x48]
  const SND8: block := [0x2B, 0x05, 0x01, 0x68, 0xC0, 0x21, 0xB9, 0xA8, 0xAC, 0x2C, 0x4C, 0x0F, 0x45, 0x05, 0x12, 0x9A]
  const SND9: block := [0xD8, 0xA4, 0xEB, 0x44, 0x69, 0xA7, 0x51, 0xC6, 0x12, 0xD0, 0x76, 0x61, 0x16, 0x68, 0x33, 0x0D]
  const SND10: block := [0xB1, 0x48, 0xC1, 0x7F, 0x30, 0x9E, 0xE6, 0x92, 0x28, 0x7A, 0xE5, 0x7C, 0xF1, 0x2A, 0xDD, 0x49]

  lemma Snd0() ensures AddFlat(SND, KEY0) == SND0 {}
  lemma Snd1(f: byte -> byte) requires IsFigure7(f) ensures Turn(f, SND0, KEY1) == SND1 {}
  lemma Snd2(f: byte -> byte) requires IsFigure7(f) ensures Turn(f, SND1, KEY2) == SND2 {}
  lemma Snd3(f: byte -> byte) requires IsFigure7(f) ensures Turn(f, SND2, KEY3) == SND3 {}
  lemma Snd4(f: byte -> byte) requires IsFigure7(f) ensures Turn(f, SND3, KEY4) == SND4 {}
  lemma Snd5(f: byte -> byte) requires IsFigure7(f) ensures Turn(f, SND4, KEY5) == SND5 {}
  lemma Snd6(f: byte -> byte) requires IsFigure7(f) ensures Turn(f, SND5, KEY6) == SND6 {}
  lemma Snd7(f: byte -> byte) requires IsFigure7(f) ensures Turn(f, SND6, KEY7) == SND7 {}
  lemma Snd8(f: byte -> byte) requires IsFigure7(f) ensures Turn(f, SND7, KEY8) == SND8 {}
  lemma Snd9(f: byte -> byte) requires IsFigure7(f) ensures Turn(f, SND8, KEY9) == SND9 {}
  lemma Snd10(f: byte -> byte) requires IsFigure7(f) ensures LastTurn(f, SND9, KEY10) == SND10 {}

  lemma SndEncrypts()
    ensures Cipher(KEY0, SND) == SND10
  {
    hide *;
    Snd0();
    SboxIsFigure7();
    Snd1(Box());
    Snd2(Box());
    Snd3(Box());
    Snd4(Box());
    Snd5(Box());
    Snd6(Box());
    Snd7(Box());
    Snd8(Box());
    Snd9(Box());
    Snd10(Box());
    CourseEncrypts(SND, SND0, SND1, SND2, SND3, SND4, SND5, SND6, SND7, SND8, SND9, SND10);
  }

  const THD: block := [0x76, 0x5D, 0x71, 0x09, 0xF9, 0x20, 0x64, 0x4F, 0x51, 0x71, 0x24, 0x62, 0x15, 0x47, 0x8C, 0x72]
  const THD0: block := [0x5D, 0x23, 0x64, 0x1F, 0xD1, 0x8E, 0xB6, 0xE9, 0xFA, 0x86, 0x31, 0xEA, 0x1C, 0x88, 0xC3, 0x4E]
  const THD1: block := [0xFB, 0xF9, 0x4F, 0x43, 0xD6, 0x50, 0x51, 0x02, 0x73, 0xC6, 0x74, 0xF5, 0xAA, 0xE9, 0xC2, 0xC7]
  const THD2: block := [0x4D, 0x00, 0xA7, 0xB5, 0x75, 0x66, 0x9F, 0xE7, 0x8D, 0x66, 0x9B, 0x84, 0xB7, 0x52, 0x4B, 0x0F]
  const THD3: block := [0xD7, 0x4F, 0x25, 0x88, 0x55, 0xF6, 0x49, 0xB3, 0x6C, 0x0E, 0x3C, 0xCC, 0x05, 0x3C, 0x0E, 0xDD]
  const THD4: block := [0x1F, 0x29, 0x7C, 0x63, 0xC2, 0xC1, 0x16, 0xF3, 0x62, 0xC0, 0x57, 0xC5, 0xEA, 0x75, 0xE9, 0x94]
  const THD5: block := [0xBE, 0x2E, 0xAE, 0xC4, 0x06, 0x10, 0x28, 0xA1, 0x24, 0x44, 0xB8, 0xCE, 0x11, 0x40, 0x48, 0x9B]
  const THD6: block := [0x17, 0x09, 0x23, 0x1D, 0xAC, 0xB8, 0xCA, 0x3D, 0x7A, 0xD8, 0x3C, 0x92, 0x39, 0x37, 0xCE, 0x68]
  const THD7: block := [0xAF, 0x1F, 0x69, 0x08, 0xEA, 0x2E, 0xC3, 0xE2, 0x9F, 0x1E, 0x2A, 0x35, 0x52, 0x65, 0xF6, 0x92]
  const THD8: block := [0xE1, 0xB2, 0x3B, 0xE0, 0x44, 0x18, 0x9B, 0x10, 0x2A, 0xE2, 0x39, 0x89, 0x9C, 0xF2, 0x14, 0xF6]
  const THD9: block := [0xFB, 0xBA, 0xD1, 0xDB, 0x87, 0x3E, 0x88, 0xB7, 0x51, 0xCA, 0xDF, 0x91, 0x1A, 0x77, 0x33, 0x61]
  const THD10: block := [0xDF, 0xA6, 0x67, 0x47, 0xDE, 0x9A, 0xE6, 0x30, 0x30, 0xCA, 0x32, 0x61, 0x14, 0x97, 0xC8, 0x27]

  lemma Thd0() ensures AddFlat(THD, KEY0) == THD0 {}
  lemma Thd1(f: byte -> byte) requires IsFigure7(f) ensures Turn(f, THD0, KEY1) == THD1 {}
  lemma Thd2(f: byte -> byte) requires IsFigure7(f) ensures Turn(f, THD1, KEY2) == THD2 {}
  lemma Thd3(f: byte -> byte) requires IsFigure7(f) ensures Turn(f, THD2, KEY3) == THD3 {}
  lemma Thd4(f: byte -> byte) requires IsFigure7(f) ensures Turn(f, THD3, KEY4) == THD4 {}
  lemma Thd5(f: byte -> byte) requires IsFigure7(f) ensures Turn(f, THD4, KEY5) == THD5 {}
  lemma Thd6(f: byte -> byte) requires IsFigure7(f) ensures Turn(f, THD5, KEY6) == THD6 {}
  lemma Thd7(f: byte -> byte) requires IsFigure7(f) ensures Turn(f, THD6, KEY7) == THD7 {}
  lemma Thd8(f: byte -> byte) requires IsFigure7(f) ensures Turn(f, THD7, KEY8) == THD8 {}
  lemma Thd9(f: byte -> byte) requires IsFigure7(f) ensures Turn(f, THD8, KEY9) == THD9 {}
  lemma Thd10(f: byte -> byte) requires IsFigure7(f) ensures LastTurn(f, THD9, KEY10) == THD10 {}

  lemma ThdEncrypts()
    ensures Cipher(KEY0, THD) == THD10
  {
    hide *;
    Thd0();
    SboxIsFigure7();
    Thd1(Box());
    Thd2(Box());
    Thd3(Box());
    Thd4(Box());
    Thd5(Box());
    Thd6(Box());
    Thd7(Box());
    Thd8(Box());
    Thd9(Box());
    Thd10(Box());
    CourseEncrypts(THD, THD0, THD1, THD2, THD3, THD4, THD5, THD6, THD7, THD8, THD9, THD10);
  }

  // ---- Subkeys and tags, section 4 of RFC 4493 ----

  const SUBKEY1: block :=
    [0xFB, 0xEE, 0xD6, 0x18, 0x35, 0x71, 0x33, 0x66, 0x7C, 0x85, 0xE0, 0x8F, 0x72, 0x36, 0xA8, 0xDE]
  const SUBKEY2: block :=
    [0xF7, 0xDD, 0xAC, 0x30, 0x6A, 0xE2, 0x66, 0xCC, 0xF9, 0x0B, 0xC1, 0x1E, 0xE4, 0x6D, 0x51, 0x3B]

  function ShiftFlat(s: block): block {
    [ShiftByte(s[0], TopBit(s[1])), ShiftByte(s[1], TopBit(s[2])), ShiftByte(s[2], TopBit(s[3])),
     ShiftByte(s[3], TopBit(s[4])), ShiftByte(s[4], TopBit(s[5])), ShiftByte(s[5], TopBit(s[6])),
     ShiftByte(s[6], TopBit(s[7])), ShiftByte(s[7], TopBit(s[8])), ShiftByte(s[8], TopBit(s[9])),
     ShiftByte(s[9], TopBit(s[10])), ShiftByte(s[10], TopBit(s[11])), ShiftByte(s[11], TopBit(s[12])),
     ShiftByte(s[12], TopBit(s[13])), ShiftByte(s[13], TopBit(s[14])), ShiftByte(s[14], TopBit(s[15])),
     ShiftByte(s[15], 0)]
  }

  lemma ShiftIs(s: block)
    ensures ShiftLeft(s) == ShiftFlat(s)
  {
    hide ShiftByte, TopBit, ShiftLeft;
    Listed(ShiftLeft(s));
    forall i | 0 <= i < 16
      ensures ShiftLeft(s)[i] == ShiftByte(s[i], if i + 1 < 16 then TopBit(s[i + 1]) else 0)
    {
      ShiftLeftAt(s, i);
    }
    ShiftLeftAt(s, 14);
    ShiftLeftAt(s, 15);
  }

  lemma Subkey1() ensures Fold(NIL10, ShiftFlat(NIL10)) == SUBKEY1 {}
  lemma Subkey2() ensures Fold(SUBKEY1, ShiftFlat(SUBKEY1)) == SUBKEY2 {}

  lemma SubkeyExamples()
    ensures K1(KEY0) == SUBKEY1 && K2(KEY0) == SUBKEY2
  {
    hide Cipher, ShiftLeft, ShiftFlat, Fold;
    NilEncrypts();
    ShiftIs(NIL10);
    Subkey1();
    ShiftIs(SUBKEY1);
    Subkey2();
  }

  const MESSAGE16: block :=
    [0x6B, 0xC1, 0xBE, 0xE2, 0x2E, 0x40, 0x9F, 0x96, 0xE9, 0x3D, 0x7E, 0x11, 0x73, 0x93, 0x17, 0x2A]
  const MESSAGE40: seq<byte> := MESSAGE16 +
    [0xAE, 0x2D, 0x8A, 0x57, 0x1E, 0x03, 0xAC, 0x9C, 0x9E, 0xB7, 0x6F, 0xAC, 0x45, 0xAF, 0x8E, 0x51] +
    [0x30, 0xC8, 0x1C, 0x46, 0xA3, 0x5C, 0xE4, 0x11]

  lemma ZeroAdds(s: block)
    ensures XorBlocks(ZERO, s) == s
  {
    hide XorB;
    forall b {
      XorBZero(b);
    }
  }

  lemma One() ensures AddFlat(MESSAGE16, SUBKEY1) == ONE {}

  /** Example 2: a message of one complete block. */
  lemma TagExample16()
    ensures Tag(KEY0, MESSAGE16) == ONE10
  {
    hide Cipher, XorBlocks, AddFlat, K1, K2;
    SubkeyExamples();
    OneEncrypts();
    One();
    AddIs(MESSAGE16, SUBKEY1);
    ZeroAdds(ONE);
    var r := Masked(KEY0, MESSAGE16);
    assert MESSAGE16[0..] == MESSAGE16;
    assert r == XorBlocks(MESSAGE16, SUBKEY1);
    assert r[0..16] == r;
    assert Chain(KEY0, r, 0) == ZERO;
  }

  const SEED_BYTES: seq<byte> := [0x6B, 0xC1, 0xBE, 0xE2, 0x2E, 0x40, 0x00, 0x01]

  const SEED_PADDED: block :=
    [0x6B, 0xC1, 0xBE, 0xE2, 0x2E, 0x40, 0x00, 0x01, 0x80, 0x00, 0x00, 0x00, 0x00, 0x00, 0x00, 0x00]

  lemma SeedPadded() ensures PadBlock(SEED_BYTES) == SEED_PADDED {}
  lemma SeedBlock() ensures AddFlat(SEED_PADDED, SUBKEY2) == SEED {}

  /** The tag of an eight-byte seed. */
  lemma SeedTag()
    ensures Tag(KEY0, SEED_BYTES) == SEED10
  {
    hide Cipher, XorBlocks, AddFlat, K1, K2, PadBlock;
    SubkeyExamples();
    SeedEncrypts();
    SeedPadded();
    SeedBlock();
    AddIs(SEED_PADDED, SUBKEY2);
    ZeroAdds(SEED);
    ShortTag(KEY0, SEED_BYTES);
  }

  const SECOND: block :=
    [0xAE, 0x2D, 0x8A, 0x57, 0x1E, 0x03, 0xAC, 0x9C, 0x9E, 0xB7, 0x6F, 0xAC, 0x45, 0xAF, 0x8E, 0x51]
  const REST_PADDED: block :=
    [0x30, 0xC8, 0x1C, 0x46, 0xA3, 0x5C, 0xE4, 0x11, 0x80, 0x00, 0x00, 0x00, 0x00, 0x00, 0x00, 0x00]
  const REST_MASKED: block :=
    [0xC7, 0x15, 0xB0, 0x76, 0xC9, 0xBE, 0x82, 0xDD, 0x79, 0x0B, 0xC1, 0x1E, 0xE4, 0x6D, 0x51, 0x3B]

  lemma RestPadded() ensures PadBlock(MESSAGE40[32..]) == REST_PADDED {}
  lemma RestMasked() ensures AddFlat(REST_PADDED, SUBKEY2) == REST_MASKED {}
  lemma Block2() ensures AddFlat(FST10, SECOND) == SND {}
  lemma Block3() ensures AddFlat(SND10, REST_MASKED) == THD {}

  lemma Blocks40()
    ensures var r := Masked(KEY0, MESSAGE40);
      |r| == 48 && BlockAt(r, 0) == FST && BlockAt(r, 1) == SECOND && BlockAt(r, 2) == REST_MASKED
  {
    hide Cipher, XorBlocks, AddFlat, K1, K2, PadBlock;
    SubkeyExamples();
    RestPadded();
    RestMasked();
    AddIs(REST_PADDED, SUBKEY2);
    var r := Masked(KEY0, MESSAGE40);
    assert r[0..16] == MESSAGE40[..16] == FST && r[16..32] == MESSAGE40[16..32] == SECOND;
    assert r[32..48] == REST_MASKED;
  }

  lemma ChainStep(s: seq<byte>, n: nat)
    requires 16 * n + 16 <= |s|
    ensures Chain(KEY0, s, 0) == ZERO
    ensures Chain(KEY0, s, n + 1) == Cipher(KEY0, XorBlocks(Chain(KEY0, s, n), BlockAt(s, n)))
  {
    hide Cipher, XorBlocks, BlockAt;
  }

  /** Example 3: 40 bytes, a chain of three blocks of which the last is padded. */
  lemma TagExample40()
    ensures Tag(KEY0, MESSAGE40) == THD10
  {
    hide Cipher, XorBlocks, AddFlat, Chain, Masked, BlockAt;
    FstEncrypts();
    SndEncrypts();
    ThdEncrypts();
    Block2();
    AddIs(FST10, SECOND);
    Block3();
    AddIs(SND10, REST_MASKED);
    ZeroAdds(FST);
    Blocks40();
    var r := Masked(KEY0, MESSAGE40);
    ChainStep(r, 0);
    ChainStep(r, 1);
    ChainStep(r, 2);
  }
}
