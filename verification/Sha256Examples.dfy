/**
 * What fixes the word functions and constants of SHA-256 (platform/uds_sha256.c): the
 * functions bit by bit, the constants as roots of primes, and the digest of "abc".
 */
module Sha256Examples {
  import opened Bytes
  import opened Sha256

  // ---- The word functions bit by bit, sections 2.2.2, 3.2 and 4.1.2 of FIPS 180-4 ----

  /** Bit i of x, counted from the least significant. */
  predicate Bit(x: word, i: bv6)
    requires i < 32
  {
    (x >> i) & 1 == 1
  }

  /** The bit n places up, around the end. */
  function Up(i: bv6, n: bv6): (j: bv6)
    requires i < 32 && n < 32
    ensures j < 32
  {
    (i + n) & 31
  }

  /** Where x has ones Ch is y, where it has zeros z; m selects the bits looked at. */
  lemma ChBits(x: word, y: word, z: word, m: word)
    ensures x & m == m ==> Ch(x, y, z) & m == y & m
    ensures x & m == 0 ==> Ch(x, y, z) & m == z & m
  {}

  /** Where two agree Maj is what they agree on, where x and y differ it is z. */
  lemma MajBits(x: word, y: word, z: word, m: word)
    ensures x & m == y & m ==> Maj(x, y, z) & m == x & m
    ensures x & m == !y & m ==> Maj(x, y, z) & m == z & m
  {}

  lemma Rotr2Bits(x: word, i: bv6)
    requires i < 32
    ensures Bit(Rotr(x, 2), i) == Bit(x, Up(i, 2))
  {}

  lemma Rotr13Bits(x: word, i: bv6)
    requires i < 32
    ensures Bit(Rotr(x, 13), i) == Bit(x, Up(i, 13))
  {}

  lemma Rotr22Bits(x: word, i: bv6)
    requires i < 32
    ensures Bit(Rotr(x, 22), i) == Bit(x, Up(i, 22))
  {}

  lemma Rotr6Bits(x: word, i: bv6)
    requires i < 32
    ensures Bit(Rotr(x, 6), i) == Bit(x, Up(i, 6))
  {}

  lemma Rotr11Bits(x: word, i: bv6)
    requires i < 32
    ensures Bit(Rotr(x, 11), i) == Bit(x, Up(i, 11))
  {}

  lemma Rotr25Bits(x: word, i: bv6)
    requires i < 32
    ensures Bit(Rotr(x, 25), i) == Bit(x, Up(i, 25))
  {}

  lemma Rotr7Bits(x: word, i: bv6)
    requires i < 32
    ensures Bit(Rotr(x, 7), i) == Bit(x, Up(i, 7))
  {}

  lemma Rotr18Bits(x: word, i: bv6)
    requires i < 32
    ensures Bit(Rotr(x, 18), i) == Bit(x, Up(i, 18))
  {}

  lemma Rotr17Bits(x: word, i: bv6)
    requires i < 32
    ensures Bit(Rotr(x, 17), i) == Bit(x, Up(i, 17))
  {}

  lemma Rotr19Bits(x: word, i: bv6)
    requires i < 32
    ensures Bit(Rotr(x, 19), i) == Bit(x, Up(i, 19))
  {}

  lemma ShrBits(x: word, i: bv6)
    requires i < 32
    ensures Bit(x >> 3, i) == (i < 29 && Bit(x, i + 3))
    ensures Bit(x >> 10, i) == (i < 22 && Bit(x, i + 10))
  {}

  lemma XorBits(x: word, y: word, i: bv6)
    requires i < 32
    ensures Bit(x ^ y, i) == (Bit(x, i) != Bit(y, i))
  {}

  function Parity(x: word, y: word, z: word): word {
    x ^ y ^ z
  }

  // The four sums of rotations and shifts: each bit is the parity of three bits of x.

  lemma BSig0Is(x: word)
    ensures BSig0(x) == Parity(Rotr(x, 2), Rotr(x, 13), Rotr(x, 22))
  {
    hide Rotr;
  }

  lemma BSig0Bits(x: word, i: bv6)
    requires i < 32
    ensures Bit(BSig0(x), i) == ((Bit(x, Up(i, 2)) != Bit(x, Up(i, 13))) != Bit(x, Up(i, 22)))
  {
    hide Bit, Rotr, Up, BSig0, Parity;
    BSig0Is(x);
    Rotr2Bits(x, i);
    Rotr13Bits(x, i);
    Rotr22Bits(x, i);
    ParityBits(Rotr(x, 2), Rotr(x, 13), Rotr(x, 22), i);
  }

  lemma BSig1Is(x: word)
    ensures BSig1(x) == Parity(Rotr(x, 6), Rotr(x, 11), Rotr(x, 25))
  {
    hide Rotr;
  }

  lemma BSig1Bits(x: word, i: bv6)
    requires i < 32
    ensures Bit(BSig1(x), i) == ((Bit(x, Up(i, 6)) != Bit(x, Up(i, 11))) != Bit(x, Up(i, 25)))
  {
    hide Bit, Rotr, Up, BSig1, Parity;
    BSig1Is(x);
    Rotr6Bits(x, i);
    Rotr11Bits(x, i);
    Rotr25Bits(x, i);
    ParityBits(Rotr(x, 6), Rotr(x, 11), Rotr(x, 25), i);
  }

  lemma SSig0Is(x: word)
    ensures SSig0(x) == Parity(Rotr(x, 7), Rotr(x, 18), x >> 3)
  {
    hide Rotr;
  }

  lemma SSig0Bits(x: word, i: bv6)
    requires i < 32
    ensures Bit(SSig0(x), i) == ((Bit(x, Up(i, 7)) != Bit(x, Up(i, 18))) != (i < 29 && Bit(x, i + 3)))
  {
    hide Bit, Rotr, Up, SSig0, Parity;
    SSig0Is(x);
    Rotr7Bits(x, i);
    Rotr18Bits(x, i);
    ShrBits(x, i);
    ParityBits(Rotr(x, 7), Rotr(x, 18), x >> 3, i);
  }

  lemma SSig1Is(x: word)
    ensures SSig1(x) == Parity(Rotr(x, 17), Rotr(x, 19), x >> 10)
  {
    hide Rotr;
  }

  lemma SSig1Bits(x: word, i: bv6)
    requires i < 32
    ensures Bit(SSig1(x), i) == ((Bit(x, Up(i, 17)) != Bit(x, Up(i, 19))) != (i < 22 && Bit(x, i + 10)))
  {
    hide Bit, Rotr, Up, SSig1, Parity;
    SSig1Is(x);
    Rotr17Bits(x, i);
    Rotr19Bits(x, i);
    ShrBits(x, i);
    ParityBits(Rotr(x, 17), Rotr(x, 19), x >> 10, i);
  }

  lemma ParityBits(x: word, y: word, z: word, i: bv6)
    requires i < 32
    ensures Bit(Parity(x, y, z), i) == ((Bit(x, i) != Bit(y, i)) != Bit(z, i))
  {
    hide Bit;
    XorBits(x, y, i);
    XorBits(x ^ y, z, i);
  }

  // ---- The constants, sections 4.2.2 and 5.3.3 ----

  const TWO32: nat := 0x1_0000_0000

  /** w is the first 32 bits of the fraction of the square root of p, which is n and that. */
  predicate SquareRoot(p: nat, n: nat, w: word) {
    var x := n * TWO32 + w as int;
    x * x <= p * TWO32 * TWO32 < (x + 1) * (x + 1)
  }

  /** The same for the cube root. */
  predicate CubeRoot(p: nat, n: nat, w: word) {
    var x := n * TWO32 + w as int;
    x * x * x <= p * TWO32 * TWO32 * TWO32 < (x + 1) * (x + 1) * (x + 1)
  }

  /** The initial hash value: square roots of the first eight primes. */
  lemma InitialValueIsRoots()
    ensures H0[0] == 0x6a09e667 && SquareRoot(2, 1, 0x6a09e667)
    ensures H0[1] == 0xbb67ae85 && SquareRoot(3, 1, 0xbb67ae85)
    ensures H0[2] == 0x3c6ef372 && SquareRoot(5, 2, 0x3c6ef372)
    ensures H0[3] == 0xa54ff53a && SquareRoot(7, 2, 0xa54ff53a)
    ensures H0[4] == 0x510e527f && SquareRoot(11, 3, 0x510e527f)
    ensures H0[5] == 0x9b05688c && SquareRoot(13, 3, 0x9b05688c)
    ensures H0[6] == 0x1f83d9ab && SquareRoot(17, 4, 0x1f83d9ab)
    ensures H0[7] == 0x5be0cd19 && SquareRoot(19, 4, 0x5be0cd19)
  {}

  // The round constants: cube roots of the first 64 primes.

  lemma Constants0()
    ensures K[0] == 0x428a2f98 && CubeRoot(2, 1, 0x428a2f98)
    ensures K[1] == 0x71374491 && CubeRoot(3, 1, 0x71374491)
    ensures K[2] == 0xb5c0fbcf && CubeRoot(5, 1, 0xb5c0fbcf)
    ensures K[3] == 0xe9b5dba5 && CubeRoot(7, 1, 0xe9b5dba5)
    ensures K[4] == 0x3956c25b && CubeRoot(11, 2, 0x3956c25b)
    ensures K[5] == 0x59f111f1 && CubeRoot(13, 2, 0x59f111f1)
    ensures K[6] == 0x923f82a4 && CubeRoot(17, 2, 0x923f82a4)
    ensures K[7] == 0xab1c5ed5 && CubeRoot(19, 2, 0xab1c5ed5)
  {}

  lemma Constants1()
    ensures K[8] == 0xd807aa98 && CubeRoot(23, 2, 0xd807aa98)
    ensures K[9] == 0x12835b01 && CubeRoot(29, 3, 0x12835b01)
    ensures K[10] == 0x243185be && CubeRoot(31, 3, 0x243185be)
    ensures K[11] == 0x550c7dc3 && CubeRoot(37, 3, 0x550c7dc3)
    ensures K[12] == 0x72be5d74 && CubeRoot(41, 3, 0x72be5d74)
    ensures K[13] == 0x80deb1fe && CubeRoot(43, 3, 0x80deb1fe)
    ensures K[14] == 0x9bdc06a7 && CubeRoot(47, 3, 0x9bdc06a7)
    ensures K[15] == 0xc19bf174 && CubeRoot(53, 3, 0xc19bf174)
  {}

  lemma Constants2()
    ensures K[16] == 0xe49b69c1 && CubeRoot(59, 3, 0xe49b69c1)
    ensures K[17] == 0xefbe4786 && CubeRoot(61, 3, 0xefbe4786)
    ensures K[18] == 0x0fc19dc6 && CubeRoot(67, 4, 0x0fc19dc6)
    ensures K[19] == 0x240ca1cc && CubeRoot(71, 4, 0x240ca1cc)
    ensures K[20] == 0x2de92c6f && CubeRoot(73, 4, 0x2de92c6f)
    ensures K[21] == 0x4a7484aa && CubeRoot(79, 4, 0x4a7484aa)
    ensures K[22] == 0x5cb0a9dc && CubeRoot(83, 4, 0x5cb0a9dc)
    ensures K[23] == 0x76f988da && CubeRoot(89, 4, 0x76f988da)
  {}

  lemma Constants3()
    ensures K[24] == 0x983e5152 && CubeRoot(97, 4, 0x983e5152)
    ensures K[25] == 0xa831c66d && CubeRoot(101, 4, 0xa831c66d)
    ensures K[26] == 0xb00327c8 && CubeRoot(103, 4, 0xb00327c8)
    ensures K[27] == 0xbf597fc7 && CubeRoot(107, 4, 0xbf597fc7)
    ensures K[28] == 0xc6e00bf3 && CubeRoot(109, 4, 0xc6e00bf3)
    ensures K[29] == 0xd5a79147 && CubeRoot(113, 4, 0xd5a79147)
    ensures K[30] == 0x06ca6351 && CubeRoot(127, 5, 0x06ca6351)
    ensures K[31] == 0x14292967 && CubeRoot(131, 5, 0x14292967)
  {}

  lemma Constants4()
    ensures K[32] == 0x27b70a85 && CubeRoot(137, 5, 0x27b70a85)
    ensures K[33] == 0x2e1b2138 && CubeRoot(139, 5, 0x2e1b2138)
    ensures K[34] == 0x4d2c6dfc && CubeRoot(149, 5, 0x4d2c6dfc)
    ensures K[35] == 0x53380d13 && CubeRoot(151, 5, 0x53380d13)
    ensures K[36] == 0x650a7354 && CubeRoot(157, 5, 0x650a7354)
    ensures K[37] == 0x766a0abb && CubeRoot(163, 5, 0x766a0abb)
    ensures K[38] == 0x81c2c92e && CubeRoot(167, 5, 0x81c2c92e)
    ensures K[39] == 0x92722c85 && CubeRoot(173, 5, 0x92722c85)
  {}

  lemma Constants5()
    ensures K[40] == 0xa2bfe8a1 && CubeRoot(179, 5, 0xa2bfe8a1)
    ensures K[41] == 0xa81a664b && CubeRoot(181, 5, 0xa81a664b)
    ensures K[42] == 0xc24b8b70 && CubeRoot(191, 5, 0xc24b8b70)
    ensures K[43] == 0xc76c51a3 && CubeRoot(193, 5, 0xc76c51a3)
    ensures K[44] == 0xd192e819 && CubeRoot(197, 5, 0xd192e819)
    ensures K[45] == 0xd6990624 && CubeRoot(199, 5, 0xd6990624)
    ensures K[46] == 0xf40e3585 && CubeRoot(211, 5, 0xf40e3585)
    ensures K[47] == 0x106aa070 && CubeRoot(223, 6, 0x106aa070)
  {}

  lemma Constants6()
    ensures K[48] == 0x19a4c116 && CubeRoot(227, 6, 0x19a4c116)
    ensures K[49] == 0x1e376c08 && CubeRoot(229, 6, 0x1e376c08)
    ensures K[50] == 0x2748774c && CubeRoot(233, 6, 0x2748774c)
    ensures K[51] == 0x34b0bcb5 && CubeRoot(239, 6, 0x34b0bcb5)
    ensures K[52] == 0x391c0cb3 && CubeRoot(241, 6, 0x391c0cb3)
    ensures K[53] == 0x4ed8aa4a && CubeRoot(251, 6, 0x4ed8aa4a)
    ensures K[54] == 0x5b9cca4f && CubeRoot(257, 6, 0x5b9cca4f)
    ensures K[55] == 0x682e6ff3 && CubeRoot(263, 6, 0x682e6ff3)
  {}

  lemma Constants7()
    ensures K[56] == 0x748f82ee && CubeRoot(269, 6, 0x748f82ee)
    ensures K[57] == 0x78a5636f && CubeRoot(271, 6, 0x78a5636f)
    ensures K[58] == 0x84c87814 && CubeRoot(277, 6, 0x84c87814)
    ensures K[59] == 0x8cc70208 && CubeRoot(281, 6, 0x8cc70208)
    ensures K[60] == 0x90befffa && CubeRoot(283, 6, 0x90befffa)
    ensures K[61] == 0xa4506ceb && CubeRoot(293, 6, 0xa4506ceb)
    ensures K[62] == 0xbef9a3f7 && CubeRoot(307, 6, 0xbef9a3f7)
    ensures K[63] == 0xc67178f2 && CubeRoot(311, 6, 0xc67178f2)
  {}

  // ---- The digest of "abc" ----

  const ABC: seq<byte> := [0x61, 0x62, 0x63]

  /** The one padded block. */
  function Block(): (b: seq<byte>)
    ensures |b| == 64
  {
    ABC + [0x80] + Zeros(52) + [0, 0, 0, 0, 0, 0, 0, 24]
  }

  lemma AbcPadded()
    ensures Pad(ABC) == Block()
  {
    assert PadZeros(3) == 52;
    Length24();
  }

  lemma Length24()
    ensures BigEndian(8, 24) == [0, 0, 0, 0, 0, 0, 0, 24]
  {
    assert BigEndian(2, 0) == [0, 0];
    assert BigEndian(4, 0) == [0, 0, 0, 0];
    assert BigEndian(6, 0) == [0, 0, 0, 0, 0, 0];
  }

  /** A schedule word from the ones 2, 7, 15 and 16 before it. */
  function Expand(a: word, b: word, c: word, d: word): word {
    Add(Add(Add(SSig1(a), b), SSig0(c)), d)
  }

  lemma ScheduleStep(block: seq<byte>, t: nat)
    requires |block| == 64 && 16 <= t < 64
    ensures Schedule(block, t) == Expand(Schedule(block, t - 2), Schedule(block, t - 7),
                                         Schedule(block, t - 15), Schedule(block, t - 16))
  {}

  function FourWords(t: nat): (word, word, word, word)
    requires t + 4 <= 64
  {
    (Schedule(Block(), t), Schedule(Block(), t + 1), Schedule(Block(), t + 2), Schedule(Block(), t + 3))
  }

  lemma FirstWords()
    ensures FourWords(0) == (0x61626380, 0x00000000, 0x00000000, 0x00000000)
    ensures FourWords(4) == (0x00000000, 0x00000000, 0x00000000, 0x00000000)
    ensures FourWords(8) == (0x00000000, 0x00000000, 0x00000000, 0x00000000)
    ensures FourWords(12) == (0x00000000, 0x00000000, 0x00000000, 0x00000018)
  {
    var b := Block();
    assert b[0] == 0x61 && b[1] == 0x62 && b[2] == 0x63 && b[3] == 0x80 && b[63] == 24;
    assert forall i :: 4 <= i < 63 ==> b[i] == 0;
  }

  lemma Expand16()
    ensures Expand(0x00000000, 0x00000000, 0x00000000, 0x61626380) == 0x61626380
    ensures Expand(0x00000018, 0x00000000, 0x00000000, 0x00000000) == 0x000f0000
    ensures Expand(0x61626380, 0x00000000, 0x00000000, 0x00000000) == 0x7da86405
    ensures Expand(0x000f0000, 0x00000000, 0x00000000, 0x00000000) == 0x600003c6
    ensures Expand(0x7da86405, 0x00000000, 0x00000000, 0x00000000) == 0x3e9d7b78
    ensures Expand(0x600003c6, 0x00000000, 0x00000000, 0x00000000) == 0x0183fc00
    ensures Expand(0x3e9d7b78, 0x00000018, 0x00000000, 0x00000000) == 0x12dcbfdb
    ensures Expand(0x0183fc00, 0x61626380, 0x00000000, 0x00000000) == 0xe2e2c38e
  {}

  lemma Words16()
    ensures FourWords(16) == (0x61626380, 0x000f0000, 0x7da86405, 0x600003c6)
    ensures FourWords(20) == (0x3e9d7b78, 0x0183fc00, 0x12dcbfdb, 0xe2e2c38e)
  {
    hide Schedule, Expand, Block;
    FirstWords();
    Expand16();
    ScheduleStep(Block(), 16);
    ScheduleStep(Block(), 17);
    ScheduleStep(Block(), 18);
    ScheduleStep(Block(), 19);
    ScheduleStep(Block(), 20);
    ScheduleStep(Block(), 21);
    ScheduleStep(Block(), 22);
    ScheduleStep(Block(), 23);
  }

  lemma Expand24()
    ensures Expand(0x12dcbfdb, 0x000f0000, 0x00000000, 0x00000000) == 0xc8215c1a
    ensures Expand(0xe2e2c38e, 0x7da86405, 0x00000000, 0x00000000) == 0xb73679a2
    ensures Expand(0xc8215c1a, 0x600003c6, 0x00000000, 0x00000000) == 0xe5bc3909
    ensures Expand(0xb73679a2, 0x3e9d7b78, 0x00000000, 0x00000000) == 0x32663c5b
    ensures Expand(0xe5bc3909, 0x0183fc00, 0x00000000, 0x00000000) == 0x9d209d67
    ensures Expand(0x32663c5b, 0x12dcbfdb, 0x00000000, 0x00000000) == 0xec8726cb
    ensures Expand(0x9d209d67, 0xe2e2c38e, 0x00000018, 0x00000000) == 0x702138a4
    ensures Expand(0xec8726cb, 0xc8215c1a, 0x61626380, 0x00000018) == 0xd3b7973b
  {}

  lemma Words24()
    ensures FourWords(24) == (0xc8215c1a, 0xb73679a2, 0xe5bc3909, 0x32663c5b)
    ensures FourWords(28) == (0x9d209d67, 0xec8726cb, 0x702138a4, 0xd3b7973b)
  {
    hide Schedule, Expand, Block;
    FirstWords();
    Words16();
    Expand24();
    ScheduleStep(Block(), 24);
    ScheduleStep(Block(), 25);
    ScheduleStep(Block(), 26);
    ScheduleStep(Block(), 27);
    ScheduleStep(Block(), 28);
    ScheduleStep(Block(), 29);
    ScheduleStep(Block(), 30);
    ScheduleStep(Block(), 31);
  }

  lemma Expand32()
    ensures Expand(0x702138a4, 0xb73679a2, 0x000f0000, 0x61626380) == 0x93f5997f
    ensures Expand(0xd3b7973b, 0xe5bc3909, 0x7da86405, 0x000f0000) == 0x3b68ba73
    ensures Expand(0x93f5997f, 0x32663c5b, 0x600003c6, 0x7da86405) == 0xaff4ffc1
    ensures Expand(0x3b68ba73, 0x9d209d67, 0x3e9d7b78, 0x600003c6) == 0xf10a5c62
    ensures Expand(0xaff4ffc1, 0xec8726cb, 0x0183fc00, 0x3e9d7b78) == 0x0a8b3996
    ensures Expand(0xf10a5c62, 0x702138a4, 0x12dcbfdb, 0x0183fc00) == 0x72af830a
    ensures Expand(0x0a8b3996, 0xd3b7973b, 0xe2e2c38e, 0x12dcbfdb) == 0x9409e33e
    ensures Expand(0x72af830a, 0x93f5997f, 0xc8215c1a, 0xe2e2c38e) == 0x24641522
  {}

  lemma Words32()
    ensures FourWords(32) == (0x93f5997f, 0x3b68ba73, 0xaff4ffc1, 0xf10a5c62)
    ensures FourWords(36) == (0x0a8b3996, 0x72af830a, 0x9409e33e, 0x24641522)
  {
    hide Schedule, Expand, Block;
    Words16();
    Words24();
    Expand32();
    ScheduleStep(Block(), 32);
    ScheduleStep(Block(), 33);
    ScheduleStep(Block(), 34);
    ScheduleStep(Block(), 35);
    ScheduleStep(Block(), 36);
    ScheduleStep(Block(), 37);
    ScheduleStep(Block(), 38);
    ScheduleStep(Block(), 39);
  }

  lemma Expand40()
    ensures Expand(0x9409e33e, 0x3b68ba73, 0xb73679a2, 0xc8215c1a) == 0x9f47bf94
    ensures Expand(0x24641522, 0xaff4ffc1, 0xe5bc3909, 0xb73679a2) == 0xf0a64f5a
    ensures Expand(0x9f47bf94, 0xf10a5c62, 0x32663c5b, 0xe5bc3909) == 0x3e246a79
    ensures Expand(0xf0a64f5a, 0x0a8b3996, 0x9d209d67, 0x32663c5b) == 0x27333ba3
    ensures Expand(0x3e246a79, 0x72af830a, 0xec8726cb, 0x9d209d67) == 0x0c4763f2
    ensures Expand(0x27333ba3, 0x9409e33e, 0x702138a4, 0xec8726cb) == 0x840abf27
    ensures Expand(0x0c4763f2, 0x24641522, 0xd3b7973b, 0x702138a4) == 0x7a290d5d
    ensures Expand(0x840abf27, 0x9f47bf94, 0x93f5997f, 0xd3b7973b) == 0x065c43da
  {}

  lemma Words40()
    ensures FourWords(40) == (0x9f47bf94, 0xf0a64f5a, 0x3e246a79, 0x27333ba3)
    ensures FourWords(44) == (0x0c4763f2, 0x840abf27, 0x7a290d5d, 0x065c43da)
  {
    hide Schedule, Expand, Block;
    Words24();
    Words32();
    Expand40();
    ScheduleStep(Block(), 40);
    ScheduleStep(Block(), 41);
    ScheduleStep(Block(), 42);
    ScheduleStep(Block(), 43);
    ScheduleStep(Block(), 44);
    ScheduleStep(Block(), 45);
    ScheduleStep(Block(), 46);
    ScheduleStep(Block(), 47);
  }

  lemma Expand48()
    ensures Expand(0x7a290d5d, 0xf0a64f5a, 0x3b68ba73, 0x93f5997f) == 0xfb3e89cb
    ensures Expand(0x065c43da, 0x3e246a79, 0xaff4ffc1, 0x3b68ba73) == 0xcc7617db
    ensures Expand(0xfb3e89cb, 0x27333ba3, 0xf10a5c62, 0xaff4ffc1) == 0xb9e66c34
    ensures Expand(0xcc7617db, 0x0c4763f2, 0x0a8b3996, 0xf10a5c62) == 0xa9993667
  {}

  lemma Words48()
    ensures FourWords(48) == (0xfb3e89cb, 0xcc7617db, 0xb9e66c34, 0xa9993667)
  {
    hide Schedule, Expand, Block;
    Words32();
    Words40();
    Expand48();
    ScheduleStep(Block(), 48);
    ScheduleStep(Block(), 49);
    ScheduleStep(Block(), 50);
    ScheduleStep(Block(), 51);
  }

  lemma Expand52()
    ensures Expand(0xb9e66c34, 0x840abf27, 0x72af830a, 0x0a8b3996) == 0x84badedd
    ensures Expand(0xa9993667, 0x7a290d5d, 0x9409e33e, 0x72af830a) == 0xc21462bc
    ensures Expand(0x84badedd, 0x065c43da, 0x24641522, 0x9409e33e) == 0x1487472c
    ensures Expand(0xc21462bc, 0xfb3e89cb, 0x9f47bf94, 0x24641522) == 0xb20f7a99
  {}

  lemma Words52()
    ensures FourWords(52) == (0x84badedd, 0xc21462bc, 0x1487472c, 0xb20f7a99)
  {
    hide Schedule, Expand, Block;
    Words32();
    Words40();
    Words48();
    Expand52();
    ScheduleStep(Block(), 52);
    ScheduleStep(Block(), 53);
    ScheduleStep(Block(), 54);
    ScheduleStep(Block(), 55);
  }

  lemma Expand56()
    ensures Expand(0x1487472c, 0xcc7617db, 0xf0a64f5a, 0x9f47bf94) == 0xef57b9cd
    ensures Expand(0xb20f7a99, 0xb9e66c34, 0x3e246a79, 0xf0a64f5a) == 0xebe6b238
    ensures Expand(0xef57b9cd, 0xa9993667, 0x27333ba3, 0x3e246a79) == 0x9fe3095e
    ensures Expand(0xebe6b238, 0x84badedd, 0x0c4763f2, 0x27333ba3) == 0x78bc8d4b
  {}

  lemma Words56()
    ensures FourWords(56) == (0xef57b9cd, 0xebe6b238, 0x9fe3095e, 0x78bc8d4b)
  {
    hide Schedule, Expand, Block;
    Words40();
    Words48();
    Words52();
    Expand56();
    ScheduleStep(Block(), 56);
    ScheduleStep(Block(), 57);
    ScheduleStep(Block(), 58);
    ScheduleStep(Block(), 59);
  }

  lemma Expand60()
    ensures Expand(0x9fe3095e, 0xc21462bc, 0x840abf27, 0x0c4763f2) == 0xa43fcf15
    ensures Expand(0x78bc8d4b, 0x1487472c, 0x7a290d5d, 0x840abf27) == 0x668b2ff8
    ensures Expand(0xa43fcf15, 0xb20f7a99, 0x065c43da, 0x7a290d5d) == 0xeeaba2cc
    ensures Expand(0x668b2ff8, 0xef57b9cd, 0xfb3e89cb, 0x065c43da) == 0x12b1edeb
  {}

  lemma Words60()
    ensures FourWords(60) == (0xa43fcf15, 0x668b2ff8, 0xeeaba2cc, 0x12b1edeb)
  {
    hide Schedule, Expand, Block;
    Words40();
    Words48();
    Words52();
    Words56();
    Expand60();
    ScheduleStep(Block(), 60);
    ScheduleStep(Block(), 61);
    ScheduleStep(Block(), 62);
    ScheduleStep(Block(), 63);
  }

  // Eight rounds at a time, on the values of the working variables.

  lemma EightRounds(v: Vars, block: seq<byte>, n: nat)
    requires |block| == 64 && n + 8 <= 64
    ensures var u := Rounds(v, block, n);
      Rounds(v, block, n + 8) == Round(Round(Round(Round(Round(Round(Round(Round(u,
        K[n], Schedule(block, n)), K[n + 1], Schedule(block, n + 1)), K[n + 2], Schedule(block, n + 2)),
        K[n + 3], Schedule(block, n + 3)), K[n + 4], Schedule(block, n + 4)), K[n + 5], Schedule(block, n + 5)),
        K[n + 6], Schedule(block, n + 6)), K[n + 7], Schedule(block, n + 7))
  {
    hide Round, Schedule;
    assert Rounds(v, block, n + 1) == Round(Rounds(v, block, n), K[n], Schedule(block, n));
    assert Rounds(v, block, n + 2) == Round(Rounds(v, block, n + 1), K[n + 1], Schedule(block, n + 1));
    assert Rounds(v, block, n + 3) == Round(Rounds(v, block, n + 2), K[n + 2], Schedule(block, n + 2));
    assert Rounds(v, block, n + 4) == Round(Rounds(v, block, n + 3), K[n + 3], Schedule(block, n + 3));
    assert Rounds(v, block, n + 5) == Round(Rounds(v, block, n + 4), K[n + 4], Schedule(block, n + 4));
    assert Rounds(v, block, n + 6) == Round(Rounds(v, block, n + 5), K[n + 5], Schedule(block, n + 5));
    assert Rounds(v, block, n + 7) == Round(Rounds(v, block, n + 6), K[n + 6], Schedule(block, n + 6));
    assert Rounds(v, block, n + 8) == Round(Rounds(v, block, n + 7), K[n + 7], Schedule(block, n + 7));
  }

  function Start(): Vars {
    Vars(0x6a09e667, 0xbb67ae85, 0x3c6ef372, 0xa54ff53a, 0x510e527f, 0x9b05688c, 0x1f83d9ab, 0x5be0cd19)
  }

  lemma Turns0()
    ensures Round(Vars(0x6a09e667, 0xbb67ae85, 0x3c6ef372, 0xa54ff53a, 0x510e527f, 0x9b05688c, 0x1f83d9ab, 0x5be0cd19),
                  0x428a2f98, 0x61626380)
         == Vars(0x5d6aebcd, 0x6a09e667, 0xbb67ae85, 0x3c6ef372, 0xfa2a4622, 0x510e527f, 0x9b05688c, 0x1f83d9ab)
    ensures Round(Vars(0x5d6aebcd, 0x6a09e667, 0xbb67ae85, 0x3c6ef372, 0xfa2a4622, 0x510e527f, 0x9b05688c, 0x1f83d9ab),
                  0x71374491, 0x00000000)
         == Vars(0x5a6ad9ad, 0x5d6aebcd, 0x6a09e667, 0xbb67ae85, 0x78ce7989, 0xfa2a4622, 0x510e527f, 0x9b05688c)
    ensures Round(Vars(0x5a6ad9ad, 0x5d6aebcd, 0x6a09e667, 0xbb67ae85, 0x78ce7989, 0xfa2a4622, 0x510e527f, 0x9b05688c),
                  0xb5c0fbcf, 0x00000000)
         == Vars(0xc8c347a7, 0x5a6ad9ad, 0x5d6aebcd, 0x6a09e667, 0xf92939eb, 0x78ce7989, 0xfa2a4622, 0x510e527f)
    ensures Round(Vars(0xc8c347a7, 0x5a6ad9ad, 0x5d6aebcd, 0x6a09e667, 0xf92939eb, 0x78ce7989, 0xfa2a4622, 0x510e527f),
                  0xe9b5dba5, 0x00000000)
         == Vars(0xd550f666, 0xc8c347a7, 0x5a6ad9ad, 0x5d6aebcd, 0x24e00850, 0xf92939eb, 0x78ce7989, 0xfa2a4622)
    ensures Round(Vars(0xd550f666, 0xc8c347a7, 0x5a6ad9ad, 0x5d6aebcd, 0x24e00850, 0xf92939eb, 0x78ce7989, 0xfa2a4622),
                  0x3956c25b, 0x00000000)
         == Vars(0x04409a6a, 0xd550f666, 0xc8c347a7, 0x5a6ad9ad, 0x43ada245, 0x24e00850, 0xf92939eb, 0x78ce7989)
    ensures Round(Vars(0x04409a6a, 0xd550f666, 0xc8c347a7, 0x5a6ad9ad, 0x43ada245, 0x24e00850, 0xf92939eb, 0x78ce7989),
                  0x59f111f1, 0x00000000)
         == Vars(0x2b4209f5, 0x04409a6a, 0xd550f666, 0xc8c347a7, 0x714260ad, 0x43ada245, 0x24e00850, 0xf92939eb)
    ensures Round(Vars(0x2b4209f5, 0x04409a6a, 0xd550f666, 0xc8c347a7, 0x714260ad, 0x43ada245, 0x24e00850, 0xf92939eb),
                  0x923f82a4, 0x00000000)
         == Vars(0xe5030380, 0x2b4209f5, 0x04409a6a, 0xd550f666, 0x9b27a401, 0x714260ad, 0x43ada245, 0x24e00850)
    ensures Round(Vars(0xe5030380, 0x2b4209f5, 0x04409a6a, 0xd550f666, 0x9b27a401, 0x714260ad, 0x43ada245, 0x24e00850),
                  0xab1c5ed5, 0x00000000)
         == Vars(0x85a07b5f, 0xe5030380, 0x2b4209f5, 0x04409a6a, 0x0c657a79, 0x9b27a401, 0x714260ad, 0x43ada245)
  {}

  lemma Rounds8()
    ensures Rounds(Start(), Block(), 8) ==
      Vars(0x85a07b5f, 0xe5030380, 0x2b4209f5, 0x04409a6a, 0x0c657a79, 0x9b27a401, 0x714260ad, 0x43ada245)
  {
    hide Round, Rounds, Schedule, Block;
    RoundsStart();
    Constants0();
    FirstWords();
    Turns0();
    EightRounds(Start(), Block(), 0);
  }

  lemma Turns8()
    ensures Round(Vars(0x85a07b5f, 0xe5030380, 0x2b4209f5, 0x04409a6a, 0x0c657a79, 0x9b27a401, 0x714260ad, 0x43ada245),
                  0xd807aa98, 0x00000000)
         == Vars(0x8e04ecb9, 0x85a07b5f, 0xe5030380, 0x2b4209f5, 0x32ca2d8c, 0x0c657a79, 0x9b27a401, 0x714260ad)
    ensures Round(Vars(0x8e04ecb9, 0x85a07b5f, 0xe5030380, 0x2b4209f5, 0x32ca2d8c, 0x0c657a79, 0x9b27a401, 0x714260ad),
                  0x12835b01, 0x00000000)
         == Vars(0x8c87346b, 0x8e04ecb9, 0x85a07b5f, 0xe5030380, 0x1cc92596, 0x32ca2d8c, 0x0c657a79, 0x9b27a401)
    ensures Round(Vars(0x8c87346b, 0x8e04ecb9, 0x85a07b5f, 0xe5030380, 0x1cc92596, 0x32ca2d8c, 0x0c657a79, 0x9b27a401),
                  0x243185be, 0x00000000)
         == Vars(0x4798a3f4, 0x8c87346b, 0x8e04ecb9, 0x85a07b5f, 0x436b23e8, 0x1cc92596, 0x32ca2d8c, 0x0c657a79)
    ensures Round(Vars(0x4798a3f4, 0x8c87346b, 0x8e04ecb9, 0x85a07b5f, 0x436b23e8, 0x1cc92596, 0x32ca2d8c, 0x0c657a79),
                  0x550c7dc3, 0x00000000)
         == Vars(0xf71fc5a9, 0x4798a3f4, 0x8c87346b, 0x8e04ecb9, 0x816fd6e9, 0x436b23e8, 0x1cc92596, 0x32ca2d8c)
    ensures Round(Vars(0xf71fc5a9, 0x4798a3f4, 0x8c87346b, 0x8e04ecb9, 0x816fd6e9, 0x436b23e8, 0x1cc92596, 0x32ca2d8c),
                  0x72be5d74, 0x00000000)
         == Vars(0x87912990, 0xf71fc5a9, 0x4798a3f4, 0x8c87346b, 0x1e578218, 0x816fd6e9, 0x436b23e8, 0x1cc92596)
    ensures Round(Vars(0x87912990, 0xf71fc5a9, 0x4798a3f4, 0x8c87346b, 0x1e578218, 0x816fd6e9, 0x436b23e8, 0x1cc92596),
                  0x80deb1fe, 0x00000000)
         == Vars(0xd932eb16, 0x87912990, 0xf71fc5a9, 0x4798a3f4, 0x745a48de, 0x1e578218, 0x816fd6e9, 0x436b23e8)
    ensures Round(Vars(0xd932eb16, 0x87912990, 0xf71fc5a9, 0x4798a3f4, 0x745a48de, 0x1e578218, 0x816fd6e9, 0x436b23e8),
                  0x9bdc06a7, 0x00000000)
         == Vars(0xc0645fde, 0xd932eb16, 0x87912990, 0xf71fc5a9, 0x0b92f20c, 0x745a48de, 0x1e578218, 0x816fd6e9)
    ensures Round(Vars(0xc0645fde, 0xd932eb16, 0x87912990, 0xf71fc5a9, 0x0b92f20c, 0x745a48de, 0x1e578218, 0x816fd6e9),
                  0xc19bf174, 0x00000018)
         == Vars(0xb0fa238e, 0xc0645fde, 0xd932eb16, 0x87912990, 0x07590dcd, 0x0b92f20c, 0x745a48de, 0x1e578218)
  {}

  lemma Rounds16()
    ensures Rounds(Start(), Block(), 16) ==
      Vars(0xb0fa238e, 0xc0645fde, 0xd932eb16, 0x87912990, 0x07590dcd, 0x0b92f20c, 0x745a48de, 0x1e578218)
  {
    hide Round, Rounds, Schedule, Block;
    Rounds8();
    Constants1();
    FirstWords();
    Turns8();
    EightRounds(Start(), Block(), 8);
  }

  lemma Turns16()
    ensures Round(Vars(0xb0fa238e, 0xc0645fde, 0xd932eb16, 0x87912990, 0x07590dcd, 0x0b92f20c, 0x745a48de, 0x1e578218),
                  0xe49b69c1, 0x61626380)
         == Vars(0x21da9a9b, 0xb0fa238e, 0xc0645fde, 0xd932eb16, 0x8034229c, 0x07590dcd, 0x0b92f20c, 0x745a48de)
    ensures Round(Vars(0x21da9a9b, 0xb0fa238e, 0xc0645fde, 0xd932eb16, 0x8034229c, 0x07590dcd, 0x0b92f20c, 0x745a48de),
                  0xefbe4786, 0x000f0000)
         == Vars(0xc2fbd9d1, 0x21da9a9b, 0xb0fa238e, 0xc0645fde, 0x846ee454, 0x8034229c, 0x07590dcd, 0x0b92f20c)
    ensures Round(Vars(0xc2fbd9d1, 0x21da9a9b, 0xb0fa238e, 0xc0645fde, 0x846ee454, 0x8034229c, 0x07590dcd, 0x0b92f20c),
                  0x0fc19dc6, 0x7da86405)
         == Vars(0xfe777bbf, 0xc2fbd9d1, 0x21da9a9b, 0xb0fa238e, 0xcc899961, 0x846ee454, 0x8034229c, 0x07590dcd)
    ensures Round(Vars(0xfe777bbf, 0xc2fbd9d1, 0x21da9a9b, 0xb0fa238e, 0xcc899961, 0x846ee454, 0x8034229c, 0x07590dcd),
                  0x240ca1cc, 0x600003c6)
         == Vars(0xe1f20c33, 0xfe777bbf, 0xc2fbd9d1, 0x21da9a9b, 0xb0638179, 0xcc899961, 0x846ee454, 0x8034229c)
    ensures Round(Vars(0xe1f20c33, 0xfe777bbf, 0xc2fbd9d1, 0x21da9a9b, 0xb0638179, 0xcc899961, 0x846ee454, 0x8034229c),
                  0x2de92c6f, 0x3e9d7b78)
         == Vars(0x9dc68b63, 0xe1f20c33, 0xfe777bbf, 0xc2fbd9d1, 0x8ada8930, 0xb0638179, 0xcc899961, 0x846ee454)
    ensures Round(Vars(0x9dc68b63, 0xe1f20c33, 0xfe777bbf, 0xc2fbd9d1, 0x8ada8930, 0xb0638179, 0xcc899961, 0x846ee454),
                  0x4a7484aa, 0x0183fc00)
         == Vars(0xc2606d6d, 0x9dc68b63, 0xe1f20c33, 0xfe777bbf, 0xe1257970, 0x8ada8930, 0xb0638179, 0xcc899961)
    ensures Round(Vars(0xc2606d6d, 0x9dc68b63, 0xe1f20c33, 0xfe777bbf, 0xe1257970, 0x8ada8930, 0xb0638179, 0xcc899961),
                  0x5cb0a9dc, 0x12dcbfdb)
         == Vars(0xa7a3623f, 0xc2606d6d, 0x9dc68b63, 0xe1f20c33, 0x49f5114a, 0xe1257970, 0x8ada8930, 0xb0638179)
    ensures Round(Vars(0xa7a3623f, 0xc2606d6d, 0x9dc68b63, 0xe1f20c33, 0x49f5114a, 0xe1257970, 0x8ada8930, 0xb0638179),
                  0x76f988da, 0xe2e2c38e)
         == Vars(0xc5d53d8d, 0xa7a3623f, 0xc2606d6d, 0x9dc68b63, 0xaa47c347, 0x49f5114a, 0xe1257970, 0x8ada8930)
  {}

  lemma Rounds24()
    ensures Rounds(Start(), Block(), 24) ==
      Vars(0xc5d53d8d, 0xa7a3623f, 0xc2606d6d, 0x9dc68b63, 0xaa47c347, 0x49f5114a, 0xe1257970, 0x8ada8930)
  {
    hide Round, Rounds, Schedule, Block;
    Rounds16();
    Constants2();
    Words16();
    Turns16();
    EightRounds(Start(), Block(), 16);
  }

  lemma Turns24()
    ensures Round(Vars(0xc5d53d8d, 0xa7a3623f, 0xc2606d6d, 0x9dc68b63, 0xaa47c347, 0x49f5114a, 0xe1257970, 0x8ada8930),
                  0x983e5152, 0xc8215c1a)
         == Vars(0x1c2c2838, 0xc5d53d8d, 0xa7a3623f, 0xc2606d6d, 0x2823ef91, 0xaa47c347, 0x49f5114a, 0xe1257970)
    ensures Round(Vars(0x1c2c2838, 0xc5d53d8d, 0xa7a3623f, 0xc2606d6d, 0x2823ef91, 0xaa47c347, 0x49f5114a, 0xe1257970),
                  0xa831c66d, 0xb73679a2)
         == Vars(0xcde8037d, 0x1c2c2838, 0xc5d53d8d, 0xa7a3623f, 0x14383d8e, 0x2823ef91, 0xaa47c347, 0x49f5114a)
    ensures Round(Vars(0xcde8037d, 0x1c2c2838, 0xc5d53d8d, 0xa7a3623f, 0x14383d8e, 0x2823ef91, 0xaa47c347, 0x49f5114a),
                  0xb00327c8, 0xe5bc3909)
         == Vars(0xb62ec4bc, 0xcde8037d, 0x1c2c2838, 0xc5d53d8d, 0xc74c6516, 0x14383d8e, 0x2823ef91, 0xaa47c347)
    ensures Round(Vars(0xb62ec4bc, 0xcde8037d, 0x1c2c2838, 0xc5d53d8d, 0xc74c6516, 0x14383d8e, 0x2823ef91, 0xaa47c347),
                  0xbf597fc7, 0x32663c5b)
         == Vars(0x77d37528, 0xb62ec4bc, 0xcde8037d, 0x1c2c2838, 0xedffbff8, 0xc74c6516, 0x14383d8e, 0x2823ef91)
    ensures Round(Vars(0x77d37528, 0xb62ec4bc, 0xcde8037d, 0x1c2c2838, 0xedffbff8, 0xc74c6516, 0x14383d8e, 0x2823ef91),
                  0xc6e00bf3, 0x9d209d67)
         == Vars(0x363482c9, 0x77d37528, 0xb62ec4bc, 0xcde8037d, 0x6112a3b7, 0xedffbff8, 0xc74c6516, 0x14383d8e)
    ensures Round(Vars(0x363482c9, 0x77d37528, 0xb62ec4bc, 0xcde8037d, 0x6112a3b7, 0xedffbff8, 0xc74c6516, 0x14383d8e),
                  0xd5a79147, 0xec8726cb)
         == Vars(0xa0060b30, 0x363482c9, 0x77d37528, 0xb62ec4bc, 0xade79437, 0x6112a3b7, 0xedffbff8, 0xc74c6516)
    ensures Round(Vars(0xa0060b30, 0x363482c9, 0x77d37528, 0xb62ec4bc, 0xade79437, 0x6112a3b7, 0xedffbff8, 0xc74c6516),
                  0x06ca6351, 0x702138a4)
         == Vars(0xea992a22, 0xa0060b30, 0x363482c9, 0x77d37528, 0x0109ab3a, 0xade79437, 0x6112a3b7, 0xedffbff8)
    ensures Round(Vars(0xea992a22, 0xa0060b30, 0x363482c9, 0x77d37528, 0x0109ab3a, 0xade79437, 0x6112a3b7, 0xedffbff8),
                  0x14292967, 0xd3b7973b)
         == Vars(0x73b33bf5, 0xea992a22, 0xa0060b30, 0x363482c9, 0xba591112, 0x0109ab3a, 0xade79437, 0x6112a3b7)
  {}

  lemma Rounds32()
    ensures Rounds(Start(), Block(), 32) ==
      Vars(0x73b33bf5, 0xea992a22, 0xa0060b30, 0x363482c9, 0xba591112, 0x0109ab3a, 0xade79437, 0x6112a3b7)
  {
    hide Round, Rounds, Schedule, Block;
    Rounds24();
    Constants3();
    Words24();
    Turns24();
    EightRounds(Start(), Block(), 24);
  }

  lemma Turns32()
    ensures Round(Vars(0x73b33bf5, 0xea992a22, 0xa0060b30, 0x363482c9, 0xba591112, 0x0109ab3a, 0xade79437, 0x6112a3b7),
                  0x27b70a85, 0x93f5997f)
         == Vars(0x98e12507, 0x73b33bf5, 0xea992a22, 0xa0060b30, 0x9cd9f5f6, 0xba591112, 0x0109ab3a, 0xade79437)
    ensures Round(Vars(0x98e12507, 0x73b33bf5, 0xea992a22, 0xa0060b30, 0x9cd9f5f6, 0xba591112, 0x0109ab3a, 0xade79437),
                  0x2e1b2138, 0x3b68ba73)
         == Vars(0xfe604df5, 0x98e12507, 0x73b33bf5, 0xea992a22, 0x59249dd3, 0x9cd9f5f6, 0xba591112, 0x0109ab3a)
    ensures Round(Vars(0xfe604df5, 0x98e12507, 0x73b33bf5, 0xea992a22, 0x59249dd3, 0x9cd9f5f6, 0xba591112, 0x0109ab3a),
                  0x4d2c6dfc, 0xaff4ffc1)
         == Vars(0xa9a7738c, 0xfe604df5, 0x98e12507, 0x73b33bf5, 0x085f3833, 0x59249dd3, 0x9cd9f5f6, 0xba591112)
    ensures Round(Vars(0xa9a7738c, 0xfe604df5, 0x98e12507, 0x73b33bf5, 0x085f3833, 0x59249dd3, 0x9cd9f5f6, 0xba591112),
                  0x53380d13, 0xf10a5c62)
         == Vars(0x65a0cfe4, 0xa9a7738c, 0xfe604df5, 0x98e12507, 0xf4b002d6, 0x085f3833, 0x59249dd3, 0x9cd9f5f6)
    ensures Round(Vars(0x65a0cfe4, 0xa9a7738c, 0xfe604df5, 0x98e12507, 0xf4b002d6, 0x085f3833, 0x59249dd3, 0x9cd9f5f6),
                  0x650a7354, 0x0a8b3996)
         == Vars(0x41a65cb1, 0x65a0cfe4, 0xa9a7738c, 0xfe604df5, 0x0772a26b, 0xf4b002d6, 0x085f3833, 0x59249dd3)
    ensures Round(Vars(0x41a65cb1, 0x65a0cfe4, 0xa9a7738c, 0xfe604df5, 0x0772a26b, 0xf4b002d6, 0x085f3833, 0x59249dd3),
                  0x766a0abb, 0x72af830a)
         == Vars(0x34df1604, 0x41a65cb1, 0x65a0cfe4, 0xa9a7738c, 0xa507a53d, 0x0772a26b, 0xf4b002d6, 0x085f3833)
    ensures Round(Vars(0x34df1604, 0x41a65cb1, 0x65a0cfe4, 0xa9a7738c, 0xa507a53d, 0x0772a26b, 0xf4b002d6, 0x085f3833),
                  0x81c2c92e, 0x9409e33e)
         == Vars(0x6dc57a8a, 0x34df1604, 0x41a65cb1, 0x65a0cfe4, 0xf0781bc8, 0xa507a53d, 0x0772a26b, 0xf4b002d6)
    ensures Round(Vars(0x6dc57a8a, 0x34df1604, 0x41a65cb1, 0x65a0cfe4, 0xf0781bc8, 0xa507a53d, 0x0772a26b, 0xf4b002d6),
                  0x92722c85, 0x24641522)
         == Vars(0x79ea687a, 0x6dc57a8a, 0x34df1604, 0x41a65cb1, 0x1efbc0a0, 0xf0781bc8, 0xa507a53d, 0x0772a26b)
  {}

  lemma Rounds40()
    ensures Rounds(Start(), Block(), 40) ==
      Vars(0x79ea687a, 0x6dc57a8a, 0x34df1604, 0x41a65cb1, 0x1efbc0a0, 0xf0781bc8, 0xa507a53d, 0x0772a26b)
  {
    hide Round, Rounds, Schedule, Block;
    Rounds32();
    Constants4();
    Words32();
    Turns32();
    EightRounds(Start(), Block(), 32);
  }

  lemma Turns40()
    ensures Round(Vars(0x79ea687a, 0x6dc57a8a, 0x34df1604, 0x41a65cb1, 0x1efbc0a0, 0xf0781bc8, 0xa507a53d, 0x0772a26b),
                  0xa2bfe8a1, 0x9f47bf94)
         == Vars(0xd6670766, 0x79ea687a, 0x6dc57a8a, 0x34df1604, 0x26352d63, 0x1efbc0a0, 0xf0781bc8, 0xa507a53d)
    ensures Round(Vars(0xd6670766, 0x79ea687a, 0x6dc57a8a, 0x34df1604, 0x26352d63, 0x1efbc0a0, 0xf0781bc8, 0xa507a53d),
                  0xa81a664b, 0xf0a64f5a)
         == Vars(0xdf46652f, 0xd6670766, 0x79ea687a, 0x6dc57a8a, 0x838b2711, 0x26352d63, 0x1efbc0a0, 0xf0781bc8)
    ensures Round(Vars(0xdf46652f, 0xd6670766, 0x79ea687a, 0x6dc57a8a, 0x838b2711, 0x26352d63, 0x1efbc0a0, 0xf0781bc8),
                  0xc24b8b70, 0x3e246a79)
         == Vars(0x17aa0dfe, 0xdf46652f, 0xd6670766, 0x79ea687a, 0xdecd4715, 0x838b2711, 0x26352d63, 0x1efbc0a0)
    ensures Round(Vars(0x17aa0dfe, 0xdf46652f, 0xd6670766, 0x79ea687a, 0xdecd4715, 0x838b2711, 0x26352d63, 0x1efbc0a0),
                  0xc76c51a3, 0x27333ba3)
         == Vars(0x9d4baf93, 0x17aa0dfe, 0xdf46652f, 0xd6670766, 0xfda24c2e, 0xdecd4715, 0x838b2711, 0x26352d63)
    ensures Round(Vars(0x9d4baf93, 0x17aa0dfe, 0xdf46652f, 0xd6670766, 0xfda24c2e, 0xdecd4715, 0x838b2711, 0x26352d63),
                  0xd192e819, 0x0c4763f2)
         == Vars(0x26628815, 0x9d4baf93, 0x17aa0dfe, 0xdf46652f, 0xa80f11f0, 0xfda24c2e, 0xdecd4715, 0x838b2711)
    ensures Round(Vars(0x26628815, 0x9d4baf93, 0x17aa0dfe, 0xdf46652f, 0xa80f11f0, 0xfda24c2e, 0xdecd4715, 0x838b2711),
                  0xd6990624, 0x840abf27)
         == Vars(0x72ab4b91, 0x26628815, 0x9d4baf93, 0x17aa0dfe, 0xb7755da1, 0xa80f11f0, 0xfda24c2e, 0xdecd4715)
    ensures Round(Vars(0x72ab4b91, 0x26628815, 0x9d4baf93, 0x17aa0dfe, 0xb7755da1, 0xa80f11f0, 0xfda24c2e, 0xdecd4715),
                  0xf40e3585, 0x7a290d5d)
         == Vars(0xa14c14b0, 0x72ab4b91, 0x26628815, 0x9d4baf93, 0xd57b94a9, 0xb7755da1, 0xa80f11f0, 0xfda24c2e)
    ensures Round(Vars(0xa14c14b0, 0x72ab4b91, 0x26628815, 0x9d4baf93, 0xd57b94a9, 0xb7755da1, 0xa80f11f0, 0xfda24c2e),
                  0x106aa070, 0x065c43da)
         == Vars(0x4172328d, 0xa14c14b0, 0x72ab4b91, 0x26628815, 0xfecf0bc6, 0xd57b94a9, 0xb7755da1, 0xa80f11f0)
  {}

  lemma Rounds48()
    ensures Rounds(Start(), Block(), 48) ==
      Vars(0x4172328d, 0xa14c14b0, 0x72ab4b91, 0x26628815, 0xfecf0bc6, 0xd57b94a9, 0xb7755da1, 0xa80f11f0)
  {
    hide Round, Rounds, Schedule, Block;
    Rounds40();
    Constants5();
    Words40();
    Turns40();
    EightRounds(Start(), Block(), 40);
  }

  lemma Turns48()
    ensures Round(Vars(0x4172328d, 0xa14c14b0, 0x72ab4b91, 0x26628815, 0xfecf0bc6, 0xd57b94a9, 0xb7755da1, 0xa80f11f0),
                  0x19a4c116, 0xfb3e89cb)
         == Vars(0x05757ceb, 0x4172328d, 0xa14c14b0, 0x72ab4b91, 0xbd714038, 0xfecf0bc6, 0xd57b94a9, 0xb7755da1)
    ensures Round(Vars(0x05757ceb, 0x4172328d, 0xa14c14b0, 0x72ab4b91, 0xbd714038, 0xfecf0bc6, 0xd57b94a9, 0xb7755da1),
                  0x1e376c08, 0xcc7617db)
         == Vars(0xf11bfaa8, 0x05757ceb, 0x4172328d, 0xa14c14b0, 0x6e5c390c, 0xbd714038, 0xfecf0bc6, 0xd57b94a9)
    ensures Round(Vars(0xf11bfaa8, 0x05757ceb, 0x4172328d, 0xa14c14b0, 0x6e5c390c, 0xbd714038, 0xfecf0bc6, 0xd57b94a9),
                  0x2748774c, 0xb9e66c34)
         == Vars(0x7a0508a1, 0xf11bfaa8, 0x05757ceb, 0x4172328d, 0x52f1ccf7, 0x6e5c390c, 0xbd714038, 0xfecf0bc6)
    ensures Round(Vars(0x7a0508a1, 0xf11bfaa8, 0x05757ceb, 0x4172328d, 0x52f1ccf7, 0x6e5c390c, 0xbd714038, 0xfecf0bc6),
                  0x34b0bcb5, 0xa9993667)
         == Vars(0x886e7a22, 0x7a0508a1, 0xf11bfaa8, 0x05757ceb, 0x49231c1e, 0x52f1ccf7, 0x6e5c390c, 0xbd714038)
    ensures Round(Vars(0x886e7a22, 0x7a0508a1, 0xf11bfaa8, 0x05757ceb, 0x49231c1e, 0x52f1ccf7, 0x6e5c390c, 0xbd714038),
                  0x391c0cb3, 0x84badedd)
         == Vars(0x101fd28f, 0x886e7a22, 0x7a0508a1, 0xf11bfaa8, 0x529e7d00, 0x49231c1e, 0x52f1ccf7, 0x6e5c390c)
    ensures Round(Vars(0x101fd28f, 0x886e7a22, 0x7a0508a1, 0xf11bfaa8, 0x529e7d00, 0x49231c1e, 0x52f1ccf7, 0x6e5c390c),
                  0x4ed8aa4a, 0xc21462bc)
         == Vars(0xf5702fdb, 0x101fd28f, 0x886e7a22, 0x7a0508a1, 0x9f4787c3, 0x529e7d00, 0x49231c1e, 0x52f1ccf7)
    ensures Round(Vars(0xf5702fdb, 0x101fd28f, 0x886e7a22, 0x7a0508a1, 0x9f4787c3, 0x529e7d00, 0x49231c1e, 0x52f1ccf7),
                  0x5b9cca4f, 0x1487472c)
         == Vars(0x3ec45cdb, 0xf5702fdb, 0x101fd28f, 0x886e7a22, 0xe50e1b4f, 0x9f4787c3, 0x529e7d00, 0x49231c1e)
    ensures Round(Vars(0x3ec45cdb, 0xf5702fdb, 0x101fd28f, 0x886e7a22, 0xe50e1b4f, 0x9f4787c3, 0x529e7d00, 0x49231c1e),
                  0x682e6ff3, 0xb20f7a99)
         == Vars(0x38cc9913, 0x3ec45cdb, 0xf5702fdb, 0x101fd28f, 0x54cb266b, 0xe50e1b4f, 0x9f4787c3, 0x529e7d00)
  {}

  lemma Rounds56()
    ensures Rounds(Start(), Block(), 56) ==
      Vars(0x38cc9913, 0x3ec45cdb, 0xf5702fdb, 0x101fd28f, 0x54cb266b, 0xe50e1b4f, 0x9f4787c3, 0x529e7d00)
  {
    hide Round, Rounds, Schedule, Block;
    Rounds48();
    Constants6();
    Words48();
    Words52();
    Turns48();
    EightRounds(Start(), Block(), 48);
  }

  lemma Turns56()
    ensures Round(Vars(0x38cc9913, 0x3ec45cdb, 0xf5702fdb, 0x101fd28f, 0x54cb266b, 0xe50e1b4f, 0x9f4787c3, 0x529e7d00),
                  0x748f82ee, 0xef57b9cd)
         == Vars(0xfcd1887b, 0x38cc9913, 0x3ec45cdb, 0xf5702fdb, 0x9b5e906c, 0x54cb266b, 0xe50e1b4f, 0x9f4787c3)
    ensures Round(Vars(0xfcd1887b, 0x38cc9913, 0x3ec45cdb, 0xf5702fdb, 0x9b5e906c, 0x54cb266b, 0xe50e1b4f, 0x9f4787c3),
                  0x78a5636f, 0xebe6b238)
         == Vars(0xc062d46f, 0xfcd1887b, 0x38cc9913, 0x3ec45cdb, 0x7e44008e, 0x9b5e906c, 0x54cb266b, 0xe50e1b4f)
    ensures Round(Vars(0xc062d46f, 0xfcd1887b, 0x38cc9913, 0x3ec45cdb, 0x7e44008e, 0x9b5e906c, 0x54cb266b, 0xe50e1b4f),
                  0x84c87814, 0x9fe3095e)
         == Vars(0xffb70472, 0xc062d46f, 0xfcd1887b, 0x38cc9913, 0x6d83bfc6, 0x7e44008e, 0x9b5e906c, 0x54cb266b)
    ensures Round(Vars(0xffb70472, 0xc062d46f, 0xfcd1887b, 0x38cc9913, 0x6d83bfc6, 0x7e44008e, 0x9b5e906c, 0x54cb266b),
                  0x8cc70208, 0x78bc8d4b)
         == Vars(0xb6ae8fff, 0xffb70472, 0xc062d46f, 0xfcd1887b, 0xb21bad3d, 0x6d83bfc6, 0x7e44008e, 0x9b5e906c)
    ensures Round(Vars(0xb6ae8fff, 0xffb70472, 0xc062d46f, 0xfcd1887b, 0xb21bad3d, 0x6d83bfc6, 0x7e44008e, 0x9b5e906c),
                  0x90befffa, 0xa43fcf15)
         == Vars(0xb85e2ce9, 0xb6ae8fff, 0xffb70472, 0xc062d46f, 0x961f4894, 0xb21bad3d, 0x6d83bfc6, 0x7e44008e)
    ensures Round(Vars(0xb85e2ce9, 0xb6ae8fff, 0xffb70472, 0xc062d46f, 0x961f4894, 0xb21bad3d, 0x6d83bfc6, 0x7e44008e),
                  0xa4506ceb, 0x668b2ff8)
         == Vars(0x04d24d6c, 0xb85e2ce9, 0xb6ae8fff, 0xffb70472, 0x948d25b6, 0x961f4894, 0xb21bad3d, 0x6d83bfc6)
    ensures Round(Vars(0x04d24d6c, 0xb85e2ce9, 0xb6ae8fff, 0xffb70472, 0x948d25b6, 0x961f4894, 0xb21bad3d, 0x6d83bfc6),
                  0xbef9a3f7, 0xeeaba2cc)
         == Vars(0xd39a2165, 0x04d24d6c, 0xb85e2ce9, 0xb6ae8fff, 0xfb121210, 0x948d25b6, 0x961f4894, 0xb21bad3d)
    ensures Round(Vars(0xd39a2165, 0x04d24d6c, 0xb85e2ce9, 0xb6ae8fff, 0xfb121210, 0x948d25b6, 0x961f4894, 0xb21bad3d),
                  0xc67178f2, 0x12b1edeb)
         == Vars(0x506e3058, 0xd39a2165, 0x04d24d6c, 0xb85e2ce9, 0x5ef50f24, 0xfb121210, 0x948d25b6, 0x961f4894)
  {}

  lemma Rounds64()
    ensures Rounds(Start(), Block(), 64) ==
      Vars(0x506e3058, 0xd39a2165, 0x04d24d6c, 0xb85e2ce9, 0x5ef50f24, 0xfb121210, 0x948d25b6, 0x961f4894)
  {
    hide Round, Rounds, Schedule, Block;
    Rounds56();
    Constants7();
    Words56();
    Words60();
    Turns56();
    EightRounds(Start(), Block(), 56);
  }

  lemma RoundsStart()
    ensures Rounds(Start(), Block(), 0) == Start()
  {}

  lemma Sums()
    ensures Add(0x6a09e667, 0x506e3058) == 0xba7816bf
    ensures Add(0xbb67ae85, 0xd39a2165) == 0x8f01cfea
    ensures Add(0x3c6ef372, 0x04d24d6c) == 0x414140de
    ensures Add(0xa54ff53a, 0xb85e2ce9) == 0x5dae2223
    ensures Add(0x510e527f, 0x5ef50f24) == 0xb00361a3
    ensures Add(0x9b05688c, 0xfb121210) == 0x96177a9c
    ensures Add(0x1f83d9ab, 0x948d25b6) == 0xb410ff61
    ensures Add(0x5be0cd19, 0x961f4894) == 0xf20015ad
  {}

  lemma Bytes32()
    ensures BE32(0xba7816bf) == [0xba, 0x78, 0x16, 0xbf]
    ensures BE32(0x8f01cfea) == [0x8f, 0x01, 0xcf, 0xea]
    ensures BE32(0x414140de) == [0x41, 0x41, 0x40, 0xde]
    ensures BE32(0x5dae2223) == [0x5d, 0xae, 0x22, 0x23]
    ensures BE32(0xb00361a3) == [0xb0, 0x03, 0x61, 0xa3]
    ensures BE32(0x96177a9c) == [0x96, 0x17, 0x7a, 0x9c]
    ensures BE32(0xb410ff61) == [0xb4, 0x10, 0xff, 0x61]
    ensures BE32(0xf20015ad) == [0xf2, 0x00, 0x15, 0xad]
  {}

  const ABC_HASH: seq<word> := [0xba7816bf, 0x8f01cfea, 0x414140de, 0x5dae2223,
    0xb00361a3, 0x96177a9c, 0xb410ff61, 0xf20015ad]

  lemma AbcHashed()
    ensures HashBlocks(Block()) == ABC_HASH
  {
    hide Rounds, Block, Add;
    InitialValueIsRoots();
    Rounds64();
    Sums();
    var b := Block();
    assert b[..0] == [] && b[0..] == b;
    assert HashBlocks([]) == H0;
    assert ToVars(H0) == Start();
  }

  /** The example of the standard: SHA-256 of "abc". */
  lemma AbcDigest()
    ensures Digest(ABC) ==
      ([0xba, 0x78, 0x16, 0xbf] + [0x8f, 0x01, 0xcf, 0xea] +
       [0x41, 0x41, 0x40, 0xde] + [0x5d, 0xae, 0x22, 0x23]) +
      ([0xb0, 0x03, 0x61, 0xa3] + [0x96, 0x17, 0x7a, 0x9c] +
       [0xb4, 0x10, 0xff, 0x61] + [0xf2, 0x00, 0x15, 0xad])
  {
    hide HashBlocks, Pad, Block, BE32, WordBytes;
    AbcPadded();
    AbcHashed();
    Bytes32();
    WordBytesAppend(ABC_HASH[..4], ABC_HASH[4..]);
    assert ABC_HASH == ABC_HASH[..4] + ABC_HASH[4..];
    assert ABC_HASH[..4] == [0xba7816bf, 0x8f01cfea, 0x414140de, 0x5dae2223];
    assert ABC_HASH[4..] == [0xb00361a3, 0x96177a9c, 0xb410ff61, 0xf20015ad];
    Unrolled(0xba7816bf, 0x8f01cfea, 0x414140de, 0x5dae2223);
    Unrolled(0xb00361a3, 0x96177a9c, 0xb410ff61, 0xf20015ad);
  }

  lemma Unrolled(a: word, b: word, c: word, d: word)
    ensures WordBytes([a, b, c, d]) == BE32(a) + BE32(b) + BE32(c) + BE32(d)
  {
    hide BE32;
    assert [a, b, c, d][..3] == [a, b, c] && [a, b, c][..2] == [a, b] && [a, b][..1] == [a];
    assert WordBytes([a, b]) == WordBytes([a]) + BE32(b);
    assert WordBytes([a]) == BE32(a);
  }

  lemma {:induction false} WordBytesAppend(s: seq<word>, t: seq<word>)
    ensures WordBytes(s + t) == WordBytes(s) + WordBytes(t)
    decreases |t|
  {
    hide BE32;
    if t == [] {
      assert s + t == s;
    } else {
      assert (s + t)[..|s + t| - 1] == s + t[..|t| - 1];
      WordBytesAppend(s, t[..|t| - 1]);
    }
  }
}
