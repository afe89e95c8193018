/**
 * AES-128 block encryption (core/uds_aes_cmac.c): the in-place rounds on a 4x4 state
 * against the cipher of FIPS 197 section 5.1, and its inverse of section 5.3.
 */
module Aes {
  import opened Bytes
  import opened Gf256

  /** Sixteen bytes: a block, a round key, or the state read column by column. */
  type block = s: seq<byte> | |s| == 16 witness seq(16, _ => 0)

  // ---- The four transformations on the state ----

  function SubBytes(s: block): block {
    seq(16, i requires 0 <= i < 16 => SubByte(s[i]))
  }

  function ShiftRows(s: block): block {
    [s[0], s[5], s[10], s[15], s[4], s[9], s[14], s[3], s[8], s[13], s[2], s[7], s[12], s[1], s[6], s[11]]
  }

  /** Row r of the state moves left by r columns. */
  lemma ShiftRowsMovesRows(s: block, r: nat, c: nat)
    requires r < 4 && c < 4
    ensures ShiftRows(s)[4 * c + r] == s[4 * ((c + r) % 4) + r]
  {}

  function XorBlocks(s: block, k: block): block {
    seq(16, i requires 0 <= i < 16 => XorB(s[i], k[i]))
  }

  const MIX0: quad := [2, 3, 1, 1]
  const MIX1: quad := [1, 2, 3, 1]
  const MIX2: quad := [1, 1, 2, 3]
  const MIX3: quad := [3, 1, 1, 2]

  function MixColumn(c: quad): quad {
    [Lin(c, MIX0), Lin(c, MIX1), Lin(c, MIX2), Lin(c, MIX3)]
  }

  function MixColumns(s: block): block {
    MixColumn(s[0..4]) + MixColumn(s[4..8]) + MixColumn(s[8..12]) + MixColumn(s[12..16])
  }

  // ---- Key expansion, section 5.2 ----

  const RCON: seq<byte> := [0x01, 0x02, 0x04, 0x08, 0x10, 0x20, 0x40, 0x80, 0x1B, 0x36]

  function XorWords(a: seq<byte>, b: seq<byte>): (c: seq<byte>)
    requires |a| == |b| == 4
    ensures |c| == 4
  {
    [XorB(a[0], b[0]), XorB(a[1], b[1]), XorB(a[2], b[2]), XorB(a[3], b[3])]
  }

  function RotWord(w: seq<byte>): (r: seq<byte>)
    requires |w| == 4
    ensures |r| == 4
  {
    w[1..] + w[..1]
  }

  function SubWord(w: seq<byte>): (r: seq<byte>)
    requires |w| == 4
    ensures |r| == 4
  {
    [SubByte(w[0]), SubByte(w[1]), SubByte(w[2]), SubByte(w[3])]
  }

  /** Word i of the key schedule. */
  function KeyWord(key: block, i: nat): (w: seq<byte>)
    requires i < 44
    ensures |w| == 4
  {
    if i < 4 then key[4 * i..4 * i + 4]
    else
      var prev := KeyWord(key, i - 1);
      var temp := if i % 4 == 0 then XorWords(SubWord(RotWord(prev)), [RCON[i / 4 - 1], 0, 0, 0]) else prev;
      XorWords(KeyWord(key, i - 4), temp)
  }

  function RoundKey(key: block, round: nat): block
    requires round <= 10
  {
    KeyWord(key, 4 * round) + KeyWord(key, 4 * round + 1) + KeyWord(key, 4 * round + 2) + KeyWord(key, 4 * round + 3)
  }

  // ---- The cipher ----

  /** The state after the first n rounds, 0 <= n <= 9. */
  function Rounds(key: block, plain: block, n: nat): block
    requires n <= 9
  {
    if n == 0 then XorBlocks(plain, RoundKey(key, 0))
    else XorBlocks(MixColumns(ShiftRows(SubBytes(Rounds(key, plain, n - 1)))), RoundKey(key, n))
  }

  function Cipher(key: block, plain: block): block {
    XorBlocks(ShiftRows(SubBytes(Rounds(key, plain, 9))), RoundKey(key, 10))
  }

  // ---- The inverse cipher ----

  function InvSubBytes(s: block): block {
    seq(16, i requires 0 <= i < 16 => InvSubByte(s[i]))
  }

  function InvShiftRows(s: block): block {
    [s[0], s[13], s[10], s[7], s[4], s[1], s[14], s[11], s[8], s[5], s[2], s[15], s[12], s[9], s[6], s[3]]
  }

  const UNMIX0: quad := [14, 11, 13, 9]
  const UNMIX1: quad := [9, 14, 11, 13]
  const UNMIX2: quad := [13, 9, 14, 11]
  const UNMIX3: quad := [11, 13, 9, 14]

  function InvMixColumn(c: quad): quad {
    [Lin(c, UNMIX0), Lin(c, UNMIX1), Lin(c, UNMIX2), Lin(c, UNMIX3)]
  }

  function InvMixColumns(s: block): block {
    InvMixColumn(s[0..4]) + InvMixColumn(s[4..8]) + InvMixColumn(s[8..12]) + InvMixColumn(s[12..16])
  }

  /** Undoes rounds n down to 1 and the initial key addition. */
  function InvRounds(key: block, s: block, n: nat): block
    requires n <= 9
    decreases n
  {
    if n == 0 then XorBlocks(s, RoundKey(key, 0))
    else InvRounds(key, InvSubBytes(InvShiftRows(InvMixColumns(XorBlocks(s, RoundKey(key, n))))), n - 1)
  }

  function InvCipher(key: block, c: block): block {
    InvRounds(key, InvSubBytes(InvShiftRows(XorBlocks(c, RoundKey(key, 10)))), 9)
  }

  // ---- Each transformation has an inverse ----

  lemma SubBytesInverts(s: block)
    ensures InvSubBytes(SubBytes(s)) == s && SubBytes(InvSubBytes(s)) == s
  {
    hide SubByte, InvSubByte;
    forall i | 0 <= i < 16
      ensures InvSubByte(SubByte(s[i])) == s[i] && SubByte(InvSubByte(s[i])) == s[i]
    {
      SubByteInverts(s[i]);
    }
  }

  lemma ShiftRowsInverts(s: block)
    ensures InvShiftRows(ShiftRows(s)) == s && ShiftRows(InvShiftRows(s)) == s
  {}

  lemma XorBlocksInverts(s: block, k: block)
    ensures XorBlocks(XorBlocks(s, k), k) == s
  {
    hide XorB;
    forall i | 0 <= i < 16
      ensures XorB(XorB(s[i], k[i]), k[i]) == s[i]
    {
      XorBAssociative(s[i], k[i], k[i]);
      XorBZero(k[i]);
      XorBZero(s[i]);
    }
  }

  /** The products with the matrix entries that the two column matrices need. */
  lemma SmallProducts()
    ensures Mul(1, 9) == 9 && Mul(1, 11) == 11 && Mul(1, 13) == 13 && Mul(1, 14) == 14
    ensures Mul(2, 9) == 18 && Mul(2, 11) == 22 && Mul(2, 13) == 26 && Mul(2, 14) == 28
    ensures Mul(3, 9) == 27 && Mul(3, 11) == 29 && Mul(3, 13) == 23 && Mul(3, 14) == 18
  {
    hide Mul;
    OneTimes(9);
    OneTimes(11);
    OneTimes(13);
    OneTimes(14);
    MulUnrolls(2, 9);
    MulUnrolls(2, 11);
    MulUnrolls(2, 13);
    MulUnrolls(2, 14);
    MulUnrolls(3, 9);
    MulUnrolls(3, 11);
    MulUnrolls(3, 13);
    MulUnrolls(3, 14);
  }

  lemma MatrixProduct()
    ensures RowTimesMatrix(UNMIX0, MIX0, MIX1, MIX2, MIX3) == [1, 0, 0, 0]
    ensures RowTimesMatrix(UNMIX1, MIX0, MIX1, MIX2, MIX3) == [0, 1, 0, 0]
    ensures RowTimesMatrix(UNMIX2, MIX0, MIX1, MIX2, MIX3) == [0, 0, 1, 0]
    ensures RowTimesMatrix(UNMIX3, MIX0, MIX1, MIX2, MIX3) == [0, 0, 0, 1]
  {
    hide Mul;
    SmallProducts();
  }

  lemma MatrixProductReversed()
    ensures RowTimesMatrix(MIX0, UNMIX0, UNMIX1, UNMIX2, UNMIX3) == [1, 0, 0, 0]
    ensures RowTimesMatrix(MIX1, UNMIX0, UNMIX1, UNMIX2, UNMIX3) == [0, 1, 0, 0]
    ensures RowTimesMatrix(MIX2, UNMIX0, UNMIX1, UNMIX2, UNMIX3) == [0, 0, 1, 0]
    ensures RowTimesMatrix(MIX3, UNMIX0, UNMIX1, UNMIX2, UNMIX3) == [0, 0, 0, 1]
  {
    hide Mul;
    SmallProducts();
    forall k, m: byte
      ensures Mul(m, k) == Mul(k, m)
    {
      MulCommutes(k, m);
    }
  }

  lemma MixColumnInverts(c: quad)
    ensures InvMixColumn(MixColumn(c)) == c && MixColumn(InvMixColumn(c)) == c
  {
    hide Lin, RowTimesMatrix;
    LinComposes(c, UNMIX0, MIX0, MIX1, MIX2, MIX3);
    LinComposes(c, UNMIX1, MIX0, MIX1, MIX2, MIX3);
    LinComposes(c, UNMIX2, MIX0, MIX1, MIX2, MIX3);
    LinComposes(c, UNMIX3, MIX0, MIX1, MIX2, MIX3);
    LinComposes(c, MIX0, UNMIX0, UNMIX1, UNMIX2, UNMIX3);
    LinComposes(c, MIX1, UNMIX0, UNMIX1, UNMIX2, UNMIX3);
    LinComposes(c, MIX2, UNMIX0, UNMIX1, UNMIX2, UNMIX3);
    LinComposes(c, MIX3, UNMIX0, UNMIX1, UNMIX2, UNMIX3);
    MatrixProduct();
    MatrixProductReversed();
    LinUnit(c);
  }

  lemma MixColumnsInverts(s: block)
    ensures InvMixColumns(MixColumns(s)) == s && MixColumns(InvMixColumns(s)) == s
  {
    hide MixColumn, InvMixColumn;
    MixColumnInverts(s[0..4]);
    MixColumnInverts(s[4..8]);
    MixColumnInverts(s[8..12]);
    MixColumnInverts(s[12..16]);
    var t := MixColumns(s);
    assert t[0..4] == MixColumn(s[0..4]) && t[4..8] == MixColumn(s[4..8]);
    assert t[8..12] == MixColumn(s[8..12]) && t[12..16] == MixColumn(s[12..16]);
    var u := InvMixColumns(s);
    assert u[0..4] == InvMixColumn(s[0..4]) && u[4..8] == InvMixColumn(s[4..8]);
    assert u[8..12] == InvMixColumn(s[8..12]) && u[12..16] == InvMixColumn(s[12..16]);
  }

  // ---- Decryption undoes encryption, for every key ----

  lemma RoundInverts(s: block, k: block)
    ensures
      InvSubBytes(InvShiftRows(InvMixColumns(XorBlocks(XorBlocks(MixColumns(ShiftRows(SubBytes(s))), k), k)))) == s
    ensures
      XorBlocks(MixColumns(ShiftRows(SubBytes(InvSubBytes(InvShiftRows(InvMixColumns(XorBlocks(s, k))))))), k) == s
  {
    hide *;
    XorBlocksInverts(MixColumns(ShiftRows(SubBytes(s))), k);
    MixColumnsInverts(ShiftRows(SubBytes(s)));
    ShiftRowsInverts(SubBytes(s));
    SubBytesInverts(s);
    XorBlocksInverts(s, k);
    var t := XorBlocks(s, k);
    MixColumnsInverts(t);
    ShiftRowsInverts(InvMixColumns(t));
    SubBytesInverts(InvShiftRows(InvMixColumns(t)));
  }

  lemma {:induction false} RoundsInvert(key: block, s: block, n: nat)
    requires n <= 9
    ensures InvRounds(key, Rounds(key, s, n), n) == s
    ensures Rounds(key, InvRounds(key, s, n), n) == s
    decreases n
  {
    hide SubBytes, ShiftRows, MixColumns, XorBlocks, InvSubBytes, InvShiftRows, InvMixColumns, RoundKey;
    if n == 0 {
      XorBlocksInverts(s, RoundKey(key, 0));
    } else {
      RoundInverts(Rounds(key, s, n - 1), RoundKey(key, n));
      RoundsInvert(key, s, n - 1);
      var t := InvSubBytes(InvShiftRows(InvMixColumns(XorBlocks(s, RoundKey(key, n)))));
      RoundsInvert(key, t, n - 1);
      RoundInverts(s, RoundKey(key, n));
    }
  }

  /** Under every key the cipher is a bijection on blocks. */
  lemma CipherInverts(key: block, s: block)
    ensures InvCipher(key, Cipher(key, s)) == s && Cipher(key, InvCipher(key, s)) == s
  {
    hide SubBytes, ShiftRows, XorBlocks, InvSubBytes, InvShiftRows, RoundKey, Rounds, InvRounds;
    var t := Rounds(key, s, 9);
    RoundsInvert(key, s, 9);
    XorBlocksInverts(ShiftRows(SubBytes(t)), RoundKey(key, 10));
    ShiftRowsInverts(SubBytes(t));
    SubBytesInverts(t);
    var v := XorBlocks(s, RoundKey(key, 10));
    var u := InvSubBytes(InvShiftRows(v));
    RoundsInvert(key, u, 9);
    SubBytesInverts(InvShiftRows(v));
    ShiftRowsInverts(v);
    XorBlocksInverts(s, RoundKey(key, 10));
  }

  lemma CipherInjective(key: block, p: block, q: block)
    requires Cipher(key, p) == Cipher(key, q)
    ensures p == q
  {
    hide Cipher, InvCipher;
    CipherInverts(key, p);
    CipherInverts(key, q);
  }

  // ---- The C code: a 4x4 byte array changed in place ----

  /** The state array read column by column. */
  ghost function Flat(state: array2<byte>): block
    requires state.Length0 == 4 && state.Length1 == 4
    reads state
  {
    [state[0, 0], state[1, 0], state[2, 0], state[3, 0], state[0, 1], state[1, 1], state[2, 1], state[3, 1],
     state[0, 2], state[1, 2], state[2, 2], state[3, 2], state[0, 3], state[1, 3], state[2, 3], state[3, 3]]
  }

  /** Word i of an expanded key. */
  function Word(rk: seq<byte>, i: nat): (w: seq<byte>)
    requires 4 * i + 4 <= |rk|
    ensures |w| == 4
  {
    rk[4 * i..4 * i + 4]
  }

  ghost predicate Expanded(key: block, rk: seq<byte>, n: nat) {
    n <= 44 && |rk| == 176 && forall i :: 0 <= i < n ==> Word(rk, i) == KeyWord(key, i)
  }

  /** aes_key_expand */
  method KeyExpand(key: array<byte>, roundKey: array<byte>)
    requires key.Length == 16 && roundKey.Length == 176 && key != roundKey
    modifies roundKey
    ensures Expanded(key[..], roundKey[..], 44)
  {
    ghost var k: block := key[..];
    for i := 0 to 16
      modifies roundKey
      invariant roundKey[..i] == k[..i]
      invariant k == key[..]
    {
      roundKey[i] := key[i];
    }
    RawKeyExpanded(k, roundKey[..]);
    ExpandRest(k, roundKey);
  }

  method ExpandRest(ghost k: block, roundKey: array<byte>)
    requires roundKey.Length == 176 && Expanded(k, roundKey[..], 4)
    modifies roundKey
    ensures Expanded(k, roundKey[..], 44)
  {
    hide KeyWord, Word, XorWords, SubWord, RotWord;
    for i := 4 to 44
      invariant Expanded(k, roundKey[..], i)
    {
      var temp := ScheduleTemp(roundKey[..][4 * (i - 1)..4 * (i - 1) + 4], i);
      WordSlice(roundKey[..], i - 1);
      KeyWordStep(k, i);
      XorWordInto(roundKey, i, temp);
    }
  }

  lemma WordSlice(rk: seq<byte>, i: nat)
    requires 4 * i + 4 <= |rk|
    ensures Word(rk, i) == rk[4 * i..4 * i + 4]
  {}

  lemma KeyWordStep(key: block, i: nat)
    requires 4 <= i < 44
    ensures KeyWord(key, i) == XorWords(KeyWord(key, i - 4),
      if i % 4 == 0 then XorWords(SubWord(RotWord(KeyWord(key, i - 1))), [RCON[i / 4 - 1], 0, 0, 0])
      else KeyWord(key, i - 1))
  {
    hide XorWords, SubWord, RotWord;
  }

  lemma RawKeyExpanded(key: block, rk: seq<byte>)
    requires |rk| == 176 && rk[..16] == key[..16]
    ensures Expanded(key, rk, 4)
  {
    forall i | 0 <= i < 4
      ensures Word(rk, i) == KeyWord(key, i)
    {
      assert Word(rk, i) == rk[..16][4 * i..4 * i + 4];
    }
  }

  /** Word i becomes the word four back xored with temp; no other word changes. */
  method XorWordInto(roundKey: array<byte>, i: nat, temp: seq<byte>)
    requires roundKey.Length == 176 && 4 <= i < 44 && |temp| == 4
    modifies roundKey
    ensures Word(roundKey[..], i) == XorWords(old(Word(roundKey[..], i - 4)), temp)
    ensures forall j :: 0 <= j < 44 && j != i ==> Word(roundKey[..], j) == old(Word(roundKey[..], j))
  {
    hide XorB, Word;
    var base, prevBase := 4 * i, 4 * (i - 4);
    ghost var was := roundKey[..];
    roundKey[base] := XorB(roundKey[prevBase], temp[0]);
    roundKey[base + 1] := XorB(roundKey[prevBase + 1], temp[1]);
    roundKey[base + 2] := XorB(roundKey[prevBase + 2], temp[2]);
    roundKey[base + 3] := XorB(roundKey[prevBase + 3], temp[3]);
    WordAt(was, i - 4);
    assert roundKey[..] == was[..4 * i] + XorWords(Word(was, i - 4), temp) + was[4 * i + 4..];
    WordReplaced(was, i, XorWords(Word(was, i - 4), temp));
  }

  lemma WordAt(rk: seq<byte>, i: nat)
    requires 4 * i + 4 <= |rk|
    ensures Word(rk, i) == [rk[4 * i], rk[4 * i + 1], rk[4 * i + 2], rk[4 * i + 3]]
  {}

  lemma WordReplaced(rk: seq<byte>, i: nat, w: seq<byte>)
    requires |rk| == 176 && i < 44 && |w| == 4
    ensures var r := rk[..4 * i] + w + rk[4 * i + 4..];
      Word(r, i) == w && forall j :: 0 <= j < 44 && j != i ==> Word(r, j) == Word(rk, j)
  {
    var r := rk[..4 * i] + w + rk[4 * i + 4..];
    forall j | 0 <= j < 44 && j != i
      ensures Word(r, j) == Word(rk, j)
    {
      WordAt(r, j);
      WordAt(rk, j);
    }
  }

  /** The temp word of one key schedule iteration. */
  method ScheduleTemp(prev: seq<byte>, i: nat) returns (temp: seq<byte>)
    requires |prev| == 4 && 4 <= i < 44
    ensures temp == if i % 4 == 0 then XorWords(SubWord(RotWord(prev)), [RCON[i / 4 - 1], 0, 0, 0]) else prev
  {
    hide XorB, SubByte;
    temp := prev;
    if i % 4 == 0 {
      temp := [temp[1], temp[2], temp[3], temp[0]];
      var a := AesSubByte(temp[0]);
      var b := AesSubByte(temp[1]);
      var c := AesSubByte(temp[2]);
      var d := AesSubByte(temp[3]);
      XorBZero(b);
      XorBZero(c);
      XorBZero(d);
      temp := [XorB(a, RCON[i / 4 - 1]), b, c, d];
    }
  }

  ghost function RowOf(state: array2<byte>, r: nat): quad
    requires state.Length0 == 4 && state.Length1 == 4 && r < 4
    reads state
  {
    [state[r, 0], state[r, 1], state[r, 2], state[r, 3]]
  }

  function Interleave(a: quad, b: quad, c: quad, d: quad): block {
    [a[0], b[0], c[0], d[0], a[1], b[1], c[1], d[1], a[2], b[2], c[2], d[2], a[3], b[3], c[3], d[3]]
  }

  lemma FlatRows(state: array2<byte>)
    requires state.Length0 == 4 && state.Length1 == 4
    ensures Flat(state) == Interleave(RowOf(state, 0), RowOf(state, 1), RowOf(state, 2), RowOf(state, 3))
  {}

  lemma InterleaveAt(a: quad, b: quad, c: quad, d: quad, i: nat)
    requires i < 16
    ensures Interleave(a, b, c, d)[i] == [a, b, c, d][i % 4][i / 4]
  {}

  lemma SubRows(a: quad, b: quad, c: quad, d: quad)
    ensures SubBytes(Interleave(a, b, c, d)) == Interleave(SubWord(a), SubWord(b), SubWord(c), SubWord(d))
  {
    hide SubByte, Interleave;
    forall i | 0 <= i < 16
      ensures SubBytes(Interleave(a, b, c, d))[i] == Interleave(SubWord(a), SubWord(b), SubWord(c), SubWord(d))[i]
    {
      InterleaveAt(a, b, c, d, i);
      InterleaveAt(SubWord(a), SubWord(b), SubWord(c), SubWord(d), i);
    }
  }

  method SubRow(state: array2<byte>, r: nat)
    requires state.Length0 == 4 && state.Length1 == 4 && r < 4
    modifies state
    ensures RowOf(state, r) == SubWord(old(RowOf(state, r)))
    ensures forall i :: 0 <= i < 4 && i != r ==> RowOf(state, i) == old(RowOf(state, i))
  {
    hide SubByte;
    for c := 0 to 4
      invariant forall i, j :: 0 <= i < 4 && 0 <= j < 4 ==>
        state[i, j] == if i == r && j < c then SubByte(old(state[i, j])) else old(state[i, j])
    {
      var b := AesSubByte(state[r, c]);
      state[r, c] := b;
    }
  }

  method AesSubBytes(state: array2<byte>)
    requires state.Length0 == 4 && state.Length1 == 4
    modifies state
    ensures Flat(state) == SubBytes(old(Flat(state)))
  {
    hide SubBytes, SubWord, Interleave, Flat, RowOf;
    FlatRows(state);
    for r := 0 to 4
      invariant forall i :: r <= i < 4 ==> RowOf(state, i) == old(RowOf(state, i))
      invariant forall i :: 0 <= i < r ==> RowOf(state, i) == SubWord(old(RowOf(state, i)))
    {
      SubRow(state, r);
    }
    FlatRows(state);
    SubRows(old(RowOf(state, 0)), old(RowOf(state, 1)), old(RowOf(state, 2)), old(RowOf(state, 3)));
  }

  method AesShiftRows(state: array2<byte>)
    requires state.Length0 == 4 && state.Length1 == 4
    modifies state
    ensures Flat(state) == ShiftRows(old(Flat(state)))
  {
    var temp := state[1, 0];
    state[1, 0] := state[1, 1];
    state[1, 1] := state[1, 2];
    state[1, 2] := state[1, 3];
    state[1, 3] := temp;

    temp := state[2, 0];
    state[2, 0] := state[2, 2];
    state[2, 2] := temp;
    temp := state[2, 1];
    state[2, 1] := state[2, 3];
    state[2, 3] := temp;

    temp := state[3, 3];
    state[3, 3] := state[3, 2];
    state[3, 2] := state[3, 1];
    state[3, 1] := state[3, 0];
    state[3, 0] := temp;
  }

  ghost function Column(state: array2<byte>, c: nat): quad
    requires state.Length0 == 4 && state.Length1 == 4 && c < 4
    reads state
  {
    [state[0, c], state[1, c], state[2, c], state[3, c]]
  }

  lemma SumIsXor(p: byte, q: byte, r: byte, s: byte)
    ensures Sum(p, q, r, s) == p ^ q ^ r ^ s
  {}

  method MixOneColumn(s0: byte, s1: byte, s2: byte, s3: byte) returns (t0: byte, t1: byte, t2: byte, t3: byte)
    ensures [t0, t1, t2, t3] == MixColumn([s0, s1, s2, s3])
  {
    hide Mul, Mul2, Sum;
    var m0 := GfMul(s0, 3);
    var m1 := GfMul(s1, 3);
    var m2 := GfMul(s2, 3);
    var m3 := GfMul(s3, 3);
    TimesX(s0);
    TimesX(s1);
    TimesX(s2);
    TimesX(s3);
    TimesOne(s0);
    TimesOne(s1);
    TimesOne(s2);
    TimesOne(s3);
    SumIsXor(Mul2(s0), m1, s2, s3);
    SumIsXor(s0, Mul2(s1), m2, s3);
    SumIsXor(s0, s1, Mul2(s2), m3);
    SumIsXor(m0, s1, s2, Mul2(s3));
    t0 := Mul2(s0) ^ m1 ^ s2 ^ s3;
    t1 := s0 ^ Mul2(s1) ^ m2 ^ s3;
    t2 := s0 ^ s1 ^ Mul2(s2) ^ m3;
    t3 := m0 ^ s1 ^ s2 ^ Mul2(s3);
  }

  method MixColumnAt(state: array2<byte>, c: nat)
    requires state.Length0 == 4 && state.Length1 == 4 && c < 4
    modifies state
    ensures Column(state, c) == MixColumn(old(Column(state, c)))
    ensures forall j :: 0 <= j < 4 && j != c ==> Column(state, j) == old(Column(state, j))
  {
    hide MixColumn;
    var t0, t1, t2, t3 := MixOneColumn(state[0, c], state[1, c], state[2, c], state[3, c]);
    state[0, c] := t0;
    state[1, c] := t1;
    state[2, c] := t2;
    state[3, c] := t3;
  }

  method AesMixColumns(state: array2<byte>)
    requires state.Length0 == 4 && state.Length1 == 4
    modifies state
    ensures Flat(state) == MixColumns(old(Flat(state)))
  {
    hide MixColumn;
    ghost var s := Flat(state);
    assert s[0..4] == Column(state, 0) && s[4..8] == Column(state, 1);
    assert s[8..12] == Column(state, 2) && s[12..16] == Column(state, 3);
    hide Column;
    for c := 0 to 4
      invariant forall j :: c <= j < 4 ==> Column(state, j) == old(Column(state, j))
      invariant forall j :: 0 <= j < c ==> Column(state, j) == MixColumn(old(Column(state, j)))
    {
      MixColumnAt(state, c);
    }
    FlatColumns(state);
  }

  lemma FlatColumns(state: array2<byte>)
    requires state.Length0 == 4 && state.Length1 == 4
    ensures Flat(state) == Column(state, 0) + Column(state, 1) + Column(state, 2) + Column(state, 3)
  {}

  function XorQuads(a: quad, b: quad): quad {
    [XorB(a[0], b[0]), XorB(a[1], b[1]), XorB(a[2], b[2]), XorB(a[3], b[3])]
  }

  method AddColumn(state: array2<byte>, c: nat, roundKey: array<byte>, from: nat, ghost k: block)
    requires state.Length0 == 4 && state.Length1 == 4 && c < 4
    requires from + 16 <= roundKey.Length && k == roundKey[from..from + 16]
    modifies state
    ensures Column(state, c) == XorQuads(old(Column(state, c)), k[4 * c..4 * c + 4])
    ensures forall j :: 0 <= j < 4 && j != c ==> Column(state, j) == old(Column(state, j))
  {
    hide XorB;
    for r := 0 to 4
      invariant forall i, j :: 0 <= i < 4 && 0 <= j < 4 ==>
        state[i, j] == if j == c && i < r then XorB(old(state[i, j]), k[c * 4 + i]) else old(state[i, j])
    {
      assert roundKey[from + (c * 4 + r)] == k[c * 4 + r];
      state[r, c] := XorB(state[r, c], roundKey[from + (c * 4 + r)]);
    }
  }

  method AesAddRoundKey(state: array2<byte>, roundKey: array<byte>, from: nat)
    requires state.Length0 == 4 && state.Length1 == 4 && from + 16 <= roundKey.Length
    modifies state
    ensures Flat(state) == XorBlocks(old(Flat(state)), roundKey[from..from + 16])
  {
    hide XorB, XorBlocks, XorQuads;
    ghost var s: block, k: block := Flat(state), roundKey[from..from + 16];
    FlatColumns(state);
    assert s[0..4] == Column(state, 0) && s[4..8] == Column(state, 1);
    assert s[8..12] == Column(state, 2) && s[12..16] == Column(state, 3);
    hide Column, Flat;
    for c := 0 to 4
      invariant forall j :: c <= j < 4 ==> Column(state, j) == old(Column(state, j))
      invariant forall j :: 0 <= j < c ==> Column(state, j) == XorQuads(old(Column(state, j)), k[4 * j..4 * j + 4])
      invariant k == roundKey[from..from + 16]
    {
      AddColumn(state, c, roundKey, from, k);
    }
    FlatColumns(state);
    XorColumns(s, k);
  }

  lemma XorColumn(s: block, k: block, i: nat)
    requires i <= 12
    ensures XorBlocks(s, k)[i..i + 4] == XorQuads(s[i..i + 4], k[i..i + 4])
  {
    hide XorB;
  }

  lemma XorColumns(s: block, k: block)
    ensures XorBlocks(s, k) == XorQuads(s[0..4], k[0..4]) + XorQuads(s[4..8], k[4..8]) +
                               XorQuads(s[8..12], k[8..12]) + XorQuads(s[12..16], k[12..16])
  {
    hide XorBlocks, XorQuads;
    XorColumn(s, k, 0);
    XorColumn(s, k, 4);
    XorColumn(s, k, 8);
    XorColumn(s, k, 12);
    var x := XorBlocks(s, k);
    assert x == x[0..4] + x[4..8] + x[8..12] + x[12..16];
  }

  /** Loads a block into the state, column by column. */
  method Load(plaintext: array<byte>) returns (state: array2<byte>)
    requires plaintext.Length == 16
    ensures fresh(state) && state.Length0 == 4 && state.Length1 == 4 && Flat(state) == plaintext[..]
  {
    state := new byte[4, 4];
    for c := 0 to 4
      invariant forall i, j :: 0 <= i < 4 && 0 <= j < c ==> state[i, j] == plaintext[4 * j + i]
    {
      for r := 0 to 4
        invariant forall i, j :: 0 <= i < 4 && 0 <= j < c ==> state[i, j] == plaintext[4 * j + i]
        invariant forall i :: 0 <= i < r ==> state[i, c] == plaintext[4 * c + i]
      {
        state[r, c] := plaintext[c * 4 + r];
      }
    }
  }

  method UnloadColumn(state: array2<byte>, c: nat, ciphertext: array<byte>)
    requires state.Length0 == 4 && state.Length1 == 4 && ciphertext.Length == 16 && c < 4
    modifies ciphertext
    ensures ciphertext[..4 * c + 4] == old(ciphertext[..4 * c]) + Column(state, c)
  {
    for r := 0 to 4
      invariant ciphertext[..4 * c + r] == old(ciphertext[..4 * c]) + Column(state, c)[..r]
    {
      ciphertext[c * 4 + r] := state[r, c];
    }
  }

  method Unload(state: array2<byte>, ciphertext: array<byte>)
    requires state.Length0 == 4 && state.Length1 == 4 && ciphertext.Length == 16
    modifies ciphertext
    ensures ciphertext[..] == Flat(state)
  {
    hide Column, Flat;
    ghost var s := Flat(state);
    FlatColumns(state);
    assert forall j :: 0 <= j < 4 ==> s[4 * j..4 * j + 4] == Column(state, j);
    for c := 0 to 4
      invariant ciphertext[..4 * c] == s[..4 * c]
    {
      UnloadColumn(state, c, ciphertext);
      assert s[..4 * c + 4] == s[..4 * c] + s[4 * c..4 * c + 4];
    }
    assert ciphertext[..16] == ciphertext[..];
  }

  /** uds_aes128_encrypt_block */
  method EncryptBlock(key: array<byte>, plaintext: array<byte>, ciphertext: array<byte>)
    requires key.Length == 16 && plaintext.Length == 16 && ciphertext.Length == 16
    modifies ciphertext
    ensures ciphertext[..] == Cipher(old(key[..]), old(plaintext[..]))
  {
    hide SubBytes, ShiftRows, MixColumns, XorBlocks, KeyWord, Flat, RoundKey, Expanded;
    ghost var k: block, p: block := key[..], plaintext[..];
    var roundKey := new byte[176];
    KeyExpand(key, roundKey);
    var state := Load(plaintext);
    ghost var rk := roundKey[..];
    ExpandedRoundKey(k, rk, 0);
    AesAddRoundKey(state, roundKey, 0);
    assert roundKey[0..16] == rk[0..16];
    for round := 1 to 10
      invariant Flat(state) == Rounds(k, p, round - 1) && roundKey[..] == rk
    {
      AesSubBytes(state);
      AesShiftRows(state);
      AesMixColumns(state);
      ExpandedRoundKey(k, rk, round);
      assert roundKey[round * 16..round * 16 + 16] == rk[16 * round..16 * round + 16];
      AesAddRoundKey(state, roundKey, round * 16);
    }
    AesSubBytes(state);
    AesShiftRows(state);
    ExpandedRoundKey(k, rk, 10);
    assert roundKey[160..176] == rk[160..176];
    AesAddRoundKey(state, roundKey, 160);
    Unload(state, ciphertext);
  }

  lemma ExpandedRoundKey(key: block, rk: seq<byte>, round: nat)
    requires round <= 10 && Expanded(key, rk, 44)
    ensures |rk| == 176 && rk[16 * round..16 * round + 16] == RoundKey(key, round)
  {
    hide KeyWord;
    var i := 4 * round;
    assert Word(rk, i) == KeyWord(key, i) && Word(rk, i + 1) == KeyWord(key, i + 1);
    assert Word(rk, i + 2) == KeyWord(key, i + 2) && Word(rk, i + 3) == KeyWord(key, i + 3);
    assert rk[4 * i..4 * i + 16] == Word(rk, i) + Word(rk, i + 1) + Word(rk, i + 2) + Word(rk, i + 3);
  }
}
