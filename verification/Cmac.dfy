/** AES-CMAC (core/uds_aes_cmac.c) against sections 2.3 and 2.4 of RFC 4493. */
module Cmac {
  import opened Bytes
  import opened Gf256
  import opened Aes

  const ZERO: block := [0, 0, 0, 0, 0, 0, 0, 0, 0, 0, 0, 0, 0, 0, 0, 0]

  // ---- Subkeys, section 2.3 ----

  function ShiftByte(b: byte, carry: byte): byte {
    (b << 1) | carry
  }

  function TopBit(b: byte): byte {
    (b >> 7) & 1
  }

  /** The bytes of s shifted left by one bit as a whole, the carry of s[i + 1] entering s[i]. */
  function ShiftLeft(s: seq<byte>): (r: seq<byte>)
    ensures |r| == |s|
  {
    seq(|s|, i requires 0 <= i < |s| => ShiftByte(s[i], if i + 1 < |s| then TopBit(s[i + 1]) else 0))
  }

  /** The constant Rb of 128-bit blocks is 0x87, in the last byte. */
  function Fold(s: block, shifted: block): block {
    if s[0] & 0x80 != 0 then shifted[15 := shifted[15] ^ 0x87] else shifted
  }

  function Subkey(s: block): block {
    Fold(s, ShiftLeft(s))
  }

  function K1(key: block): block {
    Subkey(Cipher(key, ZERO))
  }

  function K2(key: block): block {
    Subkey(K1(key))
  }

  // ---- The tag, section 2.4 ----

  /** 10* padding of an incomplete block. */
  function PadBlock(s: seq<byte>): (b: block)
    requires |s| < 16
  {
    s + [0x80] + seq(15 - |s|, _ => 0)
  }

  /** How many blocks come before the last, possibly incomplete or empty, block. */
  function FullBlocks(length: nat): (n: nat)
    ensures 16 * n <= length <= 16 * n + 16 && (length > 0 ==> 16 * n < length)
  {
    if length == 0 then 0 else (length - 1) / 16
  }

  function MaskedLast(key: block, last: seq<byte>): block
    requires |last| <= 16
  {
    if |last| == 16 then XorBlocks(last, K1(key)) else XorBlocks(PadBlock(last), K2(key))
  }

  /** The message with its last block padded if need be and masked with K1 or K2. */
  function Masked(key: block, m: seq<byte>): (r: seq<byte>)
    ensures |r| == 16 * FullBlocks(|m|) + 16
  {
    var front := 16 * FullBlocks(|m|);
    m[..front] + MaskedLast(key, m[front..])
  }

  function BlockAt(s: seq<byte>, i: nat): block
    requires 16 * i + 16 <= |s|
  {
    s[16 * i..16 * i + 16]
  }

  /** CBC encryption chained through the first n blocks of s. */
  function Chain(key: block, s: seq<byte>, n: nat): block
    requires 16 * n <= |s|
  {
    if n == 0 then ZERO else Cipher(key, XorBlocks(Chain(key, s, n - 1), BlockAt(s, n - 1)))
  }

  function Tag(key: block, m: seq<byte>): block {
    Chain(key, Masked(key, m), FullBlocks(|m|) + 1)
  }

  // ---- What the shift means: doubling a 128-bit number ----

  lemma ShiftByteValue(b: byte, carry: byte)
    requires carry <= 1
    ensures Value(ShiftByte(b, carry)) + 256 * Value(TopBit(b)) == 2 * Value(b) + Value(carry)
  {}

  lemma TopBitIsBit(b: byte)
    ensures TopBit(b) <= 1 && Value(TopBit(b)) <= 1
  {}

  lemma Distribute(v: int, p: int, x: int)
    ensures (v * p + x) * 256 == v * (256 * p) + x * 256
  {}

  lemma {:induction false} BigEndianPrepend(b: byte, s: seq<byte>)
    ensures BigEndianValue([b] + s) == Value(b) * Pow256(|s|) + BigEndianValue(s)
    decreases |s|
  {
    hide Value;
    if s == [] {
      assert [b] + s == [b] && [b][..0] == [];
      assert BigEndianValue([b]) == BigEndianValue([]) * 256 + Value(b);
    } else {
      var t := s[..|s| - 1];
      assert ([b] + s)[..|s|] == [b] + t;
      assert BigEndianValue([b] + s) == BigEndianValue([b] + t) * 256 + Value(s[|s| - 1]);
      BigEndianPrepend(b, t);
      Distribute(Value(b), Pow256(|t|), BigEndianValue(t));
    }
  }

  /** The byte-wise shift doubles the number; what it drops is the top bit. */
  lemma {:induction false} ShiftDoubles(s: seq<byte>)
    requires s != []
    ensures BigEndianValue(ShiftLeft(s)) + Value(TopBit(s[0])) * Pow256(|s|) == 2 * BigEndianValue(s)
    decreases |s|
  {
    hide ShiftByte, TopBit, Value, BigEndianValue, ShiftLeft;
    var t := s[1..];
    var carry := if t == [] then 0 else TopBit(t[0]);
    var b := ShiftByte(s[0], carry);
    assert s == [s[0]] + t;
    ShiftSplits(s);
    BigEndianPrepend(s[0], t);
    BigEndianPrepend(b, ShiftLeft(t));
    if t == [] {
      EmptyValue();
    } else {
      ShiftDoubles(t);
      TopBitIsBit(t[0]);
    }
    ShiftByteValue(s[0], carry);
    Regroup(Value(b), Value(TopBit(s[0])), Value(s[0]), Value(carry), Pow256(|t|));
  }

  lemma ShiftSplits(s: seq<byte>)
    requires s != []
    ensures var t := s[1..];
      ShiftLeft(s) == [ShiftByte(s[0], if t == [] then 0 else TopBit(t[0]))] + ShiftLeft(t)
  {
    hide ShiftByte, TopBit;
  }

  lemma Regroup(b: int, top: int, s: int, carry: int, p: int)
    requires b + 256 * top == 2 * s + carry
    ensures b * p + top * (256 * p) == 2 * (s * p) + carry * p
  {
    assert (b + 256 * top) * p == (2 * s + carry) * p;
  }

  lemma EmptyValue()
    ensures Value(0) == 0 && BigEndianValue([]) == 0 && ShiftLeft([]) == []
  {}

  // ---- One-block messages ----

  /** Under one key, different messages below one block never share a full tag. */
  lemma ShortTagsDistinct(key: block, m: seq<byte>, n: seq<byte>)
    requires |m| < 16 && |n| < 16 && Tag(key, m) == Tag(key, n)
    ensures m == n
  {
    hide Cipher, XorBlocks, PadBlock, K2, Chain;
    ShortTag(key, m);
    ShortTag(key, n);
    var x, y := XorBlocks(PadBlock(m), K2(key)), XorBlocks(PadBlock(n), K2(key));
    CipherInjective(key, XorBlocks(ZERO, x), XorBlocks(ZERO, y));
    XorBlocksCancel(ZERO, x, y);
    XorBlocksInverts(PadBlock(m), K2(key));
    XorBlocksInverts(PadBlock(n), K2(key));
    PadBlockInjective(m, n);
  }

  lemma ShortTag(key: block, m: seq<byte>)
    requires |m| < 16
    ensures Tag(key, m) == Cipher(key, XorBlocks(ZERO, XorBlocks(PadBlock(m), K2(key))))
  {
    hide Cipher, XorBlocks, PadBlock, K2;
    var r := Masked(key, m);
    assert m[0..] == m;
    assert r == XorBlocks(PadBlock(m), K2(key));
    assert r[0..16] == r;
    assert Chain(key, r, 0) == ZERO;
  }

  lemma XorBlocksCancel(a: block, x: block, y: block)
    requires XorBlocks(a, x) == XorBlocks(a, y)
    ensures x == y
  {
    hide XorB;
    forall i | 0 <= i < 16
      ensures x[i] == y[i]
    {
      assert XorBlocks(a, x)[i] == XorB(a[i], x[i]) && XorBlocks(a, y)[i] == XorB(a[i], y[i]);
      XorBCancel(a[i], x[i], y[i]);
    }
  }

  lemma XorBCancel(a: byte, x: byte, y: byte)
    requires XorB(a, x) == XorB(a, y)
    ensures x == y
  {}

  lemma PadBlockInjective(m: seq<byte>, n: seq<byte>)
    requires |m| < 16 && |n| < 16 && PadBlock(m) == PadBlock(n)
    ensures m == n
  {
    var p := PadBlock(m);
    assert p[|m|] == 0x80 && p[|n|] == 0x80;
    assert forall i :: |m| < i < 16 ==> p[i] == 0;
    assert forall i :: |n| < i < 16 ==> PadBlock(n)[i] == 0;
    assert p[..|m|] == m && PadBlock(n)[..|n|] == n;
  }

  // ---- One block apart ----

  lemma {:induction false} ChainAgrees(key: block, s: seq<byte>, t: seq<byte>, n: nat)
    requires 16 * n <= |s| && 16 * n <= |t|
    requires forall i :: 0 <= i < n ==> BlockAt(s, i) == BlockAt(t, i)
    ensures Chain(key, s, n) == Chain(key, t, n)
  {
    hide Cipher, XorBlocks, BlockAt;
    if n > 0 {
      ChainAgrees(key, s, t, n - 1);
    }
  }

  /** The chain is injective in each single block. */
  lemma {:induction false} ChainInjective(key: block, s: seq<byte>, t: seq<byte>, n: nat, k: nat)
    requires 16 * n <= |s| && 16 * n <= |t| && k < n && Chain(key, s, n) == Chain(key, t, n)
    requires forall i :: 0 <= i < n && i != k ==> BlockAt(s, i) == BlockAt(t, i)
    ensures BlockAt(s, k) == BlockAt(t, k)
  {
    hide Cipher, XorBlocks, BlockAt;
    var a, b, x, y := Chain(key, s, n - 1), Chain(key, t, n - 1), BlockAt(s, n - 1), BlockAt(t, n - 1);
    CipherInjective(key, XorBlocks(a, x), XorBlocks(b, y));
    if k == n - 1 {
      ChainAgrees(key, s, t, k);
      XorBlocksCancel(a, x, y);
    } else {
      XorBlocksInverts(a, x);
      XorBlocksInverts(b, y);
      ChainInjective(key, s, t, n - 1, k);
    }
  }

  lemma MaskedBlock(key: block, m: seq<byte>, i: nat)
    requires i <= FullBlocks(|m|)
    ensures BlockAt(Masked(key, m), i) ==
      if i < FullBlocks(|m|) then BlockAt(m, i) else MaskedLast(key, m[16 * i..])
  {
    hide MaskedLast;
    var front, r := 16 * FullBlocks(|m|), Masked(key, m);
    assert r[..front] == m[..front] && r[front..front + 16] == MaskedLast(key, m[front..]);
    if i < FullBlocks(|m|) {
      assert r[16 * i..16 * i + 16] == r[..front][16 * i..16 * i + 16];
    }
  }

  lemma MaskedLastInjective(key: block, x: seq<byte>, y: seq<byte>)
    requires |x| == |y| <= 16 && MaskedLast(key, x) == MaskedLast(key, y)
    ensures x == y
  {
    hide XorBlocks, PadBlock, K1, K2;
    if |x| == 16 {
      XorBlocksInverts(x, K1(key));
      XorBlocksInverts(y, K1(key));
    } else {
      XorBlocksInverts(PadBlock(x), K2(key));
      XorBlocksInverts(PadBlock(y), K2(key));
      PadBlockInjective(x, y);
    }
  }

  /** Any change inside one 16-byte block, the last and possibly incomplete one included, changes the full tag. */
  lemma OneBlockApart(key: block, m: seq<byte>, n: seq<byte>, k: nat)
    requires |m| == |n| && k <= FullBlocks(|m|) && Tag(key, m) == Tag(key, n)
    requires forall i :: 0 <= i < |m| && !(16 * k <= i < 16 * k + 16) ==> m[i] == n[i]
    ensures m == n
  {
    hide Chain, Masked, MaskedLast, FullBlocks;
    var last := FullBlocks(|m|);
    var s, t := Masked(key, m), Masked(key, n);
    forall i | 0 <= i <= last && i != k
      ensures BlockAt(s, i) == BlockAt(t, i)
    {
      MaskedBlock(key, m, i);
      MaskedBlock(key, n, i);
      assert if i < last then BlockAt(m, i) == BlockAt(n, i) else m[16 * i..] == n[16 * i..];
    }
    ChainInjective(key, s, t, last + 1, k);
    MaskedBlock(key, m, k);
    MaskedBlock(key, n, k);
    if k == last {
      MaskedLastInjective(key, m[16 * k..], n[16 * k..]);
      assert m == m[..16 * k] + m[16 * k..] && n == n[..16 * k] + n[16 * k..];
    } else {
      forall i | 16 * k <= i < 16 * k + 16
        ensures m[i] == n[i]
      {
        assert m[i] == BlockAt(m, k)[i - 16 * k] && n[i] == BlockAt(n, k)[i - 16 * k];
      }
    }
  }

  // ---- The C code ----

  /** cmac_shift_left1: from the last byte to the first, carrying the top bit. */
  method ShiftLeft1(input: array<byte>, output: array<byte>)
    requires input.Length == 16 && output.Length == 16 && input != output
    modifies output
    ensures output[..] == ShiftLeft(input[..])
  {
    hide ShiftByte, TopBit, ShiftLeft;
    ghost var s := input[..];
    var carry: byte := 0;
    for i := 0 to 16
      invariant s == input[..]
      invariant carry == if i == 0 then 0 else TopBit(s[16 - i])
      invariant forall j :: 16 - i <= j < 16 ==> output[j] == ShiftLeft(s)[j]
    {
      var idx := 16 - 1 - i;
      var newCarry := TopBit(input[idx]);
      ShiftLeftAt(s, idx);
      output[idx] := ShiftByte(input[idx], carry);
      carry := newCarry;
    }
  }

  lemma ShiftLeftAt(s: seq<byte>, i: nat)
    requires i < |s|
    ensures ShiftLeft(s)[i] == ShiftByte(s[i], if i + 1 < |s| then TopBit(s[i + 1]) else 0)
  {}

  /** cmac_xor_block */
  method XorBlock(a: array<byte>, fromA: nat, b: array<byte>, fromB: nat, output: array<byte>)
    requires fromA + 16 <= a.Length && fromB + 16 <= b.Length && output.Length == 16
    requires output != a && output != b
    modifies output
    ensures output[..] == XorBlocks(a[fromA..fromA + 16], b[fromB..fromB + 16])
  {
    hide XorB;
    for i := 0 to 16
      invariant forall j :: 0 <= j < i ==> output[j] == XorB(a[fromA + j], b[fromB + j])
    {
      output[i] := XorB(a[fromA + i], b[fromB + i]);
    }
  }

  /** Doubling in the field of 128-bit blocks: one subkey from the block before it. */
  method DoubleBlock(s: array<byte>, k: array<byte>)
    requires s.Length == 16 && k.Length == 16 && s != k
    modifies k
    ensures k[..] == Subkey(s[..])
  {
    hide ShiftLeft;
    ShiftLeft1(s, k);
    if s[0] & 0x80 != 0 {
      k[15] := k[15] ^ 0x87;
    }
  }

  /** cmac_derive_subkeys */
  method DeriveSubkeys(key: array<byte>, k1: array<byte>, k2: array<byte>)
    requires key.Length == 16 && k1.Length == 16 && k2.Length == 16
    requires key != k1 && key != k2 && k1 != k2
    modifies k1, k2
    ensures k1[..] == K1(key[..]) && k2[..] == K2(key[..])
  {
    hide Cipher, Subkey;
    var zero := new byte[16](_ => 0);
    var L := new byte[16];
    assert zero[..] == ZERO;
    EncryptBlock(key, zero, L);
    DoubleBlock(L, k1);
    DoubleBlock(k1, k2);
  }

  /** An incomplete last block in a buffer of zeros, with the 0x80 behind it. */
  method Padded(msg: array?<byte>, start: nat, length: nat, ghost last: seq<byte>) returns (padded: array<byte>)
    requires |last| == length < 16
    requires if msg == null then length == 0 else start + length <= msg.Length && last == msg[start..start + length]
    ensures fresh(padded) && padded.Length == 16 && padded[..] == PadBlock(last)
  {
    padded := new byte[16](_ => 0);
    if msg != null {
      for i := 0 to length
        invariant padded[..i] == last[..i]
        invariant forall j :: i <= j < 16 ==> padded[j] == 0
      {
        assert last[i] == msg[start + i];
        padded[i] := msg[start + i];
      }
    }
    padded[length] := 0x80;
    assert padded[..length] == last;
  }

  /** The last block, padded and masked. */
  method BuildLast(msg: array?<byte>, start: nat, length: nat, k1: array<byte>, k2: array<byte>, mLast: array<byte>,
                   ghost key: block, ghost last: seq<byte>)
    requires k1.Length == 16 && k2.Length == 16 && mLast.Length == 16 && mLast != k1 && mLast != k2
    requires k1[..] == K1(key) && k2[..] == K2(key) && mLast != msg
    requires |last| == length <= 16
    requires if msg == null then length == 0 else start + length <= msg.Length && last == msg[start..start + length]
    modifies mLast
    ensures mLast[..] == MaskedLast(key, last)
  {
    hide K1, K2, XorBlocks;
    if length == 16 {
      assert k1[0..16] == k1[..];
      XorBlock(msg, start, k1, 0, mLast);
    } else {
      var padded := Padded(msg, start, length, last);
      assert k2[0..16] == k2[..] && padded[0..16] == padded[..];
      XorBlock(padded, 0, k2, 0, mLast);
    }
  }

  /** The CBC loop over all blocks but the last, then the last. */
  method ChainBlocks(key: array<byte>, msg: array?<byte>, nBlocks: nat, mLast: array<byte>, tag: array<byte>,
                     ghost r: seq<byte>)
    requires key.Length == 16 && mLast.Length == 16 && tag.Length == 16 && nBlocks > 0
    requires tag != key && tag != msg && tag != mLast
    requires |r| == 16 * nBlocks && mLast[..] == BlockAt(r, nBlocks - 1)
    requires if msg == null then nBlocks == 1 else 16 * (nBlocks - 1) <= msg.Length
    requires msg != null ==> msg[..16 * (nBlocks - 1)] == r[..16 * (nBlocks - 1)]
    modifies tag
    ensures tag[..] == Chain(key[..], r, nBlocks)
  {
    hide Cipher, XorBlocks;
    var x := new byte[16](_ => 0);
    var y := new byte[16];
    assert x[..] == ZERO;
    for i := 0 to nBlocks - 1
      invariant x[..] == Chain(key[..], r, i)
    {
      assert msg[i * 16..i * 16 + 16] == msg[..16 * (nBlocks - 1)][16 * i..16 * i + 16];
      assert BlockAt(r, i) == r[..16 * (nBlocks - 1)][16 * i..16 * i + 16];
      assert x[0..16] == x[..];
      XorBlock(x, 0, msg, i * 16, y);
      EncryptBlock(key, y, x);
    }
    assert x[0..16] == x[..] && mLast[0..16] == mLast[..];
    XorBlock(x, 0, mLast, 0, y);
    EncryptBlock(key, y, tag);
  }

  /** uds_aes_cmac: -1 if key or tag is NULL, else 0 and the tag. */
  method AesCmac(key: array?<byte>, msg: array?<byte>, msgLen: nat, tag: array?<byte>) returns (rc: int)
    requires key != null ==> key.Length == 16
    requires tag != null ==> tag.Length == 16 && tag != key && tag != msg
    requires if msg == null then msgLen == 0 else msgLen <= msg.Length
    modifies tag
    ensures rc == if key == null || tag == null then -1 else 0
    ensures rc == 0 ==> tag[..] == Tag(key[..], if msg == null then [] else msg[..msgLen])
  {
    hide K1, K2, MaskedLast, Chain;
    if key == null || tag == null {
      return -1;
    }
    var k1 := new byte[16];
    var k2 := new byte[16];
    DeriveSubkeys(key, k1, k2);
    ghost var k: block := key[..];
    ghost var m := if msg == null then [] else msg[..msgLen];

    var nBlocks, lastBlockLen, flag := 1, 0, false;
    if msgLen != 0 {
      nBlocks := (msgLen + 15) / 16;
      lastBlockLen := msgLen % 16;
      flag := lastBlockLen == 0;
    }
    assert nBlocks - 1 == FullBlocks(msgLen);
    var front := (nBlocks - 1) * 16;
    var mLast := new byte[16];
    assert msg != null ==> m[front..] == msg[front..msgLen];
    BuildLast(msg, front, if flag then 16 else lastBlockLen, k1, k2, mLast, k, m[front..]);
    ghost var r := Masked(k, m);
    assert r[..front] == m[..front] && BlockAt(r, nBlocks - 1) == mLast[..];
    assert msg != null ==> msg[..front] == m[..front];
    ChainBlocks(key, msg, nBlocks, mLast, tag, r);
    rc := 0;
  }
}
