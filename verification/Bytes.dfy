/** Bytes and 32-bit words as the C code stores them, and their byte encodings. */
module Bytes {
  type byte = bv8
  type word = bv32

  /** Exclusive-or as a named function: proofs above this module treat it as a black box. */
  function Xor(a: word, b: word): word {
    a ^ b
  }

  lemma XorCancel(a: word, x: word, y: word)
    requires Xor(a, x) == Xor(a, y)
    ensures x == y
  {}

  /** The cast (uint8_t)(w & 0xFF). */
  function LowByte(w: word): byte {
    (w & 0xFF) as byte
  }

  function Shift8(w: word): word {
    w >> 8
  }

  lemma XorAssociativeRaw(a: word, b: word, c: word)
    ensures Xor(a ^ b, c) == Xor(a, b ^ c)
  {}

  lemma XorDefinition(a: word, b: word)
    ensures Xor(a, b) == a ^ b
  {}

  lemma XorAssociative(a: word, b: word, c: word)
    ensures Xor(Xor(a, b), c) == Xor(a, Xor(b, c))
  {
    hide *;
    XorDefinition(a, b);
    XorDefinition(b, c);
    XorAssociativeRaw(a, b, c);
  }

  /** A word as four bytes, most significant first. */
  function BE32(w: word): (s: seq<byte>)
    ensures |s| == 4
  {
    [((w >> 24) & 0xFF) as byte, ((w >> 16) & 0xFF) as byte, ((w >> 8) & 0xFF) as byte, (w & 0xFF) as byte]
  }

  function Join(a: byte, b: byte, c: byte, d: byte): word {
    (a as word << 24) | (b as word << 16) | (c as word << 8) | d as word
  }

  /** The word held big-endian in the first four bytes of s. */
  function LoadBE32(s: seq<byte>): word
    requires |s| >= 4
  {
    Join(s[0], s[1], s[2], s[3])
  }

  lemma LoadStoreBE32(w: word)
    ensures LoadBE32(BE32(w)) == w
  {}

  lemma StoreLoadBytes(a: byte, b: byte, c: byte, d: byte)
    ensures BE32(Join(a, b, c, d)) == [a, b, c, d]
  {}

  lemma StoreLoadBE32(s: seq<byte>)
    requires |s| == 4
    ensures BE32(LoadBE32(s)) == s
  {
    hide BE32, Join;
    StoreLoadBytes(s[0], s[1], s[2], s[3]);
  }

  /** The byte holding n modulo 256: the C cast (uint8_t)(n & 0xFF). */
  function Low8(n: nat): byte {
    (n % 256) as byte
  }

  function Value(b: byte): (n: nat)
    ensures n < 256
  {
    b as int
  }

  lemma ValueLow8(n: nat)
    requires n < 256
    ensures Value(Low8(n)) == n
  {
    assert n % 256 == n;
  }

  lemma Low8Value(b: byte)
    ensures Low8(Value(b)) == b
  {
    assert Value(b) % 256 == Value(b);
  }

  lemma Low8Mod(n: nat)
    ensures Low8(n) == Low8(n % 256)
  {}

  // ---- Numbers (uint32_t and uint64_t values that are only added and compared) ----

  /** n >> bits on an unsigned integer. */
  function ShiftRight(n: nat, bits: nat): nat {
    if bits == 0 then n else ShiftRight(n / 2, bits - 1)
  }

  /** n in k bytes, most significant first, higher bytes dropped. */
  function BigEndian(k: nat, n: nat): (s: seq<byte>)
    ensures |s| == k
  {
    if k == 0 then [] else BigEndian(k - 1, n / 256) + [Low8(n)]
  }

  /** The number whose big-endian bytes are s. */
  function BigEndianValue(s: seq<byte>): nat
    decreases |s|
  {
    if s == [] then 0 else BigEndianValue(s[..|s| - 1]) * 256 + Value(s[|s| - 1])
  }

  function Pow256(k: nat): (p: nat)
    ensures p > 0
  {
    if k == 0 then 1 else 256 * Pow256(k - 1)
  }

  lemma {:induction false} BigEndianRoundTrip(k: nat, n: nat)
    requires n < Pow256(k)
    ensures BigEndianValue(BigEndian(k, n)) == n
  {
    if k > 0 {
      var s := BigEndian(k - 1, n / 256);
      BigEndianRoundTrip(k - 1, n / 256);
      assert (s + [Low8(n)])[..k - 1] == s;
      ValueLow8(n % 256);
      assert Low8(n) == Low8(n % 256);
    }
  }

  lemma ShiftByByte(n: nat, bits: nat)
    requires bits >= 8
    ensures ShiftRight(n, bits) == ShiftRight(n / 256, bits - 8)
  {
    var n2 := n / 2 / 2;
    var n4 := n2 / 2 / 2;
    var n6 := n4 / 2 / 2;
    assert ShiftRight(n, bits) == ShiftRight(n2, bits - 2);
    assert ShiftRight(n2, bits - 2) == ShiftRight(n4, bits - 4);
    assert ShiftRight(n4, bits - 4) == ShiftRight(n6, bits - 6);
    assert ShiftRight(n6, bits - 6) == ShiftRight(n6 / 2 / 2, bits - 8);
    assert n6 / 2 / 2 == n / 256;
  }

  /** Byte i of the encoding is what the C code takes by shifting. */
  lemma {:induction false} BigEndianByte(k: nat, n: nat, i: nat)
    requires i < k
    ensures BigEndian(k, n)[i] == Low8(ShiftRight(n, 8 * (k - 1 - i)))
  {
    if i < k - 1 {
      BigEndianByte(k - 1, n / 256, i);
      ShiftByByte(n, 8 * (k - 1 - i));
    }
  }

  /** The encoding undoes the decoding, so no two byte strings of one length are the same number. */
  lemma {:induction false} BigEndianOfValue(s: seq<byte>)
    ensures BigEndian(|s|, BigEndianValue(s)) == s
    decreases |s|
  {
    hide Low8, Value;
    if s != [] {
      var front, last := s[..|s| - 1], s[|s| - 1];
      BigEndianOfValue(front);
      Low8Value(last);
      Low8Mod(BigEndianValue(s));
      Low8Mod(Value(last));
      assert BigEndianValue(s) / 256 == BigEndianValue(front) && BigEndianValue(s) % 256 == Value(last) % 256;
      assert s == front + [last];
    }
  }

  /** The low bytes of a number, most significant first. */
  lemma BigEndianNumbers(n: nat)
    ensures BigEndian(2, n) == [Low8(n / 256), Low8(n)]
    ensures BigEndian(3, n) == [Low8(n / 256 / 256), Low8(n / 256), Low8(n)]
    ensures BigEndian(4, n) == [Low8(n / 256 / 256 / 256), Low8(n / 256 / 256), Low8(n / 256), Low8(n)]
  {
    hide Low8;
    assert BigEndian(1, n / 256) == [Low8(n / 256)];
    assert BigEndian(1, n / 256 / 256) == [Low8(n / 256 / 256)];
    assert BigEndian(2, n / 256) == [Low8(n / 256 / 256), Low8(n / 256)];
    assert BigEndian(2, n / 256 / 256) == [Low8(n / 256 / 256 / 256), Low8(n / 256 / 256)] by {
      assert BigEndian(1, n / 256 / 256 / 256) == [Low8(n / 256 / 256 / 256)];
    }
  }

  // ---- Stores into a buffer, one byte at a time as in C ----

  method StoreBE32(v: word, b: array<byte>, at: nat)
    requires at + 4 <= b.Length
    modifies b
    ensures b[..at + 4] == old(b[..at]) + BE32(v)
    ensures b[at + 4..] == old(b[at + 4..])
  {
    b[at] := ((v >> 24) & 0xFF) as byte;
    b[at + 1] := ((v >> 16) & 0xFF) as byte;
    b[at + 2] := ((v >> 8) & 0xFF) as byte;
    b[at + 3] := (v & 0xFF) as byte;
  }

  method StoreNumber(n: nat, b: array<byte>, at: nat)
    requires at + 4 <= b.Length
    modifies b
    ensures b[..at + 4] == old(b[..at]) + BigEndian(4, n)
    ensures b[at + 4..] == old(b[at + 4..])
  {
    hide BigEndian, Low8, ShiftRight;
    BigEndianByte(4, n, 0);
    BigEndianByte(4, n, 1);
    BigEndianByte(4, n, 2);
    BigEndianByte(4, n, 3);
    b[at] := Low8(ShiftRight(n, 24));
    b[at + 1] := Low8(ShiftRight(n, 16));
    b[at + 2] := Low8(ShiftRight(n, 8));
    b[at + 3] := Low8(ShiftRight(n, 0));
  }

  /** The three low bytes of a trouble code. */
  method StoreCode(n: nat, b: array<byte>, at: nat)
    requires at + 3 <= b.Length
    modifies b
    ensures b[..at + 3] == old(b[..at]) + BigEndian(3, n)
    ensures b[at + 3..] == old(b[at + 3..])
  {
    hide BigEndian, Low8, ShiftRight;
    BigEndianByte(3, n, 0);
    BigEndianByte(3, n, 1);
    BigEndianByte(3, n, 2);
    b[at] := Low8(ShiftRight(n, 16));
    b[at + 1] := Low8(ShiftRight(n, 8));
    b[at + 2] := Low8(ShiftRight(n, 0));
  }
}
