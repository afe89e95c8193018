/**
 * Streaming SHA-256 (platform/uds_sha256.c) against the functional definition of
 * FIPS 180-4: the schedule and rounds of section 6.2.2, the padding of section 5.1.1.
 */
module Sha256 {
  import opened Arithmetic
  import opened Bytes

  const LEN_OFFSET: nat := 56

  // ---- Word functions, section 4.1.2 ----

  function Rotr(x: word, n: bv6): word
    requires 0 < n < 32
  {
    (x >> n) | (x << (32 - n))
  }

  function Ch(x: word, y: word, z: word): word {
    (x & y) ^ (!x & z)
  }

  function Maj(x: word, y: word, z: word): word {
    (x & y) ^ (x & z) ^ (y & z)
  }

  function BSig0(x: word): word {
    Rotr(x, 2) ^ Rotr(x, 13) ^ Rotr(x, 22)
  }

  function BSig1(x: word): word {
    Rotr(x, 6) ^ Rotr(x, 11) ^ Rotr(x, 25)
  }

  function SSig0(x: word): word {
    Rotr(x, 7) ^ Rotr(x, 18) ^ (x >> 3)
  }

  function SSig1(x: word): word {
    Rotr(x, 17) ^ Rotr(x, 19) ^ (x >> 10)
  }

  /** Addition of 32-bit words wraps. */
  function Add(x: word, y: word): word {
    x + y
  }

  // ---- Constants, sections 5.3.3 and 4.2.2 ----

  const H0: seq<word> := [
    0x6a09e667, 0xbb67ae85, 0x3c6ef372, 0xa54ff53a, 0x510e527f, 0x9b05688c, 0x1f83d9ab, 0x5be0cd19]

  const K_0: seq<word> := [
    0x428a2f98, 0x71374491, 0xb5c0fbcf, 0xe9b5dba5, 0x3956c25b, 0x59f111f1, 0x923f82a4, 0xab1c5ed5,
    0xd807aa98, 0x12835b01, 0x243185be, 0x550c7dc3, 0x72be5d74, 0x80deb1fe, 0x9bdc06a7, 0xc19bf174]
  const K_1: seq<word> := [
    0xe49b69c1, 0xefbe4786, 0x0fc19dc6, 0x240ca1cc, 0x2de92c6f, 0x4a7484aa, 0x5cb0a9dc, 0x76f988da,
    0x983e5152, 0xa831c66d, 0xb00327c8, 0xbf597fc7, 0xc6e00bf3, 0xd5a79147, 0x06ca6351, 0x14292967]
  const K_2: seq<word> := [
    0x27b70a85, 0x2e1b2138, 0x4d2c6dfc, 0x53380d13, 0x650a7354, 0x766a0abb, 0x81c2c92e, 0x92722c85,
    0xa2bfe8a1, 0xa81a664b, 0xc24b8b70, 0xc76c51a3, 0xd192e819, 0xd6990624, 0xf40e3585, 0x106aa070]
  const K_3: seq<word> := [
    0x19a4c116, 0x1e376c08, 0x2748774c, 0x34b0bcb5, 0x391c0cb3, 0x4ed8aa4a, 0x5b9cca4f, 0x682e6ff3,
    0x748f82ee, 0x78a5636f, 0x84c87814, 0x8cc70208, 0x90befffa, 0xa4506ceb, 0xbef9a3f7, 0xc67178f2]

  const K: seq<word> := K_0 + K_1 + K_2 + K_3

  // ---- The functional definition ----

  /** Word t of the message schedule of a block. */
  function Schedule(block: seq<byte>, t: nat): word
    requires |block| == 64 && t < 64
  {
    if t < 16 then LoadBE32(block[4 * t..])
    else Add(Add(Add(SSig1(Schedule(block, t - 2)), Schedule(block, t - 7)),
                 SSig0(Schedule(block, t - 15))), Schedule(block, t - 16))
  }

  datatype Vars = Vars(a: word, b: word, c: word, d: word, e: word, f: word, g: word, h: word)

  function T1(v: Vars, k: word, w: word): word {
    Add(Add(Add(Add(v.h, BSig1(v.e)), Ch(v.e, v.f, v.g)), k), w)
  }

  function T2(v: Vars): word {
    Add(BSig0(v.a), Maj(v.a, v.b, v.c))
  }

  function Round(v: Vars, k: word, w: word): Vars {
    Vars(Add(T1(v, k, w), T2(v)), v.a, v.b, v.c, Add(v.d, T1(v, k, w)), v.e, v.f, v.g)
  }

  /** The working variables after the first n rounds. */
  function Rounds(v: Vars, block: seq<byte>, n: nat): Vars
    requires |block| == 64 && n <= |K| == 64
  {
    if n == 0 then v else Round(Rounds(v, block, n - 1), K[n - 1], Schedule(block, n - 1))
  }

  function ToVars(s: seq<word>): Vars
    requires |s| == 8
  {
    Vars(s[0], s[1], s[2], s[3], s[4], s[5], s[6], s[7])
  }

  function AddVars(s: seq<word>, v: Vars): (r: seq<word>)
    requires |s| == 8
    ensures |r| == 8
  {
    [Add(s[0], v.a), Add(s[1], v.b), Add(s[2], v.c), Add(s[3], v.d),
     Add(s[4], v.e), Add(s[5], v.f), Add(s[6], v.g), Add(s[7], v.h)]
  }

  function Compression(s: seq<word>, block: seq<byte>): (r: seq<word>)
    requires |s| == 8 && |block| == 64
    ensures |r| == 8
  {
    AddVars(s, Rounds(ToVars(s), block, 64))
  }

  /** The chaining value after all blocks of m. */
  function HashBlocks(m: seq<byte>): (r: seq<word>)
    requires |m| % 64 == 0
    ensures |r| == 8
    decreases |m|
  {
    if m == [] then H0
    else Compression(HashBlocks(m[..|m| - 64]), m[|m| - 64..])
  }

  /** How many zero bytes put the length field at the end of a block. */
  function PadZeros(length: nat): (k: nat)
    ensures k < 64 && (length + 1 + k) % 64 == LEN_OFFSET && (length + 1 + k + 8) % 64 == 0
  {
    (119 - length % 64) % 64
  }

  /** Section 5.1.1 asks for the smallest such number. */
  lemma PadZerosIsLeast(length: nat, j: nat)
    requires (length + 1 + j) % 64 == LEN_OFFSET
    ensures PadZeros(length) <= j
  {}

  function Zeros(n: nat): (s: seq<byte>)
    ensures |s| == n
  {
    seq(n, _ => 0)
  }

  function Pad(m: seq<byte>): (p: seq<byte>)
    ensures |p| % 64 == 0
  {
    m + [0x80] + Zeros(PadZeros(|m|)) + BigEndian(8, 8 * |m|)
  }

  function WordBytes(s: seq<word>): (r: seq<byte>)
    ensures |r| == 4 * |s|
    decreases |s|
  {
    if s == [] then [] else WordBytes(s[..|s| - 1]) + BE32(s[|s| - 1])
  }

  /** SHA-256 of a message below 2^61 bytes. */
  function Digest(m: seq<byte>): (d: seq<byte>)
    ensures |d| == 32
  {
    WordBytes(HashBlocks(Pad(m)))
  }

  // ---- The compression function ----

  /** Step 1: the message schedule. */
  method PrepareSchedule(block: array<byte>, from: nat) returns (w: array<word>)
    requires from + 64 <= block.Length
    ensures fresh(w) && w.Length == 64
    ensures forall j :: 0 <= j < 64 ==> w[j] == Schedule(block[from..from + 64], j)
  {
    hide Add, SSig0, SSig1, LoadBE32;
    ghost var m := block[from..from + 64];
    w := new word[64];
    for t := 0 to 16
      invariant forall j :: 0 <= j < t ==> w[j] == Schedule(m, j)
    {
      w[t] := LoadBE32(block[from + 4 * t..from + 64]);
      assert block[from + 4 * t..from + 64] == m[4 * t..];
    }
    for t := 16 to 64
      invariant forall j :: 0 <= j < t ==> w[j] == Schedule(m, j)
    {
      w[t] := Add(Add(Add(SSig1(w[t - 2]), w[t - 7]), SSig0(w[t - 15])), w[t - 16]);
    }
  }

  /** Steps 2 and 3: 64 rounds on the working variables. */
  method MixRounds(state: array<word>, w: array<word>, ghost m: seq<byte>) returns (v: Vars)
    requires state.Length == 8 && w.Length == 64 && |m| == 64
    requires forall j :: 0 <= j < 64 ==> w[j] == Schedule(m, j)
    ensures v == Rounds(ToVars(state[..]), m, 64)
  {
    hide Add, BSig0, BSig1, Ch, Maj, Schedule;
    var a, b, c, d := state[0], state[1], state[2], state[3];
    var e, f, g, h := state[4], state[5], state[6], state[7];
    ghost var v0 := ToVars(state[..]);
    for t := 0 to 64
      invariant Vars(a, b, c, d, e, f, g, h) == Rounds(v0, m, t)
    {
      var t1 := Add(Add(Add(Add(h, BSig1(e)), Ch(e, f, g)), K[t]), w[t]);
      var t2 := Add(BSig0(a), Maj(a, b, c));
      h := g;
      g := f;
      f := e;
      e := Add(d, t1);
      d := c;
      c := b;
      b := a;
      a := Add(t1, t2);
    }
    v := Vars(a, b, c, d, e, f, g, h);
  }

  /** Step 4: the intermediate hash value. */
  method AddInto(state: array<word>, v: Vars)
    requires state.Length == 8
    modifies state
    ensures state[..] == AddVars(old(state[..]), v)
  {
    hide Add;
    var a, b, c, d := Add(state[0], v.a), Add(state[1], v.b), Add(state[2], v.c), Add(state[3], v.d);
    var e, f, g, h := Add(state[4], v.e), Add(state[5], v.f), Add(state[6], v.g), Add(state[7], v.h);
    state[0], state[1], state[2], state[3] := a, b, c, d;
    state[4], state[5], state[6], state[7] := e, f, g, h;
  }

  /** sha256_compress */
  method Compress(state: array<word>, block: array<byte>, from: nat)
    requires state.Length == 8 && from + 64 <= block.Length
    modifies state
    ensures state[..] == Compression(old(state[..]), block[from..from + 64])
  {
    hide Add, Rounds, Schedule, AddVars;
    ghost var m := block[from..from + 64];
    var w := PrepareSchedule(block, from);
    var v := MixRounds(state, w, m);
    AddInto(state, v);
  }

  // ---- The streaming context ----

  /** st is the hash of the whole blocks of m, and tail is what is behind them. */
  ghost predicate HashedTo(st: seq<word>, tail: seq<byte>, m: seq<byte>) {
    |tail| < 64 && |tail| <= |m| && (|m| - |tail|) % 64 == 0 &&
    st == HashBlocks(m[..|m| - |tail|]) && tail == m[|m| - |tail|..]
  }

  lemma TailGrows(st: seq<word>, tail: seq<byte>, m: seq<byte>, more: seq<byte>)
    requires HashedTo(st, tail, m) && |tail| + |more| < 64
    ensures HashedTo(st, tail + more, m + more)
  {
    hide HashBlocks;
    assert (m + more)[..|m| - |tail|] == m[..|m| - |tail|];
    assert (m + more)[|m| - |tail|..] == tail + more;
  }

  lemma BlockFills(st: seq<word>, tail: seq<byte>, m: seq<byte>, more: seq<byte>)
    requires HashedTo(st, tail, m) && |tail| + |more| == 64
    ensures HashedTo(Compression(st, tail + more), [], m + more)
  {
    hide Compression, HashBlocks;
    var done := m[..|m| - |tail|];
    HashBlocksAppend(done, tail + more);
    assert done + (tail + more) == m + more;
    assert (m + more)[..|m + more|] == m + more;
  }

  lemma Extends(data: seq<byte>, m: seq<byte>, from: nat, to: nat)
    requires from <= to <= |data|
    ensures m + data[..from] + data[from..to] == m + data[..to]
  {}

  const U64: nat := 0x1_0000_0000_0000_0000

  class Context {
    var state: array<word>
    var totalLenBits: nat   // uint64_t
    var bufferLen: nat
    var buffer: array<byte>

    ghost predicate Allocated()
      reads this
    {
      state.Length == 8 && buffer.Length == 64
    }

    /** The chaining value and the partial block are those of the message m. */
    ghost predicate Holds(m: seq<byte>)
      reads this, state, buffer
    {
      Allocated() && bufferLen < 64 && HashedTo(state[..], buffer[..bufferLen], m)
    }

    /** The context has absorbed exactly the message m. */
    ghost predicate Absorbed(m: seq<byte>)
      reads this, state, buffer
    {
      Holds(m) && totalLenBits == 8 * |m| % U64
    }

    constructor ()
      ensures Allocated() && fresh(state) && fresh(buffer)
    {
      state := new word[8];
      buffer := new byte[64];
      totalLenBits, bufferLen := 0, 0;
    }

    /** uds_sha256_init */
    method Init()
      requires Allocated()
      modifies this`totalLenBits, this`bufferLen, state, buffer
      ensures Absorbed([])
    {
      for i := 0 to 8
        invariant forall j :: 0 <= j < i ==> state[j] == H0[j]
      {
        state[i] := H0[i];
      }
      totalLenBits := 0;
      bufferLen := 0;
      for i := 0 to 64
        modifies buffer
        invariant state[..] == H0
      {
        buffer[i] := 0;
      }
    }

    /** memcpy of n bytes of data onto the end of the partial block. */
    method CopyIn(data: array<byte>, from: nat, n: nat)
      requires Allocated() && data != buffer
      requires bufferLen + n <= 64 && from + n <= data.Length
      modifies this`bufferLen, buffer
      ensures bufferLen == old(bufferLen) + n
      ensures buffer[..bufferLen] == old(buffer[..bufferLen]) + data[from..from + n]
    {
      for i := 0 to n
        modifies buffer
        invariant buffer[..bufferLen + i] == old(buffer[..bufferLen]) + data[from..from + i]
      {
        buffer[bufferLen + i] := data[from + i];
      }
      bufferLen := bufferLen + n;
    }

    /** A block begun by an earlier chunk is filled first, and compressed when full. */
    method TopUp(data: array<byte>, len: nat, ghost m: seq<byte>) returns (offset: nat)
      requires Holds(m) && bufferLen > 0
      requires len <= data.Length && data != buffer
      modifies this`bufferLen, state, buffer
      ensures offset <= len && (bufferLen == 0 || offset == len)
      ensures Holds(m + data[..offset])
    {
      hide Compression, HashedTo;
      var space := 64 - bufferLen;
      var take := if len < space then len else space;
      ghost var st, tail := state[..], buffer[..bufferLen];
      CopyIn(data, 0, take);
      assert data[0..take] == data[..take];
      if bufferLen == 64 {
        BlockFills(st, tail, m, data[..take]);
        assert buffer[0..64] == buffer[..64];
        Compress(state, buffer, 0);
        bufferLen := 0;
        assert buffer[..0] == [];
      } else {
        TailGrows(st, tail, m, data[..take]);
      }
      return take;
    }

    /** The blocks that are complete in the chunk need no copy. */
    method WholeBlocks(data: array<byte>, len: nat, start: nat, ghost m: seq<byte>) returns (offset: nat)
      requires start <= len <= data.Length && data != buffer
      requires Holds(m + data[..start]) && (bufferLen == 0 || start == len)
      modifies state
      ensures start <= offset <= len && len - offset < 64 && (bufferLen == 0 || offset == len)
      ensures Holds(m + data[..offset])
    {
      hide Compression, HashedTo;
      offset := start;
      while len - offset >= 64
        invariant start <= offset <= len && (bufferLen == 0 || offset == len)
        invariant Holds(m + data[..offset])
      {
        ghost var st, block := state[..], data[offset..offset + 64];
        assert buffer[..0] == [] && [] + block == block;
        BlockFills(st, [], m + data[..offset], block);
        Extends(data[..], m, offset, offset + 64);
        Compress(state, data, offset);
        offset := offset + 64;
        assert data[..][..offset] == data[..offset];
      }
    }

    /** uds_sha256_update: absorbs the first len bytes of data; a NULL or empty chunk is ignored. */
    method Update(data: array?<byte>, len: nat, ghost m: seq<byte>)
      requires Absorbed(m)
      requires data != null ==> len <= data.Length && data != buffer
      modifies this`totalLenBits, this`bufferLen, state, buffer
      ensures Absorbed(if data == null then m else m + data[..len])
    {
      hide HashedTo;
      if len == 0 {
        assert data != null ==> m + data[..0] == m;
        return;
      }
      if data == null {
        return;
      }
      totalLenBits := (totalLenBits + len * 8) % U64;
      BitCountAdds(|m|, len);
      var offset := 0;
      assert m + data[..0] == m;
      if bufferLen > 0 {
        offset := TopUp(data, len, m);
      }
      offset := WholeBlocks(data, len, offset, m);
      KeepTail(data, offset, len - offset, m);
    }

    /** What is left of the chunk, less than a block, waits in the buffer. */
    method KeepTail(data: array<byte>, offset: nat, remaining: nat, ghost m: seq<byte>)
      requires offset + remaining <= data.Length && data != buffer && remaining < 64
      requires Holds(m + data[..offset]) && (bufferLen == 0 || remaining == 0)
      modifies this`bufferLen, buffer
      ensures Holds(m + data[..offset + remaining])
    {
      hide HashedTo;
      if remaining > 0 {
        TailGrows(state[..], buffer[..bufferLen], m + data[..offset], data[offset..offset + remaining]);
        Extends(data[..], m, offset, offset + remaining);
        CopyIn(data, offset, remaining);
      }
    }

    /** uds_sha256_final: pads, appends the bit length, and emits the digest. */
    method Final(digest: array<byte>, ghost m: seq<byte>)
      requires Absorbed(m) && |m| < 0x2000_0000_0000_0000
      requires digest.Length == 32 && digest != buffer
      modifies this`totalLenBits, this`bufferLen, state, buffer, digest
      ensures digest[..] == Digest(m)
      ensures Scrubbed()
    {
      hide Compression, HashBlocks, BigEndian, WordBytes, Scrubbed;
      var bitLen := totalLenBits;
      ghost var done := Terminate(m);
      AppendLength(bitLen);
      Compress(state, buffer, 0);
      assert buffer[0..64] == buffer[..];
      HashBlocksAppend(done, buffer[..]);
      assert done + buffer[..] == Pad(m);
      Emit(digest);
      Scrub();
    }

    /** The 0x80 terminator and the zeros: one block if the length field fits behind them, else two. */
    method Terminate(ghost m: seq<byte>) returns (ghost done: seq<byte>)
      requires Holds(m)
      modifies this`bufferLen, state, buffer
      ensures Allocated() && |done| % 64 == 0 && state[..] == HashBlocks(done)
      ensures done + buffer[..56] == m + [0x80] + Zeros(PadZeros(|m|))
    {
      hide Compression, HashBlocks, PadZeros, Zeros;
      done := m[..|m| - bufferLen];
      ghost var tail := m[|m| - bufferLen..];
      buffer[bufferLen] := 0x80;
      bufferLen := bufferLen + 1;
      assert buffer[..bufferLen] == tail + [0x80];
      ZeroFill(bufferLen);
      assert buffer[..] == buffer[..bufferLen] + buffer[bufferLen..];
      if bufferLen > LEN_OFFSET {
        TwoBlockPadding(done, tail);
        Spill(done);
        done := done + (tail + [0x80] + Zeros(63 - |tail|));
      } else {
        OneBlockPadding(done, tail);
        assert buffer[..][..56] == buffer[..56];
      }
    }

    /** The length field does not fit: emit this block and start an all-zero one. */
    method Spill(ghost done: seq<byte>)
      requires Allocated() && |done| % 64 == 0 && state[..] == HashBlocks(done)
      modifies this`bufferLen, state, buffer
      ensures Allocated() && state[..] == HashBlocks(done + old(buffer[..]))
      ensures buffer[..56] == Zeros(56)
    {
      hide Compression, HashBlocks;
      Compress(state, buffer, 0);
      assert buffer[0..64] == buffer[..];
      HashBlocksAppend(done, buffer[..]);
      bufferLen := 0;
      ZeroFill(0);
      assert buffer[..56] == buffer[0..][..56];
    }

    method AppendLength(bitLen: nat)
      requires Allocated()
      modifies buffer
      ensures buffer[..] == old(buffer[..56]) + BigEndian(8, bitLen)
    {
      hide BigEndian;
      for i := 0 to 8
        modifies buffer
        invariant buffer[..56] == old(buffer[..56])
        invariant buffer[56..56 + i] == BigEndian(8, bitLen)[..i]
      {
        BigEndianByte(8, bitLen, i);
        buffer[LEN_OFFSET + i] := Low8(ShiftRight(bitLen, 56 - i * 8));
      }
      assert buffer[..] == buffer[..56] + buffer[56..64];
    }

    method Emit(digest: array<byte>)
      requires Allocated() && digest.Length == 32
      modifies digest
      ensures digest[..] == WordBytes(state[..])
    {
      hide BE32;
      for i := 0 to 8
        invariant digest[..4 * i] == WordBytes(state[..i])
      {
        StoreBE32(state[i], digest, 4 * i);
        assert state[..i + 1][..i] == state[..i];
      }
      assert state[..8] == state[..] && digest[..32] == digest[..];
    }

    /** memset of the rest of the block. */
    method ZeroFill(from: nat)
      requires Allocated() && from <= 64
      modifies buffer
      ensures buffer[..from] == old(buffer[..from])
      ensures buffer[from..] == Zeros(64 - from)
    {
      for i := from to 64
        modifies buffer
        invariant buffer[..from] == old(buffer[..from])
        invariant forall j :: from <= j < i ==> buffer[j] == 0
      {
        buffer[i] := 0;
      }
    }

    ghost predicate Scrubbed()
      reads this, state, buffer
    {
      Allocated() && bufferLen == 0 && totalLenBits == 0 && buffer[..] == Zeros(64) &&
      forall i :: 0 <= i < 8 ==> state[i] == 0
    }

    /** memset of the whole context. */
    method Scrub()
      requires Allocated()
      modifies this`totalLenBits, this`bufferLen, state, buffer
      ensures Scrubbed()
    {
      totalLenBits, bufferLen := 0, 0;
      ZeroFill(0);
      assert buffer[..] == buffer[0..];
      for i := 0 to 8
        modifies state
        invariant forall j :: 0 <= j < i ==> state[j] == 0
        invariant buffer[..] == Zeros(64)
      {
        state[i] := 0;
      }
    }
  }

  lemma OneBlockPadding(done: seq<byte>, tail: seq<byte>)
    requires |done| % 64 == 0 && |tail| <= 55
    ensures done + (tail + [0x80] + Zeros(63 - |tail|))[..56] == done + tail + [0x80] + Zeros(PadZeros(|done + tail|))
  {
    assert PadZeros(|done + tail|) == 55 - |tail|;
  }

  lemma TwoBlockPadding(done: seq<byte>, tail: seq<byte>)
    requires |done| % 64 == 0 && 56 <= |tail| <= 63
    ensures done + (tail + [0x80] + Zeros(63 - |tail|)) + Zeros(56) ==
            done + tail + [0x80] + Zeros(PadZeros(|done + tail|))
  {
    assert PadZeros(|done + tail|) == 119 - |tail|;
  }

  lemma BitCountAdds(length: nat, more: nat)
    ensures (8 * length % U64 + more * 8) % U64 == 8 * (length + more) % U64
  {
    ModAdds(8 * length, more * 8, U64);
  }

  /** Appending one block applies the compression function once. */
  lemma HashBlocksAppend(m: seq<byte>, block: seq<byte>)
    requires |m| % 64 == 0 && |block| == 64
    ensures HashBlocks(m + block) == Compression(HashBlocks(m), block)
  {
    hide Compression;
    assert (m + block)[..|m + block| - 64] == m;
    assert (m + block)[|m + block| - 64..] == block;
  }

  // ---- Whole runs ----

  function Flatten(chunks: seq<seq<byte>>): seq<byte>
    decreases |chunks|
  {
    if chunks == [] then [] else Flatten(chunks[..|chunks| - 1]) + chunks[|chunks| - 1]
  }

  /** However a message is split into update calls, the digest is that of the whole. */
  method HashChunks(chunks: seq<seq<byte>>) returns (digest: array<byte>)
    requires |Flatten(chunks)| < 0x2000_0000_0000_0000
    ensures fresh(digest) && digest.Length == 32
    ensures digest[..] == Digest(Flatten(chunks))
  {
    hide Digest, Context.Absorbed;
    var ctx := new Context();
    ctx.Init();
    assert ctx.Allocated();
    for i := 0 to |chunks|
      invariant ctx.Absorbed(Flatten(chunks[..i]))
      invariant fresh(ctx) && fresh(ctx.state) && fresh(ctx.buffer)
    {
      Feed(ctx, chunks[i], Flatten(chunks[..i]));
      assert chunks[..i + 1][..i] == chunks[..i];
    }
    assert chunks[..|chunks|] == chunks;
    digest := new byte[32];
    ctx.Final(digest, Flatten(chunks));
  }

  method Feed(ctx: Context, chunk: seq<byte>, ghost m: seq<byte>)
    requires ctx.Absorbed(m)
    modifies ctx`totalLenBits, ctx`bufferLen, ctx.state, ctx.buffer
    ensures ctx.Absorbed(m + chunk)
  {
    var data := new byte[|chunk|](j requires 0 <= j < |chunk| => chunk[j]);
    assert data[..|chunk|] == chunk;
    hide HashBlocks;
    ctx.Update(data, |chunk|, m);
  }

  /** Padding loses nothing: it merges no two messages. */
  lemma PadInjective(m: seq<byte>, n: seq<byte>)
    requires |m| < 0x2000_0000_0000_0000 && |n| < 0x2000_0000_0000_0000
    requires Pad(m) == Pad(n)
    ensures m == n
  {
    hide BigEndian, PadZeros;
    var p := Pad(m);
    assert p[|p| - 8..] == BigEndian(8, 8 * |m|);
    assert p[|p| - 8..] == BigEndian(8, 8 * |n|);
    Pow256Eight();
    BigEndianRoundTrip(8, 8 * |m|);
    BigEndianRoundTrip(8, 8 * |n|);
    assert p[..|m|] == m && p[..|n|] == n;
  }

  lemma Pow256Eight()
    ensures Pow256(8) == U64
  {
    assert Pow256(4) == 0x1_0000_0000;
  }
}
