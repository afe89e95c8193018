/**
 * The built-in seed and key algorithm (core/uds_security_algo.c): sequence-numbered
 * seeds, keys truncated from AES-CMAC tags.
 */
module SecurityAlgo {
  import opened Bytes
  import opened Types
  import opened Security
  import Aes
  import Cmac

  const NONCE_LEN: nat := 6
  const DEFINED_LEVELS: nat := 2

  /** The sequence counter and the two level keys. */
  datatype AlgoState = AlgoState(sequence: u16, key0: Aes.block, key1: Aes.block) {
    function Key(index: nat): Aes.block
      requires index < DEFINED_LEVELS
    {
      if index == 0 then key0 else key1
    }
  }

  /** Levels 1 and 2 share key 0, levels 3 and 4 key 1; there are no others. */
  function LevelToIndex(level: u8): (r: Option<nat>)
    ensures r.Some? <==> 1 <= level <= 4
    ensures r.Some? ==> r.value < DEFINED_LEVELS
  {
    if level == 0 then None
    else if (level - 1) / 2 >= DEFINED_LEVELS then None
    else Some((level - 1) / 2)
  }

  /** The counter advances, skipping 0. */
  function NextSequence(n: u16): (m: u16)
    ensures m != 0
  {
    if (n + 1) % 0x1_0000 == 0 then 1 else (n + 1) % 0x1_0000
  }

  function MakeSeed(nonce: seq<byte>, sequence: u16): (s: seq<byte>)
    requires |nonce| == NONCE_LEN
    ensures |s| == SEED_LEN
  {
    nonce + BigEndian(2, sequence)
  }

  /** Entropy for one request: six bytes, or a refusal. */
  type entropy = e: Option<seq<byte>> | e.Some? ==> |e.value| == NONCE_LEN witness None

  function Generate(a: AlgoState, level: u8, random: entropy): (AlgoState, SeedOutcome) {
    if LevelToIndex(level).None? then (a, Refused(ErrSubFunctionNotSupported))
    else match random
      case None => (a, Refused(ErrSecSeedUnavailable))
      case Some(nonce) =>
        var n := NextSequence(a.sequence);
        (a.(sequence := n), Generated(MakeSeed(nonce, n)))
  }

  /** The key that answers a seed: the first four bytes of its CMAC tag. */
  function DerivedKey(a: AlgoState, index: nat, seed: seq<byte>): (k: seq<byte>)
    requires index < DEFINED_LEVELS
    ensures |k| == KEY_LEN
  {
    Cmac.Tag(a.Key(index), seed)[..KEY_LEN]
  }

  /** Who derives keys: the built-in algorithm, or a registered callback with this outcome. */
  datatype Derivation = BuiltIn | Custom(status: Status, key: seq<byte>)

  predicate WellFormed(how: Derivation) {
    how.Custom? ==> |how.key| == KEY_LEN
  }

  function DerivedBy(a: AlgoState, index: nat, seed: seq<byte>, how: Derivation): Option<seq<byte>>
    requires index < DEFINED_LEVELS
  {
    match how
    case BuiltIn => Some(DerivedKey(a, index, seed))
    case Custom(status, key) => if status == Ok then Some(key) else None
  }

  predicate ValidatesBy(a: AlgoState, level: u8, seed: seq<byte>, key: seq<byte>, how: Derivation) {
    |seed| >= SEED_LEN && |key| == KEY_LEN && LevelToIndex(level).Some? &&
    seed[6..8] == BigEndian(2, a.sequence) &&
    DerivedBy(a, LevelToIndex(level).value, seed[..SEED_LEN], how) == Some(key)
  }

  predicate Validates(a: AlgoState, level: u8, seed: seq<byte>, key: seq<byte>) {
    ValidatesBy(a, level, seed, key, BuiltIn)
  }

  // ---- Seeds and keys in terms of their bytes ----

  /** The key of a level: levels 1 and 2 use the first, levels 3 and 4 the second. */
  function KeyFor(a: AlgoState, level: u8): Aes.block {
    if level <= 2 then a.key0 else a.key1
  }

  /** A seed is the nonce and the next counter, high byte first; a refusal changes nothing. */
  lemma GenerateExactly(a: AlgoState, level: u8, random: entropy)
    ensures var (b, outcome) := Generate(a, level, random);
      && b.key0 == a.key0 && b.key1 == a.key1
      && (outcome.Generated? <==> 1 <= level <= 4 && random.Some?)
      && (outcome.Generated? ==>
            && b.sequence == (if a.sequence == 0xFFFF then 1 else a.sequence + 1)
            && |outcome.bytes| == 8 && outcome.bytes[..6] == random.value
            && Value(outcome.bytes[6]) * 256 + Value(outcome.bytes[7]) == b.sequence)
      && (!outcome.Generated? ==>
            b == a && outcome == Refused(if level == 0 || level > 4 then ErrSubFunctionNotSupported
                                         else ErrSecSeedUnavailable))
  {
    hide Low8, Value;
    var b := Generate(a, level, random).0;
    BigEndianNumbers(b.sequence);
    TwoDigits(b.sequence);
  }

  lemma TwoDigits(n: u16)
    ensures Value(Low8(n / 256)) * 256 + Value(Low8(n)) == n
  {
    hide Low8, Value;
    Low8Mod(n);
    ValueLow8(n % 256);
    ValueLow8(n / 256);
  }

  /**
   * A key is valid exactly if the seed carries the current counter and the key is the first
   * four bytes of the CMAC tag of its eight bytes, under the key of the level.
   */
  lemma ValidatesExactly(a: AlgoState, level: u8, seed: seq<byte>, key: seq<byte>)
    ensures Validates(a, level, seed, key) <==>
      && 1 <= level <= 4 && |seed| >= 8 && |key| == 4
      && Value(seed[6]) * 256 + Value(seed[7]) == a.sequence
      && key == Cmac.Tag(KeyFor(a, level), seed[..8])[..4]
  {
    hide Low8, Value, Cmac.Tag, BigEndian;
    if |seed| >= 8 {
      var s, n := seed[6..8], Value(seed[6]) * 256 + Value(seed[7]);
      assert s == [seed[6], seed[7]];
      BigEndianPair(seed[6], seed[7]);
      BigEndianNumbers(a.sequence);
      TwoDigits(a.sequence);
    }
  }

  lemma BigEndianPair(a: byte, b: byte)
    ensures BigEndian(2, Value(a) * 256 + Value(b)) == [a, b]
  {
    hide Low8, Value, BigEndian, BigEndianValue;
    BigEndianOfValue([a, b]);
    PairValue(a, b);
  }

  lemma PairValue(a: byte, b: byte)
    ensures BigEndianValue([a, b]) == Value(a) * 256 + Value(b)
  {
    hide Value;
    assert [a, b][..1] == [a] && [a][..0] == [];
    assert BigEndianValue([a]) == Value(a);
  }

  // ---- Facts about seeds ----

  /** A generated seed ends in the new counter and is never all zero. */
  lemma SeedsAreNeverZero(a: AlgoState, level: u8, random: entropy)
    ensures var (b, outcome) := Generate(a, level, random);
      outcome.Generated? ==>
        |outcome.bytes| == SEED_LEN && outcome.bytes[6..8] == BigEndian(2, b.sequence) &&
        exists i :: 0 <= i < SEED_LEN && outcome.bytes[i] != 0
  {
    hide Low8, BigEndian, Value;
    var (b, outcome) := Generate(a, level, random);
    if outcome.Generated? {
      var n := b.sequence;
      BigEndianNumbers(n);
      assert outcome.bytes[6] == Low8(n / 256) && outcome.bytes[7] == Low8(n);
      assert outcome.bytes[6..8] == BigEndian(2, n);
      NonZeroBytes(n);
    }
  }

  lemma NonZeroBytes(n: u16)
    requires n != 0
    ensures Low8(n / 256) != 0 || Low8(n) != 0
  {
    hide Low8;
    ValueLow8(n / 256);
    ValueLow8(n % 256);
    Low8Mod(n);
    ZeroValue();
  }

  lemma ZeroValue()
    ensures Value(0) == 0
  {}

  // ---- The C code ----

  class Module {
    var sequence: u16
    var levelKey0: array<byte>
    var levelKey1: array<byte>

    ghost predicate Valid()
      reads this
    {
      levelKey0.Length == 16 && levelKey1.Length == 16 && levelKey0 != levelKey1
    }

    ghost function View(): AlgoState
      requires Valid()
      reads this, levelKey0, levelKey1
    {
      AlgoState(sequence, levelKey0[..], levelKey1[..])
    }

    /** Power-on: counter 0, placeholder keys. */
    constructor ()
      ensures Valid() && fresh(levelKey0) && fresh(levelKey1) && sequence == 0
      ensures View() == AlgoState(0, seq(16, i requires 0 <= i < 16 => Low8(i)),
                                  seq(16, i requires 0 <= i < 16 => Low8(16 + i)))
    {
      hide Low8;
      sequence := 0;
      levelKey0 := new byte[16](i requires 0 <= i < 16 => Low8(i));
      levelKey1 := new byte[16](i requires 0 <= i < 16 => Low8(16 + i));
    }

    /** uds_security_algo_set_level_key */
    method SetLevelKey(level: u8, key: array?<byte>) returns (status: Status)
      requires Valid() && (key != null ==> key.Length == 16 && key != levelKey0 && key != levelKey1)
      modifies levelKey0, levelKey1
      ensures Valid() && sequence == old(sequence)
      ensures status == if key == null then ErrNullPtr else if LevelToIndex(level).None? then ErrInvalidParam else Ok
      ensures View() == if status != Ok then old(View())
        else if LevelToIndex(level).value == 0 then old(View()).(key0 := key[..]) else old(View()).(key1 := key[..])
    {
      if key == null {
        return ErrNullPtr;
      }
      if LevelToIndex(level).None? {
        return ErrInvalidParam;
      }
      var slot := if LevelToIndex(level).value == 0 then levelKey0 else levelKey1;
      for i := 0 to 16
        modifies slot
        invariant slot[..i] == key[..i]
      {
        slot[i] := key[i];
      }
      assert slot[..16] == slot[..] && key[..16] == key[..];
      status := Ok;
    }

    /** uds_security_algo_generate_seed; entropy comes first, so a refusal burns no number. */
    method GenerateSeed(level: u8, bufLen: nat, random: entropy) returns (outcome: SeedOutcome)
      requires Valid()
      modifies this`sequence
      ensures Valid()
      ensures bufLen < SEED_LEN ==> outcome == Refused(ErrInvalidParam) && View() == old(View())
      ensures bufLen >= SEED_LEN ==> (View(), outcome) == Generate(old(View()), level, random)
    {
      hide Low8, BigEndian;
      if bufLen < SEED_LEN {
        return Refused(ErrInvalidParam);
      }
      if LevelToIndex(level).None? {
        return Refused(ErrSubFunctionNotSupported);
      }
      match random {
        case None => return Refused(ErrSecSeedUnavailable);
        case Some(nonce) =>
          sequence := (sequence + 1) % 0x1_0000;
          if sequence == 0 {
            sequence := 1;
          }
          BigEndianNumbers(sequence);
          outcome := Generated(nonce + [Low8(sequence / 256), Low8(sequence)]);
      }
    }

    /** algo_derive_cmac */
    method DeriveCmac(index: nat, seed: array<byte>) returns (key: array<byte>)
      requires Valid() && index < DEFINED_LEVELS && seed.Length >= SEED_LEN
      ensures fresh(key) && key.Length == KEY_LEN
      ensures key[..] == DerivedKey(View(), index, seed[..SEED_LEN])
    {
      hide Cmac.Tag;
      var mac := new byte[16];
      var levelKey := if index == 0 then levelKey0 else levelKey1;
      var rc := Cmac.AesCmac(levelKey, seed, SEED_LEN, mac);
      ghost var tag := mac[..];
      assert tag == Cmac.Tag(View().Key(index), seed[..SEED_LEN]);
      key := new byte[KEY_LEN];
      for i := 0 to KEY_LEN
        invariant key[..i] == tag[..i] && mac[..] == tag
      {
        key[i] := mac[i];
      }
      assert key[..KEY_LEN] == key[..];
    }

    /** uds_security_algo_derive_key */
    method DeriveKey(level: u8, seed: array?<byte>, how: Derivation) returns (status: Status, key: array?<byte>)
      requires Valid() && WellFormed(how) && (seed != null ==> seed.Length >= SEED_LEN)
      ensures status == if seed == null then ErrNullPtr else if LevelToIndex(level).None? then ErrInvalidParam
                        else if how.Custom? then how.status else Ok
      ensures status == Ok ==>
        seed != null && LevelToIndex(level).Some? && key != null && key.Length == KEY_LEN &&
        DerivedBy(View(), LevelToIndex(level).value, seed[..SEED_LEN], how) == Some(key[..])
    {
      hide DerivedKey;
      if seed == null {
        return ErrNullPtr, null;
      }
      if LevelToIndex(level).None? {
        return ErrInvalidParam, null;
      }
      if how.Custom? {
        key := new byte[KEY_LEN](i requires 0 <= i < KEY_LEN => how.key[i]);
        assert key[..] == how.key;
        return how.status, key;
      }
      status := Ok;
      key := DeriveCmac(LevelToIndex(level).value, seed);
    }

    /** uds_security_algo_validate_key */
    method ValidateKey(level: u8, seed: array?<byte>, seedLen: nat, key: array?<byte>, keyLen: nat, how: Derivation)
      returns (result: bool)
      requires Valid() && WellFormed(how)
      requires (seed != null ==> seedLen <= seed.Length) && (key != null ==> keyLen <= key.Length)
      ensures result <==> seed != null && key != null && ValidatesBy(View(), level, seed[..seedLen], key[..keyLen], how)
    {
      hide DerivedKey, BigEndian, Low8;
      if seed == null || key == null {
        return false;
      }
      ghost var s := seed[..seedLen];
      if seedLen < SEED_LEN || keyLen != KEY_LEN {
        return false;
      }
      if LevelToIndex(level).None? {
        return false;
      }
      BigEndianNumbers(sequence);
      assert s[6..8] == [seed[6], seed[7]];
      if seed[6] != Low8(sequence / 256) || seed[7] != Low8(sequence) {
        return false;
      }
      assert seed[..SEED_LEN] == s[..SEED_LEN];
      var rc, expected := DeriveKey(level, seed, how);
      if rc != Ok {
        return false;
      }
      result := CtCompare(expected, key, KEY_LEN);
      assert expected[..KEY_LEN] == expected[..];
    }
  }

  lemma AccumulatesDifference(d: byte, x: byte, y: byte)
    ensures d | (x ^ y) == 0 <==> d == 0 && x == y
  {}

  /** algo_ct_compare: looks at every byte, whatever it has seen. */
  method CtCompare(a: array<byte>, b: array<byte>, len: nat) returns (equal: bool)
    requires len <= a.Length && len <= b.Length
    ensures equal <==> a[..len] == b[..len]
  {
    var diff: byte := 0;
    for i := 0 to len
      invariant diff == 0 <==> a[..i] == b[..i]
    {
      AccumulatesDifference(diff, a[i], b[i]);
      diff := diff | (a[i] ^ b[i]);
    }
    equal := diff == 0;
  }
}
