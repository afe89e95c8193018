/** The persisted SecurityAccess record (core/uds_security_nvm.c). */
module SecurityNvm {
  import opened Bytes
  import opened Types
  import opened Nvm
  import Crc32

  const MAGIC_0: byte := 0x53
  const MAGIC_1: byte := 0x43
  const FORMAT_VERSION: byte := 1
  const RECORD_BYTES: nat := 12

  /** Version, attempts and lockout: what the CRC covers. */
  function Payload(attempts: u8, lockoutMs: u32): (s: seq<byte>)
    ensures |s| == 6
  {
    [FORMAT_VERSION, Low8(attempts)] + BigEndian(4, lockoutMs)
  }

  function Record(attempts: u8, lockoutMs: u32): (s: seq<byte>)
    ensures |s| == RECORD_BYTES
  {
    Crc32.Seal([MAGIC_0, MAGIC_1], Payload(attempts, lockoutMs))
  }

  datatype Loaded = Loaded(attempts: u8, lockoutMs: u32) | Absent | Corrupt | NotReady | Unreadable

  /** A record is accepted only with the right length, magic, version and CRC. */
  predicate Genuine(s: seq<byte>) {
    |s| == RECORD_BYTES && s[0] == MAGIC_0 && s[1] == MAGIC_1 && s[2] == FORMAT_VERSION && Crc32.Sealed(s)
  }

  lemma BigEndianBound(s: seq<byte>)
    requires |s| == 4
    ensures BigEndianValue(s) < 0x1_0000_0000
  {
    hide Value;
    var t := s[..3];
    var u := t[..2];
    var v := u[..1];
    assert v[..0] == [];
    assert BigEndianValue(v) < 0x100;
    assert BigEndianValue(u) < 0x1_0000;
    assert BigEndianValue(t) < 0x100_0000;
  }

  function Parse(s: seq<byte>): Loaded {
    if Genuine(s) then
      BigEndianBound(s[4..8]);
      Loaded(Value(s[3]), BigEndianValue(s[4..8]))
    else Corrupt
  }

  /** uds_security_nvm_load as a function of the store's records. */
  function LoadFrom(records: Records): Loaded {
    match ReadRecord(records, KEY_SEC_STATE, RECORD_BYTES)
    case None => Absent
    case Some(s) => Parse(s)
  }

  function SaveTo(records: Records, attempts: u8, lockoutMs: u32): Records {
    records[KEY_SEC_STATE := Record(attempts, lockoutMs)]
  }

  /** Loading undoes saving, for every attempt count and residual. */
  lemma LoadUndoesSave(records: Records, attempts: u8, lockoutMs: u32)
    ensures LoadFrom(SaveTo(records, attempts, lockoutMs)) == Loaded(attempts, lockoutMs)
  {
    hide Crc32.Crc, Crc32.Sealed, BE32, BigEndian, BigEndianValue, Low8, Value;
    var p := Payload(attempts, lockoutMs);
    var r := Record(attempts, lockoutMs);
    Crc32.SealIsSealed([MAGIC_0, MAGIC_1], p);
    assert r[4..8] == BigEndian(4, lockoutMs);
    ValueLow8(attempts);
    Pow256Four();
    BigEndianRoundTrip(4, lockoutMs);
  }

  lemma Pow256Four()
    ensures Pow256(4) == 0x1_0000_0000
  {
    assert Pow256(2) == 0x1_0000;
  }

  /** The twelve bytes in order: "SC", version 1, attempts, lockout and CRC of the six before it. */
  lemma RecordLayout(attempts: u8, lockoutMs: u32)
    ensures var r := Record(attempts, lockoutMs);
      && r[..3] == [0x53, 0x43, 0x01] && Value(r[3]) == attempts
      && Value(r[4]) * 0x100_0000 + Value(r[5]) * 0x1_0000 + Value(r[6]) * 0x100 + Value(r[7]) == lockoutMs
      && r[8..] == BE32(Crc32.Crc(r[2..8]))
  {
    hide Crc32.Crc, BE32, Low8, Value;
    var p, r := Payload(attempts, lockoutMs), Record(attempts, lockoutMs);
    assert r[2..8] == p;
    BigEndianNumbers(lockoutMs);
    ValueLow8(attempts);
    Digits(lockoutMs);
  }

  lemma Digits(n: u32)
    ensures Value(Low8(n / 256 / 256 / 256)) * 0x100_0000 + Value(Low8(n / 256 / 256)) * 0x1_0000 +
            Value(Low8(n / 256)) * 0x100 + Value(Low8(n)) == n
  {
    hide Low8, Value;
    Low8Mod(n);
    Low8Mod(n / 256);
    Low8Mod(n / 256 / 256);
    ValueLow8(n % 256);
    ValueLow8(n / 256 % 256);
    ValueLow8(n / 256 / 256 % 256);
    ValueLow8(n / 256 / 256 / 256);
  }

  /** A record loads as a count and a lockout exactly when it is the one that saving these writes. */
  lemma LoadsExactlyWhen(s: seq<byte>, attempts: u8, lockoutMs: u32)
    ensures Parse(s) == Loaded(attempts, lockoutMs) <==> s == Record(attempts, lockoutMs)
  {
    hide Crc32.Crc, BE32, LoadBE32, BigEndian, BigEndianValue, Low8, Value;
    if s == Record(attempts, lockoutMs) {
      ParseUndoesRecord(attempts, lockoutMs);
    }
    if Genuine(s) {
      StoreLoadBE32(s[8..]);
      BigEndianBound(s[4..8]);
      BigEndianOfValue(s[4..8]);
      Low8Value(s[3]);
      assert s[2..8] == Payload(Value(s[3]), BigEndianValue(s[4..8]));
      assert s == [MAGIC_0, MAGIC_1] + s[2..8] + s[8..];
    }
  }

  lemma ParseUndoesRecord(attempts: u8, lockoutMs: u32)
    ensures Parse(Record(attempts, lockoutMs)) == Loaded(attempts, lockoutMs)
  {
    hide Parse, Record;
    LoadUndoesSave(map[], attempts, lockoutMs);
    RecordWhole(attempts, lockoutMs);
  }

  lemma RecordWhole(attempts: u8, lockoutMs: u32)
    ensures LoadFrom(SaveTo(map[], attempts, lockoutMs)) == Parse(Record(attempts, lockoutMs))
  {
    hide Parse, Record;
  }

  /** Damage within four consecutive bytes before the CRC, or within the CRC, is always noticed. */
  lemma DamageIsCorrupt(attempts: u8, lockoutMs: u32, i: nat, w: seq<byte>)
    requires |w| <= 4 && (i + |w| <= 8 || (8 <= i && i + |w| <= 12))
    requires Crc32.Overwrite(Record(attempts, lockoutMs), i, w) != Record(attempts, lockoutMs)
    ensures Parse(Crc32.Overwrite(Record(attempts, lockoutMs), i, w)) == Corrupt
  {
    hide Crc32.Sealed, Crc32.Seal;
    var r := Record(attempts, lockoutMs);
    var d := Crc32.Overwrite(r, i, w);
    Crc32.SealIsSealed([MAGIC_0, MAGIC_1], Payload(attempts, lockoutMs));
    if d[0] == MAGIC_0 && d[1] == MAGIC_1 {
      RecordMagic(attempts, lockoutMs);
      assert d[..2] == [d[0], d[1]] == r[..2];
      Crc32.DamageSparesMagic(r, i, w);
    }
  }

  lemma RecordMagic(attempts: u8, lockoutMs: u32)
    ensures Record(attempts, lockoutMs)[0] == MAGIC_0 && Record(attempts, lockoutMs)[1] == MAGIC_1
  {}

  // ---- The C code ----

  /** security_nvm_serialize */
  method Serialize(attempts: u8, lockoutMs: u32, out: array<byte>)
    requires out.Length == RECORD_BYTES
    modifies out
    ensures out[..] == Record(attempts, lockoutMs)
  {
    hide Crc32.Crc, Low8, BE32, BigEndian;
    out[0] := MAGIC_0;
    out[1] := MAGIC_1;
    out[2] := FORMAT_VERSION;
    out[3] := Low8(attempts);
    StoreNumber(lockoutMs, out, 4);
    assert out[2..8] == out[..8][2..] == Payload(attempts, lockoutMs);
    var crc := Crc32.Crc32Of(out, 2, 6);
    StoreBE32(crc, out, 8);
    assert out[..] == out[..12];
  }

  /** uds_security_nvm_save; works: the platform can write. */
  method Save(store: Store, attempts: u8, lockoutMs: u32, works: bool) returns (rc: Status)
    modifies store`records
    ensures rc == if !store.ready then ErrNotInitialized else if works then Ok else ErrPlatform
    ensures store.records == if rc == Ok then SaveTo(old(store.records), attempts, lockoutMs) else old(store.records)
  {
    if !store.ready {
      return ErrNotInitialized;
    }
    hide Record;
    var buf := new byte[RECORD_BYTES];
    Serialize(attempts, lockoutMs, buf);
    var written := store.Write(KEY_SEC_STATE, buf, RECORD_BYTES, works);
    assert buf[..RECORD_BYTES] == buf[..];
    if written != Ok {
      return ErrPlatform;
    }
    rc := Ok;
  }

  /** uds_security_nvm_load; works: the platform can read. */
  method Load(store: Store, works: bool) returns (loaded: Loaded)
    ensures loaded == if !store.ready then NotReady else if works then LoadFrom(store.records) else Unreadable
  {
    hide Crc32.Crc, LoadBE32, BigEndianValue, Value;
    if !store.ready {
      return NotReady;
    }
    var rc, buf, bytesRead := store.Read(KEY_SEC_STATE, RECORD_BYTES, works);
    if rc == ErrDidNotFound {
      return Absent;
    }
    if rc != Ok {
      return Unreadable;
    }
    ghost var s := buf[..bytesRead];
    assert LoadFrom(store.records) == Parse(s);
    if bytesRead != RECORD_BYTES {
      return Corrupt;
    }
    assert s == buf[..];
    if buf[0] != MAGIC_0 || buf[1] != MAGIC_1 {
      return Corrupt;
    }
    if buf[2] != FORMAT_VERSION {
      return Corrupt;
    }
    var crc := Crc32.Crc32Of(buf, 2, 6);
    assert buf[2..8] == s[2..8];
    var stored := LoadBE32(buf[8..12]);
    assert buf[8..12] == s[8..];
    if crc != stored {
      return Corrupt;
    }
    BigEndianBound(buf[4..8]);
    assert buf[4..8] == s[4..8];
    loaded := Loaded(Value(buf[3]), BigEndianValue(buf[4..8]));
  }
}
