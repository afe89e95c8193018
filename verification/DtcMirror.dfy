/**
 * The mirror of the trouble-code table in non-volatile memory (config/dtc_mirror.c): what
 * survives a reboot, and what damage to the stored bytes can do.
 */
module DtcMirror {
  import opened Arithmetic
  import opened Bytes
  import opened Types
  import opened DtcDatabase
  import Crc32
  import Nvm

  const MAGIC_0: byte := 0x44
  const MAGIC_1: byte := 0x4D
  const FORMAT_VERSION: byte := 1
  const MAX_PERSISTED: nat := 125
  const MAX_BYTES: nat := 509
  const CODE_LIMIT: nat := 0x100_0000

  const RECORDS_MAGIC_0: byte := 0x44
  const RECORDS_MAGIC_1: byte := 0x52
  const RECORDS_FORMAT_VERSION: byte := 1
  const RECORDS_BYTES: nat := 19

  // ---- The stored bytes ----

  datatype Pair = Pair(code: u32, status: byte)

  /** The entries that are persisted: the first 125. */
  function Pairs(es: seq<Entry>): (ps: seq<Pair>)
    ensures |ps| == if |es| <= MAX_PERSISTED then |es| else MAX_PERSISTED
  {
    seq(if |es| <= MAX_PERSISTED then |es| else MAX_PERSISTED,
        i requires 0 <= i < |es| => Pair(es[i].code, es[i].status))
  }

  function Body(ps: seq<Pair>): (s: seq<byte>)
    ensures |s| == 4 * |ps|
  {
    if ps == [] then []
    else Body(ps[..|ps| - 1]) + BigEndian(3, ps[|ps| - 1].code) + [ps[|ps| - 1].status]
  }

  function MirrorPayload(ps: seq<Pair>): (s: seq<byte>)
    ensures |s| == 3 + 4 * |ps|
  {
    [FORMAT_VERSION] + BigEndian(2, |ps|) + Body(ps)
  }

  function MirrorRecord(ps: seq<Pair>): (s: seq<byte>)
    ensures |s| == 9 + 4 * |ps|
  {
    Crc32.Seal([MAGIC_0, MAGIC_1], MirrorPayload(ps))
  }

  function RecordsPayload(r: recordList): (s: seq<byte>)
    ensures |s| == 13
  {
    [RECORDS_FORMAT_VERSION] + BigEndian(3, r[0]) + BigEndian(3, r[1]) + BigEndian(3, r[2]) + BigEndian(3, r[3])
  }

  function RecordsRecord(r: recordList): (s: seq<byte>)
    ensures |s| == RECORDS_BYTES
  {
    Crc32.Seal([RECORDS_MAGIC_0, RECORDS_MAGIC_1], RecordsPayload(r))
  }

  // ---- Reading them back ----

  /** Three bytes at i as a code. */
  function CodeAt(s: seq<byte>, i: nat): (code: u32)
    requires i + 3 <= |s|
    ensures code < CODE_LIMIT
  {
    ThreeBytes(s[i..i + 3]);
    BigEndianValue(s[i..i + 3])
  }

  lemma ThreeBytes(s: seq<byte>)
    requires |s| == 3
    ensures BigEndianValue(s) < CODE_LIMIT
  {
    hide Value;
    var t := s[..2];
    var u := t[..1];
    assert u[..0] == [];
    assert BigEndianValue(u) < 0x100;
    assert BigEndianValue(t) < 0x1_0000;
  }

  datatype Parsed = Nothing | Corrupt | Entries(pairs: seq<Pair>)

  function ParseMirror(s: seq<byte>): Parsed {
    if |s| < 5 || s[0] != MAGIC_0 || s[1] != MAGIC_1 then Nothing
    else if s[2] != FORMAT_VERSION then Corrupt
    else
      var count := BigEndianValue(s[3..5]);
      if count > MAX_PERSISTED || |s| != 9 + 4 * count || !Crc32.Sealed(s) then Corrupt
      else Entries(seq(count, i requires 0 <= i < count => Pair(CodeAt(s, 5 + 4 * i), s[8 + 4 * i])))
  }

  function ParseRecords(s: seq<byte>): Option<recordList> {
    if |s| == RECORDS_BYTES && s[0] == RECORDS_MAGIC_0 && s[1] == RECORDS_MAGIC_1 &&
       s[2] == RECORDS_FORMAT_VERSION && Crc32.Sealed(s)
    then Some([CodeAt(s, 3), CodeAt(s, 6), CodeAt(s, 9), CodeAt(s, 12)])
    else None
  }

  function ApplyPairs(db: State, ps: seq<Pair>): State
    decreases |ps|
  {
    if ps == [] then db
    else AfterStatus(ApplyPairs(db, ps[..|ps| - 1]), ps[|ps| - 1].code, ps[|ps| - 1].status, false, false)
  }

  /** The first k records restored. */
  function ApplyRecords(db: State, r: recordList, k: nat): State
    requires k <= RECORD_COUNT
  {
    if k == 0 then db else AfterRestoreRecord(ApplyRecords(db, r, k - 1), k - 1, r[k - 1])
  }

  function AfterFlush(store: Nvm.Records, db: State): Nvm.Records {
    store[Nvm.KEY_DTC_MIRROR := MirrorRecord(Pairs(db.entries))][Nvm.KEY_DTC_RECORDS := RecordsRecord(db.records)]
  }

  /** A flush of which either write may fail: the second is made only after the first. */
  function AfterWrites(store: Nvm.Records, db: State, mirrorWorks: bool, recordsWork: bool): Nvm.Records {
    if !mirrorWorks then store
    else if recordsWork then AfterFlush(store, db)
    else store[Nvm.KEY_DTC_MIRROR := MirrorRecord(Pairs(db.entries))]
  }

  function AfterRecordsLoad(store: Nvm.Records, db: State): (State, Status) {
    match Nvm.ReadRecord(store, Nvm.KEY_DTC_RECORDS, RECORDS_BYTES + 1)
    case None => (db, Ok)
    case Some(s) =>
      match ParseRecords(s)
      case None => (db, ErrNvmDataCorrupt)
      case Some(r) => (ApplyRecords(db, r, RECORD_COUNT), Ok)
  }

  /** A load whose read of the mirror works; that of the records, made after the statuses are restored, may not. */
  function AfterReads(store: Nvm.Records, db: State, recordsWork: bool): (State, Status) {
    match Nvm.ReadRecord(store, Nvm.KEY_DTC_MIRROR, MAX_BYTES)
    case None => (db, Ok)
    case Some(s) =>
      match ParseMirror(s)
      case Nothing => (db, Ok)
      case Corrupt => (db, ErrNvmDataCorrupt)
      case Entries(ps) =>
        if recordsWork then AfterRecordsLoad(store, ApplyPairs(db, ps)) else (ApplyPairs(db, ps), ErrPlatform)
  }

  function AfterLoad(store: Nvm.Records, db: State): (State, Status) {
    AfterReads(store, db, true)
  }

  // ---- Reading undoes writing ----

  /** Three bytes hold the code modulo 2^24. */
  function Low24(code: u32): u32 {
    code % CODE_LIMIT
  }

  function Stored(ps: seq<Pair>): seq<Pair> {
    seq(|ps|, i requires 0 <= i < |ps| => Pair(Low24(ps[i].code), ps[i].status))
  }

  function StoredRecords(r: recordList): recordList {
    [Low24(r[0]), Low24(r[1]), Low24(r[2]), Low24(r[3])]
  }

  lemma {:induction false} BodyAt(ps: seq<Pair>, i: nat)
    requires i < |ps|
    ensures Body(ps)[4 * i..4 * i + 3] == BigEndian(3, ps[i].code) && Body(ps)[4 * i + 3] == ps[i].status
    decreases |ps|
  {
    hide BigEndian;
    if i < |ps| - 1 {
      BodyAt(ps[..|ps| - 1], i);
      assert Body(ps)[..4 * (|ps| - 1)] == Body(ps[..|ps| - 1]);
      assert Body(ps)[4 * i..4 * i + 3] == Body(ps[..|ps| - 1])[4 * i..4 * i + 3];
    }
  }

  lemma CodeRoundTrip(code: u32)
    ensures BigEndianValue(BigEndian(3, code)) == Low24(code)
  {
    hide BigEndianValue;
    Pow256Three();
    SameLowBytes(code);
    hide BigEndian;
    BigEndianRoundTrip(3, Low24(code));
  }

  lemma Pow256Three()
    ensures Pow256(3) == CODE_LIMIT
  {
    assert Pow256(1) == 256 && Pow256(2) == 0x1_0000;
  }

  lemma SameLowBytes(code: u32)
    ensures BigEndian(3, code) == BigEndian(3, Low24(code))
  {
    hide BigEndian, Low8;
    var m := Low24(code);
    BigEndianNumbers(code);
    BigEndianNumbers(m);
    SameMod256(code);
    Low8Mod(code);
    Low8Mod(m);
    Low8Mod(code / 256);
    Low8Mod(m / 256);
    Low8Mod(code / 256 / 256);
    Low8Mod(m / 256 / 256);
  }

  lemma SameMod256(code: u32)
    ensures var m := Low24(code);
      m % 256 == code % 256 && m / 256 % 256 == code / 256 % 256 && m / 256 / 256 % 256 == code / 256 / 256 % 256
  {
    var m, q := Low24(code), code / CODE_LIMIT;
    assert code == q * CODE_LIMIT + m;
    hide Low24;
    DropMultiple(m, q * 0x1_0000);
    DropMultiple(m / 256, q * 0x100);
    DropMultiple(m / 256 / 256, q);
  }

  /** Adding 256 k changes neither the low byte nor, but for k, the rest. */
  lemma DropMultiple(n: nat, k: nat)
    ensures (n + 256 * k) % 256 == n % 256 && (n + 256 * k) / 256 == n / 256 + k
  {}

  lemma CountRoundTrip(n: nat)
    requires n < 0x1_0000
    ensures BigEndianValue(BigEndian(2, n)) == n
  {
    hide BigEndian, BigEndianValue;
    assert Pow256(1) == 256 && Pow256(2) == 0x1_0000;
    BigEndianRoundTrip(2, n);
  }

  lemma ParseUndoesWrite(ps: seq<Pair>)
    requires |ps| <= MAX_PERSISTED
    ensures ParseMirror(MirrorRecord(ps)) == Entries(Stored(ps))
  {
    hide Low24, Crc32.Sealed, Crc32.Crc, BE32, BigEndian, BigEndianValue, Body;
    var s := MirrorRecord(ps);
    Crc32.SealIsSealed([MAGIC_0, MAGIC_1], MirrorPayload(ps));
    assert s[3..5] == BigEndian(2, |ps|) && s[5..5 + 4 * |ps|] == Body(ps);
    CountRoundTrip(|ps|);
    forall i | 0 <= i < |ps| ensures Pair(CodeAt(s, 5 + 4 * i), s[8 + 4 * i]) == Stored(ps)[i] {
      BodyAt(ps, i);
      CodeRoundTrip(ps[i].code);
      assert s[5 + 4 * i..5 + 4 * i + 3] == Body(ps)[4 * i..4 * i + 3];
    }
  }

  lemma ParseUndoesWriteRecords(r: recordList)
    ensures ParseRecords(RecordsRecord(r)) == Some(StoredRecords(r))
  {
    hide Low24, Crc32.Sealed, Crc32.Crc, BE32, BigEndian, BigEndianValue;
    var s := RecordsRecord(r);
    Crc32.SealIsSealed([RECORDS_MAGIC_0, RECORDS_MAGIC_1], RecordsPayload(r));
    CodeRoundTrip(r[0]);
    CodeRoundTrip(r[1]);
    CodeRoundTrip(r[2]);
    CodeRoundTrip(r[3]);
    assert s[3..6] == BigEndian(3, r[0]) && s[6..9] == BigEndian(3, r[1]);
    assert s[9..12] == BigEndian(3, r[2]) && s[12..15] == BigEndian(3, r[3]);
    assert s[0] == RECORDS_MAGIC_0 && s[1] == RECORDS_MAGIC_1 && s[2] == RECORDS_FORMAT_VERSION;
    assert [CodeAt(s, 3), CodeAt(s, 6), CodeAt(s, 9), CodeAt(s, 12)] == StoredRecords(r);
  }

  // ---- Reading accepts nothing but what writing produces ----

  /** The bytes in order: "DM", version 1, the count, four bytes for each entry, the CRC. */
  lemma MirrorLayout(ps: seq<Pair>)
    requires |ps| <= MAX_PERSISTED
    ensures var r, n := MirrorRecord(ps), 5 + 4 * |ps|;
      && |r| == n + 4
      && r[..3] == [0x44, 0x4D, 0x01] && Value(r[3]) * 0x100 + Value(r[4]) == |ps|
      && r[n..] == BE32(Crc32.Crc(r[2..n]))
  {
    hide Crc32.Crc, BE32, Low8, Value, Body, BigEndian;
    var p, r := MirrorPayload(ps), MirrorRecord(ps);
    assert r[2..5 + 4 * |ps|] == p;
    BigEndianNumbers(|ps|);
    CountDigits(|ps|);
  }

  /** Entry i: the code modulo 2^24, high byte first, and the status. */
  lemma EntryLayout(ps: seq<Pair>, i: nat)
    requires i < |ps| <= MAX_PERSISTED
    ensures var r, at := MirrorRecord(ps), 5 + 4 * i;
      && Value(r[at]) * 0x1_0000 + Value(r[at + 1]) * 0x100 + Value(r[at + 2]) == ps[i].code % 0x100_0000
      && r[at + 3] == ps[i].status
  {
    hide Crc32.Crc, BE32, Low8, Value, Body, BigEndian, Low24;
    var r := MirrorRecord(ps);
    BodyAt(ps, i);
    assert r[5..5 + 4 * |ps|] == Body(ps);
    assert r[5 + 4 * i..8 + 4 * i] == Body(ps)[4 * i..4 * i + 3];
    assert r[8 + 4 * i] == Body(ps)[4 * i + 3];
    BigEndianNumbers(ps[i].code);
    CodeDigits(ps[i].code);
  }

  /** The second record: "DR", version 1, four codes, the CRC. */
  lemma RecordsLayout(r: recordList, w: nat)
    requires w < RECORD_COUNT
    ensures var s, at := RecordsRecord(r), 3 + 3 * w;
      && s[..3] == [0x44, 0x52, 0x01] && s[15..] == BE32(Crc32.Crc(s[2..15]))
      && Value(s[at]) * 0x1_0000 + Value(s[at + 1]) * 0x100 + Value(s[at + 2]) == r[w] % 0x100_0000
  {
    hide Crc32.Crc, BE32, Low8, Value, BigEndian;
    var s := RecordsRecord(r);
    assert s[2..15] == RecordsPayload(r);
    assert s[3..6] == BigEndian(3, r[0]) && s[6..9] == BigEndian(3, r[1]);
    assert s[9..12] == BigEndian(3, r[2]) && s[12..15] == BigEndian(3, r[3]);
    assert s[3 + 3 * w..6 + 3 * w] == BigEndian(3, r[w]) by {
      if w == 0 {} else if w == 1 {} else if w == 2 {} else { assert w == 3; }
    }
    BigEndianNumbers(r[w]);
    CodeDigits(r[w]);
  }

  /** The second record is read as four codes exactly when it is the one that writing them produces. */
  lemma RecordsExactlyWhen(s: seq<byte>, r: recordList)
    requires forall w :: 0 <= w < RECORD_COUNT ==> r[w] < CODE_LIMIT
    ensures ParseRecords(s) == Some(r) <==> s == RecordsRecord(r)
  {
    hide Crc32.Crc, Crc32.Sealed, BE32, BigEndian, BigEndianValue, CodeAt, RecordsPayload;
    if s == RecordsRecord(r) {
      ParseUndoesWriteRecords(r);
      assert StoredRecords(r) == r;
    }
    if ParseRecords(s) == Some(r) {
      RecordsReadWritten(s, r);
    }
  }

  lemma RecordsReadWritten(s: seq<byte>, r: recordList)
    requires ParseRecords(s) == Some(r)
    ensures s == RecordsRecord(r)
  {
    hide Crc32.Crc, BE32, LoadBE32, BigEndian, BigEndianValue;
    BigEndianOfValue(s[3..6]);
    BigEndianOfValue(s[6..9]);
    BigEndianOfValue(s[9..12]);
    BigEndianOfValue(s[12..15]);
    StoreLoadBE32(s[15..]);
    assert s[2..15] == [s[2]] + s[3..6] + s[6..9] + s[9..12] + s[12..15];
    assert s[2..15] == RecordsPayload(r);
    assert s == [RECORDS_MAGIC_0, RECORDS_MAGIC_1] + s[2..15] + s[15..];
  }

  lemma CodeDigits(n: u32)
    ensures Value(Low8(n / 256 / 256)) * 0x1_0000 + Value(Low8(n / 256)) * 0x100 + Value(Low8(n)) == n % 0x100_0000
  {
    hide Low8, Value;
    Low8Mod(n);
    Low8Mod(n / 256);
    Low8Mod(n / 256 / 256);
    ValueLow8(n % 256);
    ValueLow8(n / 256 % 256);
    ValueLow8(n / 256 / 256 % 256);
    ThreeDigits(n);
  }

  lemma ThreeDigits(n: nat)
    ensures n / 256 / 256 % 256 * 0x1_0000 + n / 256 % 256 * 0x100 + n % 256 == n % 0x100_0000
  {
    var m := n / 256;
    var k := m / 256;
    ModUnique(n, 0x100_0000, k / 256, k % 256 * 0x1_0000 + m % 256 * 0x100 + n % 256);
  }

  lemma CountDigits(n: nat)
    requires n < 0x1_0000
    ensures Value(Low8(n / 256)) * 0x100 + Value(Low8(n)) == n
  {
    hide Low8, Value;
    Low8Mod(n);
    ValueLow8(n % 256);
    ValueLow8(n / 256);
  }

  /** s holds code and status of each pair in four bytes. */
  predicate HoldsPairs(ps: seq<Pair>, s: seq<byte>) {
    |s| == 4 * |ps| &&
    forall i :: 0 <= i < |ps| ==> CodeAt(s, 4 * i) == ps[i].code && s[4 * i + 3] == ps[i].status
  }

  lemma HoldsFront(ps: seq<Pair>, s: seq<byte>)
    requires ps != [] && HoldsPairs(ps, s)
    ensures HoldsPairs(ps[..|ps| - 1], s[..4 * |ps| - 4])
  {
    hide BigEndianValue;
    var front, t := ps[..|ps| - 1], s[..4 * |ps| - 4];
    forall i | 0 <= i < |front|
      ensures CodeAt(t, 4 * i) == front[i].code && t[4 * i + 3] == front[i].status
    {
      assert t[4 * i..4 * i + 3] == s[4 * i..4 * i + 3];
    }
  }

  lemma HoldsLast(ps: seq<Pair>, s: seq<byte>)
    requires ps != [] && HoldsPairs(ps, s)
    ensures var k, last := 4 * |ps| - 4, ps[|ps| - 1];
      |s| == k + 4 && BigEndian(3, last.code) == s[k..k + 3] && s[k + 3] == last.status
  {
    hide BigEndian, BigEndianValue;
    var k := 4 * |ps| - 4;
    assert CodeAt(s, 4 * (|ps| - 1)) == ps[|ps| - 1].code;
    BigEndianOfValue(s[k..k + 3]);
  }

  lemma {:induction false} BodyFromParts(ps: seq<Pair>, s: seq<byte>)
    requires HoldsPairs(ps, s)
    ensures Body(ps) == s
    decreases |ps|
  {
    hide BigEndian, HoldsPairs;
    if ps == [] {
      HoldsNothing(s);
    } else {
      var k := 4 * |ps| - 4;
      HoldsLast(ps, s);
      HoldsFront(ps, s);
      BodyFromParts(ps[..|ps| - 1], s[..k]);
      assert s == s[..k] + s[k..k + 3] + [s[k + 3]];
    }
  }

  lemma HoldsNothing(s: seq<byte>)
    requires HoldsPairs([], s)
    ensures s == []
  {}

  /** A record is read as entries exactly when it is the one that writing these entries produces. */
  lemma EntriesExactlyWhen(s: seq<byte>, ps: seq<Pair>)
    requires forall i :: 0 <= i < |ps| ==> ps[i].code < CODE_LIMIT
    ensures ParseMirror(s) == Entries(ps) <==> |ps| <= MAX_PERSISTED && s == MirrorRecord(ps)
  {
    hide MirrorRecord, ParseMirror;
    if |ps| <= MAX_PERSISTED && s == MirrorRecord(ps) {
      ParseUndoesWrite(ps);
      assert Stored(ps) == ps;
    }
    if ParseMirror(s) == Entries(ps) {
      ReadMeansWritten(s, ps);
    }
  }

  lemma SliceOfSlice(s: seq<byte>, lo: nat, hi: nat, i: nat, j: nat)
    requires lo <= hi <= |s| && i <= j <= hi - lo
    ensures s[lo..hi][i..j] == s[lo + i..lo + j]
  {
    forall k | 0 <= k < j - i
      ensures s[lo..hi][i..j][k] == s[lo + i..lo + j][k]
    {
      assert s[lo..hi][i + k] == s[lo + i + k];
    }
  }

  lemma ReadMeansWritten(s: seq<byte>, ps: seq<Pair>)
    requires ParseMirror(s) == Entries(ps)
    ensures |ps| <= MAX_PERSISTED && s == MirrorRecord(ps)
  {
    hide Crc32.Crc, BE32, LoadBE32, BigEndian, BigEndianValue, Body;
    var n := 5 + 4 * |ps|;
    var body := s[5..n];
    forall i | 0 <= i < |ps|
      ensures CodeAt(body, 4 * i) == ps[i].code && body[4 * i + 3] == ps[i].status
    {
      SliceOfSlice(s, 5, n, 4 * i, 4 * i + 3);
    }
    BodyFromParts(ps, body);
    BigEndianOfValue(s[3..5]);
    StoreLoadBE32(s[n..]);
    assert s[2..n] == MirrorPayload(ps);
    assert s == [MAGIC_0, MAGIC_1] + s[2..n] + s[n..];
  }

  /** What fits the mirror: at most 125 entries, with codes of three bytes. */
  predicate Mirrored(ps: seq<Pair>) {
    |ps| <= 125 && forall i :: 0 <= i < |ps| ==> ps[i].code < 0x100_0000
  }

  lemma ReadIsMirrored(s: seq<byte>)
    requires ParseMirror(s).Entries?
    ensures Mirrored(ParseMirror(s).pairs) && s == MirrorRecord(ParseMirror(s).pairs)
  {
    hide CodeAt, MirrorRecord, Crc32.Sealed, BigEndianValue;
    EntriesExactlyWhen(s, ParseMirror(s).pairs);
  }

  /**
   * Every load by the stored bytes: without a mirror, or without its magic, nothing happens;
   * the record that some entries write is applied, and the records after it; any other with
   * the magic is corrupt and changes nothing.
   */
  lemma LoadAnswer(store: Nvm.Records, db: State)
    ensures var (after, rc) := AfterLoad(store, db); var read := Nvm.ReadRecord(store, Nvm.KEY_DTC_MIRROR, 509);
      && (read == None ==> after == db && rc == Ok)
      && (read.Some? ==> var s := read.value;
            && (|s| < 5 || s[0] != 0x44 || s[1] != 0x4D ==> after == db && rc == Ok)
            && (forall ps :: Mirrored(ps) && s == MirrorRecord(ps) ==>
                  (after, rc) == AfterRecordsLoad(store, ApplyPairs(db, ps)))
            && (|s| >= 5 && s[0] == 0x44 && s[1] == 0x4D && !(exists ps :: Mirrored(ps) && s == MirrorRecord(ps)) ==>
                  after == db && rc == ErrNvmDataCorrupt))
  {
    hide MirrorRecord, ParseMirror, ApplyPairs, AfterRecordsLoad, Mirrored;
    var read := Nvm.ReadRecord(store, Nvm.KEY_DTC_MIRROR, 509);
    if read.Some? {
      var s := read.value;
      MagicParsed(s);
      forall ps | Mirrored(ps) && s == MirrorRecord(ps)
        ensures ParseMirror(s) == Entries(ps)
      {
        WrittenIsRead(ps);
      }
      if ParseMirror(s).Entries? {
        ReadIsMirrored(s);
      }
    }
  }

  lemma WrittenIsRead(ps: seq<Pair>)
    requires Mirrored(ps)
    ensures ParseMirror(MirrorRecord(ps)) == Entries(ps)
  {
    EntriesExactlyWhen(MirrorRecord(ps), ps);
  }

  lemma MagicParsed(s: seq<byte>)
    ensures ParseMirror(s) == Nothing <==> |s| < 5 || s[0] != 0x44 || s[1] != 0x4D
  {
    hide CodeAt, Crc32.Sealed, BigEndianValue;
  }

  // ---- Applying a list of entries ----

  /** The status of a code after the list: its last mention, or what it was. */
  function Lookup(ps: seq<Pair>, code: u32, otherwise: byte): byte
    decreases |ps|
  {
    if ps == [] then otherwise
    else if ps[|ps| - 1].code == code then ps[|ps| - 1].status
    else Lookup(ps[..|ps| - 1], code, otherwise)
  }

  lemma {:induction false} ApplyPairsMeaning(db: State, ps: seq<Pair>)
    requires Inv(db)
    ensures var z := ApplyPairs(db, ps);
      z.records == db.records && SameCodes(z.entries, db.entries) &&
      forall j :: 0 <= j < |db.entries| ==>
        z.entries[j] == db.entries[j].(status := Lookup(ps, db.entries[j].code, db.entries[j].status))
    decreases |ps|
  {
    hide IndexOf, Inv;
    if ps != [] {
      var y, last := ApplyPairs(db, ps[..|ps| - 1]), ps[|ps| - 1];
      ApplyPairsMeaning(db, ps[..|ps| - 1]);
      forall j | 0 <= j < |db.entries| && db.entries[j].code == last.code ensures IndexOf(y.entries, last.code) == j {
        Distinct(db, j);
        SameCodesSameIndex(y.entries, db.entries, last.code);
      }
    }
  }

  lemma Distinct(db: State, j: nat)
    requires Inv(db) && j < |db.entries|
    ensures IndexOf(db.entries, db.entries[j].code) == j
  {
    IndexOfUnique(db.entries, db.entries[j].code, j);
  }

  /** In a list of distinct codes the lookup finds the entry of the code. */
  lemma {:induction false} LookupPairs(es: seq<Entry>, k: nat, code: u32, otherwise: byte)
    requires k <= |es|
    requires forall i, j :: 0 <= i < j < |es| ==> es[i].code != es[j].code
    ensures Lookup(FirstPairs(es, k), code, otherwise) ==
      if IndexOf(es, code) < k then es[IndexOf(es, code)].status else otherwise
    decreases k
  {
    hide IndexOf;
    if k > 0 {
      assert FirstPairs(es, k)[..k - 1] == FirstPairs(es, k - 1);
      LookupPairs(es, k - 1, code, otherwise);
      if es[k - 1].code == code {
        IndexOfUnique(es, code, k - 1);
      }
    }
  }

  function FirstPairs(es: seq<Entry>, k: nat): seq<Pair>
    requires k <= |es|
  {
    seq(k, i requires 0 <= i < |es| => Pair(es[i].code, es[i].status))
  }

  lemma {:induction false} ApplyRecordsMeaning(db: State, r: recordList, k: nat)
    requires k <= RECORD_COUNT
    ensures var z := ApplyRecords(db, r, k);
      z.entries == db.entries &&
      forall w :: 0 <= w < RECORD_COUNT ==>
        z.records[w] == if w >= k then db.records[w] else if r[w] != 0 && Registered(db, r[w]) then r[w] else 0
    decreases k
  {
    hide IndexOf;
    if k > 0 {
      ApplyRecordsMeaning(db, r, k - 1);
    }
  }

  // ---- What survives a reboot ----

  /** A database right after registration at start-up. */
  ghost predicate JustRegistered(db: State) {
    Inv(db) && db.records == NO_RECORDS &&
    forall j :: 0 <= j < |db.entries| ==> db.entries[j].status == INIT_AND_CLEARED
  }

  /** What the mirror can hold: the persisted codes and those in the records fit three bytes. */
  predicate Mirrorable(db: State) {
    (forall i :: 0 <= i < |db.entries| && i < MAX_PERSISTED ==> db.entries[i].code < CODE_LIMIT) &&
    (forall w :: 0 <= w < RECORD_COUNT ==> db.records[w] < CODE_LIMIT)
  }

  lemma LoadUndoesFlush(store: Nvm.Records, before: State, db: State)
    ensures AfterLoad(AfterFlush(store, before), db) ==
      (ApplyRecords(ApplyPairs(db, Stored(Pairs(before.entries))), StoredRecords(before.records), RECORD_COUNT), Ok)
  {
    hide MirrorRecord, RecordsRecord, ParseMirror, ParseRecords, IndexOf;
    ParseUndoesWrite(Pairs(before.entries));
    ParseUndoesWriteRecords(before.records);
  }

  /** A flush and a reboot with any set of registered codes, whatever the old codes were. */
  lemma RebootInGeneral(store: Nvm.Records, before: State, db: State)
    requires JustRegistered(db)
    ensures var (after, rc) := AfterLoad(AfterFlush(store, before), db);
      && rc == Ok
      && |after.entries| == |db.entries|
      && (forall j :: 0 <= j < |db.entries| ==>
            after.entries[j] ==
            db.entries[j].(status := Lookup(Stored(Pairs(before.entries)), db.entries[j].code, INIT_AND_CLEARED)))
      && (forall w :: 0 <= w < RECORD_COUNT ==> var r := StoredRecords(before.records)[w];
            after.records[w] == if Registered(db, r) then r else 0)
  {
    hide AfterLoad, AfterFlush, IndexOf;
    LoadUndoesFlush(store, before, db);
    var ps, rs := Stored(Pairs(before.entries)), StoredRecords(before.records);
    var y := ApplyPairs(db, ps);
    ApplyPairsMeaning(db, ps);
    ApplyRecordsMeaning(y, rs, RECORD_COUNT);
    forall w | 0 <= w < RECORD_COUNT
      ensures Registered(y, rs[w]) == Registered(db, rs[w])
      ensures rs[w] == 0 ==> !Registered(db, rs[w])
    {
      SameCodesSameIndex(y.entries, db.entries, rs[w]);
      ZeroUnregistered(db);
    }
  }

  /** The status that the first 125 entries hold for a code, 0x50 if none does. */
  function PersistedStatus(es: seq<Entry>, code: u32): byte {
    var i := IndexOf(es, code);
    if i < |es| && i < MAX_PERSISTED then es[i].status else INIT_AND_CLEARED
  }

  /** Every registered code has its persisted status, and each record is back if its code is registered, else empty. */
  predicate Survives(before: State, db: State, result: (State, Status)) {
    var (after, rc) := result;
    && rc == Ok
    && |after.entries| == |db.entries|
    && (forall j :: 0 <= j < |db.entries| ==>
          after.entries[j] == db.entries[j].(status := PersistedStatus(before.entries, db.entries[j].code)))
    && (forall w :: 0 <= w < RECORD_COUNT ==>
          after.records[w] == if Registered(db, before.records[w]) then before.records[w] else 0)
  }

  /**
   * Flush, reboot with any set of registered codes, load: every code among the first 125
   * of before that is still registered has its status back, every other one keeps 0x50,
   * and each record is back if its code is still registered, else empty.
   */
  lemma SurvivesReboot(store: Nvm.Records, before: State, db: State)
    requires Inv(before) && Mirrorable(before) && JustRegistered(db)
    ensures Survives(before, db, AfterLoad(AfterFlush(store, before), db))
  {
    hide AfterLoad, AfterFlush, IndexOf, Lookup;
    RebootInGeneral(store, before, db);
    var ps := Pairs(before.entries);
    assert Stored(ps) == ps == FirstPairs(before.entries, |ps|);
    assert StoredRecords(before.records) == before.records;
    forall j | 0 <= j < |db.entries|
      ensures Lookup(ps, db.entries[j].code, INIT_AND_CLEARED) ==
        PersistedStatus(before.entries, db.entries[j].code)
    {
      LookupPairs(before.entries, |ps|, db.entries[j].code, INIT_AND_CLEARED);
    }
  }

  /**
   * A flush cut short between its two writes leaves the store of a flush with the new
   * statuses and the records of the flush before, so a reboot is still one of those above.
   */
  lemma HalfFlush(store: Nvm.Records, before: State, db: State)
    ensures AfterWrites(AfterFlush(store, before), db, true, false) ==
            AfterFlush(store, State(db.entries, before.records))
  {
    hide MirrorRecord, RecordsRecord;
  }

  /** A code of more than three bytes never gets its status back. */
  lemma WideCodeIsLost(store: Nvm.Records, before: State, db: State, j: nat)
    requires JustRegistered(db) && j < |db.entries| && db.entries[j].code >= CODE_LIMIT
    ensures var es := AfterLoad(AfterFlush(store, before), db).0.entries;
      |es| == |db.entries| && es[j].status == INIT_AND_CLEARED
  {
    hide AfterLoad, AfterFlush, IndexOf;
    RebootInGeneral(store, before, db);
    NotMentioned(Stored(Pairs(before.entries)), db.entries[j].code, INIT_AND_CLEARED);
  }

  lemma {:induction false} NotMentioned(ps: seq<Pair>, code: u32, otherwise: byte)
    requires forall i :: 0 <= i < |ps| ==> ps[i].code != code
    ensures Lookup(ps, code, otherwise) == otherwise
    decreases |ps|
  {
    if ps != [] {
      NotMentioned(ps[..|ps| - 1], code, otherwise);
    }
  }

  /** Entry k is persisted, and reads back under the given code. */
  predicate ReadsAs(es: seq<Entry>, k: nat, code: u32) {
    k < |es| && k < MAX_PERSISTED && Low24(es[k].code) == code
  }

  /** The lookup gives the status of the last persisted entry that reads as the code. */
  lemma {:induction false} LookupStored(es: seq<Entry>, n: nat, code: u32, otherwise: byte, k: nat)
    requires n <= |es| && k < n && Low24(es[k].code) == code
    requires forall l :: k < l < n ==> Low24(es[l].code) != code
    ensures Lookup(Stored(FirstPairs(es, n)), code, otherwise) == es[k].status
    decreases n
  {
    hide Low24;
    var ps := Stored(FirstPairs(es, n));
    assert ps[..n - 1] == Stored(FirstPairs(es, n - 1));
    if k < n - 1 {
      LookupStored(es, n - 1, code, otherwise, k);
    }
  }

  /** The last of the first n entries that reads as the code, if any does. */
  lemma {:induction false} LastReader(es: seq<Entry>, n: nat, code: u32) returns (k: nat)
    requires n <= |es|
    ensures k < n ==> Low24(es[k].code) == code
    ensures k <= n && forall l :: 0 <= l < n && (k == n || k < l) ==> Low24(es[l].code) != code
    decreases n
  {
    hide Low24;
    if n == 0 {
      k := 0;
    } else if Low24(es[n - 1].code) == code {
      k := n - 1;
    } else {
      k := LastReader(es, n - 1, code);
      if k == n - 1 {
        k := n;
      }
    }
  }

  /** The code of entry j fits three bytes, and no later persisted entry reads as it. */
  predicate Kept(es: seq<Entry>, j: nat)
    requires j < |es|
  {
    es[j].code < CODE_LIMIT && forall k: nat :: j < k < |es| ==> !ReadsAs(es, k, es[j].code)
  }

  /** All persisted statuses are back. */
  predicate AllBack(before: seq<Entry>, after: seq<Entry>) {
    |after| == |before| && forall j :: 0 <= j < |before| && j < MAX_PERSISTED ==> after[j].status == before[j].status
  }

  /** Every persisted status that is not clear is kept. */
  predicate FaultsKept(es: seq<Entry>) {
    forall j :: 0 <= j < |es| && j < MAX_PERSISTED && es[j].status != INIT_AND_CLEARED ==> Kept(es, j)
  }

  /** What a reboot with the same codes makes of the persisted entry j. */
  lemma SameCodesReboot(store: Nvm.Records, before: State, db: State, j: nat) returns (k: nat)
    requires Inv(before) && JustRegistered(db) && SameCodes(db.entries, before.entries)
    requires j < |before.entries| && j < MAX_PERSISTED
    ensures var es, after := before.entries, AfterLoad(AfterFlush(store, before), db).0.entries;
      && |after| == |es|
      && (es[j].code >= CODE_LIMIT ==> after[j].status == INIT_AND_CLEARED)
      && (ReadsAs(es, k, es[j].code) ==> after[j].status == es[k].status)
      && (!ReadsAs(es, k, es[j].code) ==> after[j].status == INIT_AND_CLEARED)
      && forall l: nat :: ReadsAs(es, l, es[j].code) ==> ReadsAs(es, k, es[j].code) && l <= k
  {
    hide AfterLoad, AfterFlush, IndexOf, Lookup, Low24;
    var es, ps := before.entries, Pairs(before.entries);
    RebootInGeneral(store, before, db);
    assert ps == FirstPairs(es, |ps|);
    k := LastReader(es, |ps|, es[j].code);
    if k < |ps| {
      LookupStored(es, |ps|, es[j].code, INIT_AND_CLEARED, k);
    } else {
      NotMentioned(Stored(ps), es[j].code, INIT_AND_CLEARED);
    }
    if es[j].code >= CODE_LIMIT {
      WideCodeIsLost(store, before, db, j);
    }
  }

  /**
   * A reboot with the same codes brings every persisted status back exactly when each
   * persisted entry that is not clear has a code of three bytes that no later persisted
   * code is taken for. Registration checks neither.
   */
  lemma BackExactlyWhen(store: Nvm.Records, before: State, db: State)
    requires Inv(before) && JustRegistered(db) && SameCodes(db.entries, before.entries)
    ensures AllBack(before.entries, AfterLoad(AfterFlush(store, before), db).0.entries) <==> FaultsKept(before.entries)
  {
    var es, after := before.entries, AfterLoad(AfterFlush(store, before), db).0.entries;
    hide AfterLoad, AfterFlush, IndexOf;
    if AllBack(es, after) {
      forall j | 0 <= j < |es| && j < MAX_PERSISTED && es[j].status != INIT_AND_CLEARED ensures Kept(es, j) {
        BackMeansKept(store, before, db, j);
      }
    }
    if FaultsKept(es) {
      RebootInGeneral(store, before, db);
      forall j | 0 <= j < |es| && j < MAX_PERSISTED ensures after[j].status == es[j].status {
        KeptMeansBack(store, before, db, j);
      }
    }
  }

  lemma BackMeansKept(store: Nvm.Records, before: State, db: State, j: nat)
    requires Inv(before) && JustRegistered(db) && SameCodes(db.entries, before.entries)
    requires AllBack(before.entries, AfterLoad(AfterFlush(store, before), db).0.entries)
    requires j < |before.entries| && j < MAX_PERSISTED && before.entries[j].status != INIT_AND_CLEARED
    ensures Kept(before.entries, j)
  {
    hide AfterLoad, AfterFlush, Inv;
    var es := before.entries;
    var k := SameCodesReboot(store, before, db, j);
    if k != j && ReadsAs(es, k, es[j].code) {
      DistinctCodes(before, j, k);
      var _ := SameCodesReboot(store, before, db, k);
    }
  }

  lemma KeptMeansBack(store: Nvm.Records, before: State, db: State, j: nat)
    requires Inv(before) && JustRegistered(db) && SameCodes(db.entries, before.entries)
    requires FaultsKept(before.entries)
    requires j < |before.entries| && j < MAX_PERSISTED
    ensures var after := AfterLoad(AfterFlush(store, before), db).0.entries;
      |after| == |before.entries| && after[j].status == before.entries[j].status
  {
    hide AfterLoad, AfterFlush, Inv;
    var es := before.entries;
    var k := SameCodesReboot(store, before, db, j);
    if es[j].status != INIT_AND_CLEARED {
      assert Kept(es, j) && ReadsAs(es, j, es[j].code);
    } else if k != j && ReadsAs(es, k, es[j].code) {
      DistinctCodes(before, j, k);
    }
  }

  lemma DistinctCodes(s: State, i: nat, j: nat)
    requires Inv(s) && i < |s.entries| && j < |s.entries| && i != j
    ensures s.entries[i].code != s.entries[j].code
  {}

  /** A fault under code 1, and a clear code that three bytes take for it. */
  const ALIASED: seq<Entry> := [Entry(1, 0x09, 0, 0, false), Entry(0x100_0001, INIT_AND_CLEARED, 0, 0, false)]

  /** The clear code, read back as 1, wipes out the fault. */
  lemma ClearCodeWipesFault(store: Nvm.Records, db: State)
    requires JustRegistered(db) && SameCodes(db.entries, ALIASED)
    ensures Inv(State(ALIASED, NO_RECORDS))
    ensures var after := AfterLoad(AfterFlush(store, State(ALIASED, NO_RECORDS)), db).0.entries;
      |after| == 2 && after[0].code == 1 && ALIASED[0].status == 0x09 && after[0].status == INIT_AND_CLEARED
  {
    hide AfterLoad, AfterFlush, IndexOf;
    var k := SameCodesReboot(store, State(ALIASED, NO_RECORDS), db, 0);
    assert ReadsAs(ALIASED, 1, 1);
    RebootInGeneral(store, State(ALIASED, NO_RECORDS), db);
  }

  lemma Low24Keeps(code: u32)
    ensures Low24(code) == code <==> code < CODE_LIMIT
  {}

  lemma RecordBack(store: Nvm.Records, before: State, db: State, w: nat)
    requires Inv(before) && JustRegistered(db) && SameCodes(db.entries, before.entries) && w < RECORD_COUNT
    ensures AfterLoad(AfterFlush(store, before), db).0.records[w] == before.records[w] <==>
      before.records[w] < CODE_LIMIT
  {
    hide AfterLoad, AfterFlush, IndexOf, Low24, Lookup, Stored, Pairs;
    RebootInGeneral(store, before, db);
    Low24Keeps(before.records[w]);
    ZeroUnregistered(db);
    SameCodesSameIndex(before.entries, db.entries, before.records[w]);
  }

  /** The records come back exactly when the codes they name fit three bytes. */
  lemma RecordsBackExactlyWhen(store: Nvm.Records, before: State, db: State)
    requires Inv(before) && JustRegistered(db) && SameCodes(db.entries, before.entries)
    ensures AfterLoad(AfterFlush(store, before), db).0.records == before.records <==>
      forall w :: 0 <= w < RECORD_COUNT ==> before.records[w] < CODE_LIMIT
  {
    hide AfterLoad, AfterFlush, Inv, JustRegistered;
    var after := AfterLoad(AfterFlush(store, before), db).0.records;
    forall w | 0 <= w < RECORD_COUNT ensures after[w] == before.records[w] <==> before.records[w] < CODE_LIMIT {
      RecordBack(store, before, db, w);
    }
  }

  lemma NoLaterReader(es: seq<Entry>, i: nat, k: nat)
    requires i < |es| && Kept(es, i) && ReadsAs(es, k, es[i].code)
    ensures k <= i
  {}

  /** If the faults are kept, the stored pairs answer for every code, registered before or not. */
  lemma LookupKept(before: State, code: u32)
    requires Inv(before) && FaultsKept(before.entries)
    ensures Lookup(Stored(Pairs(before.entries)), code, INIT_AND_CLEARED) == PersistedStatus(before.entries, code)
  {
    hide Low24, Lookup, IndexOf;
    var es, ps := before.entries, Pairs(before.entries);
    assert ps == FirstPairs(es, |ps|);
    var k := LastReader(es, |ps|, code);
    var i := IndexOf(es, code);
    if k < |ps| {
      LookupStored(es, |ps|, code, INIT_AND_CLEARED, k);
    } else {
      NotMentioned(Stored(ps), code, INIT_AND_CLEARED);
    }
    if k < |ps| && es[k].status != INIT_AND_CLEARED {
      Low24Keeps(es[k].code);
      assert Kept(es, k);
      IndexOfUnique(es, code, k);
    } else if i < |ps| && es[i].status != INIT_AND_CLEARED {
      Low24Keeps(code);
      assert ReadsAs(es, i, code);
      NoLaterReader(es, i, k);
    }
  }

  lemma SurvivesMeansAllBack(before: State, db: State, result: (State, Status))
    requires Inv(before) && Inv(db) && SameCodes(db.entries, before.entries) && Survives(before, db, result)
    ensures AllBack(before.entries, result.0.entries) && result.0.records == before.records
  {
    hide IndexOf;
    var after := result.0;
    forall j | 0 <= j < |before.entries| && j < MAX_PERSISTED
      ensures after.entries[j].status == before.entries[j].status
    {
      Distinct(before, j);
    }
    forall w | 0 <= w < RECORD_COUNT
      ensures after.records[w] == before.records[w]
    {
      ZeroUnregistered(db);
      SameCodesSameIndex(db.entries, before.entries, before.records[w]);
    }
  }

  /**
   * A flushed database survives every reboot, whatever codes are registered then, exactly
   * when each persisted status that is not clear is kept and each record's code fits three bytes.
   */
  lemma SurvivesExactlyWhen(store: Nvm.Records, before: State)
    requires Inv(before)
    ensures (forall db: State :: JustRegistered(db) ==> Survives(before, db, AfterLoad(AfterFlush(store, before), db)))
      <==> FaultsKept(before.entries) && forall w :: 0 <= w < RECORD_COUNT ==> before.records[w] < CODE_LIMIT
  {
    hide AfterLoad, AfterFlush, IndexOf, Inv, FaultsKept, Kept, AllBack, Lookup, Stored, Pairs;
    if forall db: State :: JustRegistered(db) ==> Survives(before, db, AfterLoad(AfterFlush(store, before), db)) {
      var db := AfterClear(before, false);
      StepKeepsInv(before, ClearAll);
      assert JustRegistered(db);
      SurvivesMeansAllBack(before, db, AfterLoad(AfterFlush(store, before), db));
      BackExactlyWhen(store, before, db);
      RecordsBackExactlyWhen(store, before, db);
    }
    if FaultsKept(before.entries) && forall w :: 0 <= w < RECORD_COUNT ==> before.records[w] < CODE_LIMIT {
      forall db: State | JustRegistered(db)
        ensures Survives(before, db, AfterLoad(AfterFlush(store, before), db))
      {
        KeptSurvives(store, before, db);
      }
    }
  }

  lemma KeptSurvives(store: Nvm.Records, before: State, db: State)
    requires Inv(before) && JustRegistered(db) && FaultsKept(before.entries)
    requires forall w :: 0 <= w < RECORD_COUNT ==> before.records[w] < CODE_LIMIT
    ensures Survives(before, db, AfterLoad(AfterFlush(store, before), db))
  {
    hide AfterLoad, AfterFlush, IndexOf, Inv, FaultsKept, Lookup, Stored, Pairs, PersistedStatus;
    RebootInGeneral(store, before, db);
    assert StoredRecords(before.records) == before.records;
    forall j | 0 <= j < |db.entries|
      ensures Lookup(Stored(Pairs(before.entries)), db.entries[j].code, INIT_AND_CLEARED) ==
        PersistedStatus(before.entries, db.entries[j].code)
    {
      LookupKept(before, db.entries[j].code);
    }
  }

  lemma ZeroUnregistered(db: State)
    requires Inv(db)
    ensures !Registered(db, 0)
  {}

  /**
   * After a clear that spares the permanent codes, and a flush, a reboot brings the
   * permanent ones back with their status; all others are clear, and so are the records.
   */
  lemma ClearSurvivesReboot(store: Nvm.Records, before: State, db: State)
    requires Inv(before) && Mirrorable(before) && JustRegistered(db)
    ensures var (after, rc) := AfterLoad(AfterFlush(store, AfterClear(before, true)), db);
      && rc == Ok && after.records == NO_RECORDS
      && |after.entries| == |db.entries|
      && (forall j :: 0 <= j < |db.entries| ==>
            var i := IndexOf(before.entries, db.entries[j].code);
            after.entries[j].status ==
              if i < |before.entries| && i < MAX_PERSISTED && before.entries[i].permanent then before.entries[i].status
              else INIT_AND_CLEARED)
  {
    hide AfterLoad, AfterFlush, IndexOf;
    var cleared := AfterClear(before, true);
    StepKeepsInv(before, ClearNonPermanent);
    SurvivesReboot(store, cleared, db);
    forall j | 0 <= j < |db.entries|
      ensures IndexOf(cleared.entries, db.entries[j].code) == IndexOf(before.entries, db.entries[j].code)
    {
      SameCodesSameIndex(cleared.entries, before.entries, db.entries[j].code);
    }
    ZeroUnregistered(db);
    var after := AfterLoad(AfterFlush(store, cleared), db).0;
    assert after.records[0] == after.records[1] == after.records[2] == after.records[3] == 0;
  }

  // ---- Damage ----

  lemma DamagedNotEntries(ps: seq<Pair>, i: nat, w: seq<byte>)
    requires |ps| <= MAX_PERSISTED && i + |w| <= 9 + 4 * |ps|
    requires (|w| <= 4 && i + |w| <= 5 + 4 * |ps|) || 5 + 4 * |ps| <= i
    requires Crc32.Overwrite(MirrorRecord(ps), i, w) != MirrorRecord(ps)
    ensures !ParseMirror(Crc32.Overwrite(MirrorRecord(ps), i, w)).Entries?
  {
    hide Crc32.Sealed, Crc32.Seal, MirrorPayload;
    var r := MirrorRecord(ps);
    var d := Crc32.Overwrite(r, i, w);
    Crc32.SealIsSealed([MAGIC_0, MAGIC_1], MirrorPayload(ps));
    if d[0] == MAGIC_0 && d[1] == MAGIC_1 {
      MirrorMagic(ps);
      assert d[..2] == [d[0], d[1]] == r[..2];
      Crc32.DamageSparesMagic(r, i, w);
    }
  }

  lemma MirrorMagic(ps: seq<Pair>)
    ensures MirrorRecord(ps)[0] == MAGIC_0 && MirrorRecord(ps)[1] == MAGIC_1
  {}

  lemma DamagedParsed(ps: seq<Pair>, i: nat, w: seq<byte>)
    requires |ps| <= MAX_PERSISTED && i + |w| <= 9 + 4 * |ps|
    requires (|w| <= 4 && i + |w| <= 5 + 4 * |ps|) || 5 + 4 * |ps| <= i
    requires Crc32.Overwrite(MirrorRecord(ps), i, w) != MirrorRecord(ps)
    ensures var d := Crc32.Overwrite(MirrorRecord(ps), i, w);
      ParseMirror(d) == if d[0] == 0x44 && d[1] == 0x4D then Corrupt else Nothing
  {
    DamagedNotEntries(ps, i, w);
    hide Crc32.Sealed, Crc32.Seal, MirrorPayload;
  }

  /**
   * A mirror record altered only within four consecutive bytes before its CRC, or only
   * within the CRC, never changes any status or record on load. The load says so exactly
   * when the two magic bytes are still there; without them it finds no mirror.
   */
  lemma DamageNeverApplied(store: Nvm.Records, before: State, db: State, i: nat, w: seq<byte>)
    requires i + |w| <= |MirrorRecord(Pairs(before.entries))|
    requires (|w| <= 4 && i + |w| <= |MirrorRecord(Pairs(before.entries))| - 4) ||
             |MirrorRecord(Pairs(before.entries))| - 4 <= i
    requires Crc32.Overwrite(MirrorRecord(Pairs(before.entries)), i, w) != MirrorRecord(Pairs(before.entries))
    ensures var d := Crc32.Overwrite(MirrorRecord(Pairs(before.entries)), i, w);
      AfterLoad(AfterFlush(store, before)[Nvm.KEY_DTC_MIRROR := d], db) ==
        (db, if d[0] == 0x44 && d[1] == 0x4D then ErrNvmDataCorrupt else Ok)
  {
    hide MirrorRecord, RecordsRecord, ParseMirror, Crc32.Overwrite, ApplyPairs;
    DamagedParsed(Pairs(before.entries), i, w);
  }

  /** The same for the records: then they stay as they were, and the load says so. */
  lemma RecordsDamageNeverApplied(store: Nvm.Records, before: recordList, db: State, i: nat, w: seq<byte>)
    requires (|w| <= 4 && i + |w| <= RECORDS_BYTES - 4) || (RECORDS_BYTES - 4 <= i && i + |w| <= RECORDS_BYTES)
    requires Crc32.Overwrite(RecordsRecord(before), i, w) != RecordsRecord(before)
    ensures AfterRecordsLoad(store[Nvm.KEY_DTC_RECORDS := Crc32.Overwrite(RecordsRecord(before), i, w)], db)
      == (db, ErrNvmDataCorrupt)
  {
    hide Crc32.Sealed, Crc32.Seal, RecordsPayload;
    var r := RecordsRecord(before);
    var d := Crc32.Overwrite(r, i, w);
    Crc32.SealIsSealed([RECORDS_MAGIC_0, RECORDS_MAGIC_1], RecordsPayload(before));
    if d[0] == RECORDS_MAGIC_0 && d[1] == RECORDS_MAGIC_1 {
      RecordsMagic(before);
      assert d[..2] == [d[0], d[1]] == r[..2];
      Crc32.DamageSparesMagic(r, i, w);
    }
  }

  lemma RecordsMagic(r: recordList)
    ensures RecordsRecord(r)[0] == RECORDS_MAGIC_0 && RecordsRecord(r)[1] == RECORDS_MAGIC_1
  {}

  // ---- The C code ----

  class Mirror {
    var initialized: bool
    const buf: array<byte>
    const db: Database
    const store: Nvm.Store

    constructor (db: Database, store: Nvm.Store)
      ensures !initialized && this.db == db && this.store == store && fresh(buf) && Valid()
    {
      initialized := false;
      buf := new byte[MAX_BYTES](_ => 0);
      this.db, this.store := db, store;
    }

    ghost predicate Valid()
      reads this
    {
      buf.Length == MAX_BYTES
    }

    /** dtc_mirror_init */
    method Init() returns (status: Status)
      requires Valid()
      modifies this, buf
      ensures Valid() && initialized && status == if old(initialized) then ErrAlreadyInitialized else Ok
    {
      if initialized {
        return ErrAlreadyInitialized;
      }
      for i := 0 to MAX_BYTES {
        buf[i] := 0;
      }
      initialized := true;
      status := Ok;
    }

    /** One entry at pos. */
    method PutEntry(code: u32, status: byte, pos: nat)
      requires Valid() && 5 <= pos <= MAX_BYTES - 8
      modifies buf
      ensures buf[..5] == old(buf[..5])
      ensures buf[5..pos + 4] == old(buf[5..pos]) + BigEndian(3, code) + [status]
    {
      hide BigEndian;
      StoreCode(code, buf, pos);
      assert buf[5..pos + 3] == buf[..pos + 3][5..];
      assert buf[..5] == buf[..pos + 3][..5] == old(buf[..pos])[..5];
      assert old(buf[5..pos]) == old(buf[..pos])[5..];
      buf[pos + 3] := status;
      assert buf[5..pos + 4] == buf[5..pos + 3] + [status];
    }

    /** The entry loop of mirror_serialize. */
    method PutEntries() returns (pos: nat, count: nat)
      requires Valid() && db.Valid()
      modifies buf
      ensures count == |Pairs(db.View().entries)| && pos == 5 + 4 * count
      ensures buf[..5] == old(buf[..5])
      ensures buf[5..pos] == Body(Pairs(db.View().entries))
    {
      hide Body, BigEndian;
      ghost var ps := Pairs(db.View().entries);
      EmptyBody();
      pos, count := 5, 0;
      assert ps[..0] == [];
      var idx := 0;
      while idx < MAX_PERSISTED
        invariant idx <= MAX_PERSISTED && count <= |ps| && pos == 5 + 4 * count
        invariant if db.initialized then count == idx else |ps| == 0
        invariant buf[5..pos] == Body(ps[..count]) && buf[..5] == old(buf[..5])
      {
        var rc, code, status := db.GetByIndex(idx);
        if rc == ErrDidNotFound {
          break;
        }
        if rc != Ok {
          idx := idx + 1;
          continue;
        }
        if pos + 4 + 4 > MAX_BYTES {
          break;
        }
        PutEntry(code, status, pos);
        pos := pos + 4;
        BodyExtends(ps, count);
        count := count + 1;
        idx := idx + 1;
      }
      assert ps[..count] == ps;
    }

    /** The count goes into the header once the entries are written. */
    method PutCount(count: nat, pos: nat)
      requires Valid() && 5 <= pos <= MAX_BYTES
      modifies buf
      ensures buf[..2] == old(buf[..2])
      ensures buf[2..pos] == old(buf[2..3]) + BigEndian(2, count) + old(buf[5..pos])
    {
      hide BigEndian, Low8;
      BigEndianNumbers(count);
      buf[3] := Low8(count / 256);
      buf[4] := Low8(count);
    }

    /** mirror_serialize */
    method Serialize() returns (length: nat)
      requires Valid() && db.Valid()
      modifies buf
      ensures length <= MAX_BYTES && buf[..length] == MirrorRecord(Pairs(db.View().entries))
    {
      hide Body, BigEndian, Crc32.Seal;
      buf[0] := MAGIC_0;
      buf[1] := MAGIC_1;
      buf[2] := FORMAT_VERSION;
      buf[3], buf[4] := 0, 0;
      ghost var header := buf[..5];
      var pos, count := PutEntries();
      assert buf[..2] == buf[..5][..2] == header[..2];
      assert buf[2..3] == buf[..5][2..3] == [FORMAT_VERSION];
      PutCount(count, pos);
      assert buf[0] == buf[..2][0] && buf[1] == buf[..2][1];
      SealBuffer(pos);
      length := pos + 4;
    }

    /** The CRC over everything but the magic, and where it goes. */
    method SealBuffer(pos: nat)
      requires Valid() && 2 <= pos <= MAX_BYTES - 4 && buf[0] == MAGIC_0 && buf[1] == MAGIC_1
      modifies buf
      ensures buf[..pos + 4] == Crc32.Seal([MAGIC_0, MAGIC_1], old(buf[2..pos]))
    {
      hide Crc32.Crc, BE32;
      var crc := Crc32.Crc32Of(buf, 2, pos - 2);
      assert buf[..pos] == [MAGIC_0, MAGIC_1] + buf[2..pos];
      StoreBE32(crc, buf, pos);
    }

    /** records_write; works: the platform can write. */
    method RecordsWrite(works: bool) returns (rc: Status)
      requires db.Valid()
      modifies store`records
      ensures rc == if !store.ready then ErrNotInitialized else if works then Ok else ErrPlatform
      ensures store.records ==
        if rc == Ok then old(store.records)[Nvm.KEY_DTC_RECORDS := RecordsRecord(db.View().records)]
                               else old(store.records)
    {
      hide RecordsRecord;
      var out := new byte[RECORDS_BYTES](_ => 0);
      PutRecords(out);
      SealRecords(out);
      rc := store.Write(Nvm.KEY_DTC_RECORDS, out, RECORDS_BYTES, works);
      assert out[..RECORDS_BYTES] == out[..];
    }

    /** Header and records. */
    method PutRecords(out: array<byte>)
      requires db.Valid() && out.Length == RECORDS_BYTES
      modifies out
      ensures out[..15] == [RECORDS_MAGIC_0, RECORDS_MAGIC_1] + RecordsPayload(db.View().records)
    {
      hide BigEndian;
      out[0] := RECORDS_MAGIC_0;
      out[1] := RECORDS_MAGIC_1;
      out[2] := RECORDS_FORMAT_VERSION;
      assert out[..3] == [RECORDS_MAGIC_0, RECORDS_MAGIC_1] + [RECORDS_FORMAT_VERSION];
      PutRecord(out, 0);
      PutRecord(out, 1);
      PutRecord(out, 2);
      PutRecord(out, 3);
    }

    /** The CRC behind them. */
    method SealRecords(out: array<byte>)
      requires db.Valid() && out.Length == RECORDS_BYTES
      requires out[..15] == [RECORDS_MAGIC_0, RECORDS_MAGIC_1] + RecordsPayload(db.View().records)
      modifies out
      ensures out[..] == RecordsRecord(db.View().records)
    {
      hide RecordsPayload, Crc32.Crc, BE32;
      assert out[2..15] == out[..15][2..] == RecordsPayload(db.View().records);
      var crc := Crc32.Crc32Of(out, 2, 13);
      StoreBE32(crc, out, 15);
      assert out[..] == out[..19];
    }

    /** One turn of the loop in records_write. */
    method PutRecord(out: array<byte>, r: nat)
      requires db.Valid() && r < RECORD_COUNT && out.Length == RECORDS_BYTES
      modifies out
      ensures out[..6 + 3 * r] == old(out[..3 + 3 * r]) + BigEndian(3, db.View().records[r])
    {
      hide BigEndian;
      var rc, code := db.GetRecord(r);
      StoreCode(code, out, 3 + 3 * r);
    }

    /** dtc_mirror_flush_all; the two writes can fail independently. */
    method FlushAll(mirrorWorks: bool, recordsWork: bool) returns (status: Status)
      requires Valid() && db.Valid()
      modifies buf, store`records
      ensures status == if !initialized || !store.ready then ErrNotInitialized
                        else if mirrorWorks && recordsWork then Ok else ErrPlatform
      ensures store.records == if status == ErrNotInitialized then old(store.records)
                               else AfterWrites(old(store.records), db.View(), mirrorWorks, recordsWork)
    {
      hide MirrorRecord, RecordsRecord;
      if !initialized {
        return ErrNotInitialized;
      }
      if !store.ready {
        return ErrNotInitialized;
      }
      var length := Serialize();
      RecordLength(Pairs(db.View().entries));
      status := store.Write(Nvm.KEY_DTC_MIRROR, buf, length, mirrorWorks);
      if status != Ok {
        return;
      }
      status := RecordsWrite(recordsWork);
    }

    /** dtc_mirror_clear_all: the database has been cleared before; the mirror follows it. */
    method ClearAll(mirrorWorks: bool, recordsWork: bool) returns (status: Status)
      requires Valid() && db.Valid()
      modifies buf, store`records
      ensures status == if !initialized || !store.ready then ErrNotInitialized
                        else if mirrorWorks && recordsWork then Ok else ErrPlatform
      ensures store.records == if status == ErrNotInitialized then old(store.records)
                               else AfterWrites(old(store.records), db.View(), mirrorWorks, recordsWork)
    {
      status := FlushAll(mirrorWorks, recordsWork);
    }

    /** One turn of the loop in records_load. */
    method TakeRecord(data: array<byte>, r: nat)
      requires db.Valid() && r < RECORD_COUNT && data.Length == RECORDS_BYTES + 1 && data != buf
      modifies db.table, db.records
      ensures db.Valid() && db.View() == AfterRestoreRecord(old(db.View()), r, CodeAt(data[..], 3 + 3 * r))
    {
      hide BigEndianValue;
      ghost var s := data[..];
      ThreeBytes(data[3 + 3 * r..6 + 3 * r]);
      assert data[3 + 3 * r..6 + 3 * r] == s[3 + 3 * r..6 + 3 * r];
      var code := BigEndianValue(data[3 + 3 * r..6 + 3 * r]);
      ghost var before := db.View();
      if !db.initialized {
        NoneRegistered(before, r, code);
      }
      var _ := db.RestoreRecord(r, code);
    }

    /** The loop of records_load over a record that passed all checks. */
    method TakeRecords(data: array<byte>, ghost r: recordList)
      requires db.Valid() && data.Length == RECORDS_BYTES + 1
      requires data != buf && data as object != db.table && data as object != db.records
      requires CodeAt(data[..], 3) == r[0] && CodeAt(data[..], 6) == r[1]
      requires CodeAt(data[..], 9) == r[2] && CodeAt(data[..], 12) == r[3]
      modifies db.table, db.records
      ensures db.Valid() && db.View() == ApplyRecords(old(db.View()), r, RECORD_COUNT)
    {
      hide CodeAt, AfterRestoreRecord, ApplyRecords;
      FourRecords(db.View(), r);
      TakeRecord(data, 0);
      TakeRecord(data, 1);
      TakeRecord(data, 2);
      TakeRecord(data, 3);
    }

    /** records_load; works: the platform can read. */
    method RecordsLoad(works: bool) returns (status: Status)
      requires db.Valid()
      modifies db.table, db.records
      ensures db.Valid()
      ensures store.ready && works ==> (db.View(), status) == AfterRecordsLoad(store.records, old(db.View()))
      ensures !(store.ready && works) ==> status == ErrPlatform && db.View() == old(db.View())
    {
      hide Crc32.Crc, LoadBE32, CodeAt, ApplyRecords;
      var rc, data, bytesRead := store.Read(Nvm.KEY_DTC_RECORDS, RECORDS_BYTES + 1, works);
      if rc == ErrDidNotFound {
        return Ok;
      }
      if rc != Ok {
        return ErrPlatform;
      }
      ghost var s := data[..bytesRead];
      if bytesRead != RECORDS_BYTES || data[0] != RECORDS_MAGIC_0 || data[1] != RECORDS_MAGIC_1 ||
         data[2] != RECORDS_FORMAT_VERSION {
        return ErrNvmDataCorrupt;
      }
      var crc := Crc32.Crc32Of(data, 2, 13);
      assert data[2..15] == s[2..15];
      var stored := LoadBE32(data[15..19]);
      assert data[15..19] == s[15..];
      if crc != stored {
        return ErrNvmDataCorrupt;
      }
      ghost var whole := data[..];
      assert s == whole[..19];
      SameCodeAt(whole, s, 3);
      SameCodeAt(whole, s, 6);
      SameCodeAt(whole, s, 9);
      SameCodeAt(whole, s, 12);
      TakeRecords(data, [CodeAt(s, 3), CodeAt(s, 6), CodeAt(s, 9), CodeAt(s, 12)]);
      status := Ok;
    }

    /** The loop of dtc_mirror_load over a record that passed all checks. */
    method TakeEntries(data: array<byte>, count: nat, ghost ps: seq<Pair>)
      requires db.Valid() && count == |ps| && 5 + 4 * count <= data.Length
      requires data as object != db.table && data as object != db.records
      requires forall i :: 0 <= i < count ==>
        CodeAt(data[..], 5 + 4 * i) == ps[i].code && data[8 + 4 * i] == ps[i].status
      modifies db.table, db.records
      ensures db.Valid() && db.View() == ApplyPairs(old(db.View()), ps)
    {
      hide BigEndianValue, CodeAt, AfterStatus;
      var pos := 5;
      assert ps[..0] == [];
      ghost var s := data[..];
      for i := 0 to count
        invariant db.Valid() && pos == 5 + 4 * i && data[..] == s
        invariant db.View() == ApplyPairs(old(db.View()), ps[..i])
      {
        ThreeBytes(data[pos..pos + 3]);
        var code := BigEndianValue(data[pos..pos + 3]);
        var status := data[pos + 3];
        CodeAtValue(s, pos);
        assert data[pos..pos + 3] == s[pos..pos + 3];
        if !db.initialized {
          NoStatus(db.View(), code, status);
        }
        var _ := db.RestoreStatus(code, status);
        assert ps[..i + 1][..i] == ps[..i];
        pos := pos + 4;
      }
      assert ps[..count] == ps;
    }

    /** The checks of dtc_mirror_load, all made before anything is applied. */
    method Check(data: array<byte>, bytesRead: nat) returns (genuine: bool, status: Status, count: nat)
      requires bytesRead <= data.Length && data.Length == MAX_BYTES
      ensures match ParseMirror(data[..bytesRead])
              case Nothing => !genuine && status == Ok
              case Corrupt => !genuine && status == ErrNvmDataCorrupt
              case Entries(ps) => genuine && count == |ps| && bytesRead == 9 + 4 * count
    {
      hide Crc32.Crc, LoadBE32, BigEndianValue, CodeAt;
      ghost var s := data[..bytesRead];
      count := 0;
      if bytesRead < 5 {
        return false, Ok, count;
      }
      if data[0] != MAGIC_0 || data[1] != MAGIC_1 {
        return false, Ok, count;
      }
      if data[2] != FORMAT_VERSION {
        return false, ErrNvmDataCorrupt, count;
      }
      count := BigEndianValue(data[3..5]);
      assert data[3..5] == s[3..5];
      if count > MAX_PERSISTED {
        return false, ErrNvmDataCorrupt, count;
      }
      var total := 5 + 4 * count + 4;
      if bytesRead != total {
        return false, ErrNvmDataCorrupt, count;
      }
      var crc := Crc32.Crc32Of(data, 2, 3 + 4 * count);
      SameSlice(data[..], s, 2, total - 4);
      SameSlice(data[..], s, total - 4, total);
      assert data[2..total - 4] == data[..][2..total - 4];
      var stored := LoadBE32(data[total - 4..total]);
      assert data[total - 4..total] == data[..][total - 4..total];
      if crc != stored {
        return false, ErrNvmDataCorrupt, count;
      }
      return true, Ok, count;
    }

    /** dtc_mirror_load; the two reads can fail independently. */
    method Load(mirrorWorks: bool, recordsWork: bool) returns (status: Status)
      requires Valid() && db.Valid()
      modifies db.table, db.records
      ensures db.Valid()
      ensures !(initialized && store.ready) ==> status == ErrNotInitialized && db.View() == old(db.View())
      ensures initialized && store.ready && !mirrorWorks ==> status == ErrPlatform && db.View() == old(db.View())
      ensures initialized && store.ready && mirrorWorks ==>
        (db.View(), status) == AfterReads(store.records, old(db.View()), recordsWork)
    {
      hide ParseMirror, CodeAt, ApplyPairs, AfterRecordsLoad;
      if !initialized {
        return ErrNotInitialized;
      }
      if !store.ready {
        return ErrNotInitialized;
      }
      var rc, data, bytesRead := store.Read(Nvm.KEY_DTC_MIRROR, MAX_BYTES, mirrorWorks);
      if rc == ErrDidNotFound {
        return Ok;
      }
      if rc != Ok {
        return ErrPlatform;
      }
      var genuine, checked, count := Check(data, bytesRead);
      if !genuine {
        return checked;
      }
      ghost var s := data[..bytesRead];
      assert s == data[..][..bytesRead];
      PairsOfData(data[..], s, count);
      TakeEntries(data, count, ParseMirror(s).pairs);
      status := RecordsLoad(recordsWork);
    }
  }

  lemma RecordLength(ps: seq<Pair>)
    ensures |MirrorRecord(ps)| == 9 + 4 * |ps|
  {}

  lemma NoneRegistered(s: State, r: nat, code: u32)
    requires s == State([], NO_RECORDS) && r < RECORD_COUNT
    ensures AfterRestoreRecord(s, r, code) == s
  {}

  lemma NoStatus(s: State, code: u32, status: byte)
    requires s.entries == []
    ensures AfterStatus(s, code, status, false, false) == s
  {}

  lemma SameCodeAt(s: seq<byte>, t: seq<byte>, i: nat)
    requires i + 3 <= |t| && t <= s
    ensures CodeAt(s, i) == CodeAt(t, i)
  {
    hide BigEndianValue;
    assert s[i..i + 3] == t[i..i + 3];
  }

  lemma SameSlice(s: seq<byte>, t: seq<byte>, i: nat, j: nat)
    requires t <= s && i <= j <= |t|
    ensures s[i..j] == t[i..j]
  {}

  lemma CodeAtValue(s: seq<byte>, i: nat)
    requires i + 3 <= |s|
    ensures CodeAt(s, i) == BigEndianValue(s[i..i + 3])
  {}

  lemma FourRecords(db: State, r: recordList)
    ensures ApplyRecords(db, r, 4) ==
      var two := AfterRestoreRecord(AfterRestoreRecord(db, 0, r[0]), 1, r[1]);
      AfterRestoreRecord(AfterRestoreRecord(two, 2, r[2]), 3, r[3])
  {
    hide AfterRestoreRecord;
    assert ApplyRecords(db, r, 1) == AfterRestoreRecord(db, 0, r[0]);
    assert ApplyRecords(db, r, 2) == AfterRestoreRecord(ApplyRecords(db, r, 1), 1, r[1]);
    assert ApplyRecords(db, r, 3) == AfterRestoreRecord(ApplyRecords(db, r, 2), 2, r[2]);
  }

  lemma PairsOfData(data: seq<byte>, s: seq<byte>, count: nat)
    requires s <= data && ParseMirror(s).Entries? && |s| == 9 + 4 * count
    ensures |ParseMirror(s).pairs| == count
    ensures forall i :: 0 <= i < count ==>
      CodeAt(data, 5 + 4 * i) == ParseMirror(s).pairs[i].code && data[8 + 4 * i] == ParseMirror(s).pairs[i].status
  {
    hide BigEndianValue, CodeAt, Crc32.Sealed;
    forall i | 0 <= i < count ensures CodeAt(data, 5 + 4 * i) == CodeAt(s, 5 + 4 * i) {
      SameCodeAt(data, s, 5 + 4 * i);
    }
  }

  lemma EmptyBody()
    ensures Body([]) == []
  {}

  lemma BodyExtends(ps: seq<Pair>, k: nat)
    requires k < |ps|
    ensures Body(ps[..k + 1]) == Body(ps[..k]) + BigEndian(3, ps[k].code) + [ps[k].status]
  {
    hide BigEndian;
    assert ps[..k + 1][..k] == ps[..k];
  }
}
