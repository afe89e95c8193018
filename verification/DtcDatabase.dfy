/** The table of trouble codes and its first and most recent records (config/dtc_database.c). */
module DtcDatabase {
  import opened Bytes
  import opened Types
  import CommControl

  const MAX_DTC_COUNT: nat := 128
  const INIT_AND_CLEARED: byte := 0x50
  const TEST_FAILED: byte := 0x01
  const CONFIRMED_DTC: byte := 0x08

  const RECORD_COUNT: nat := 4
  const FIRST_TEST_FAILED: nat := 0
  const FIRST_CONFIRMED: nat := 1
  const MOST_RECENT_TEST_FAILED: nat := 2
  const MOST_RECENT_CONFIRMED: nat := 3

  datatype Entry = Entry(code: u32, status: byte, severity: u8, counter: u8, permanent: bool)

  type recordList = r: seq<u32> | |r| == 4 witness [0, 0, 0, 0]

  const NO_RECORDS: recordList := [0, 0, 0, 0]

  /** The registered codes in order, and the code each record names, 0 if none. */
  datatype State = State(entries: seq<Entry>, records: recordList)

  /** The position of a code, or the number of entries if it is not registered. */
  function IndexOf(es: seq<Entry>, code: u32): (i: nat)
    ensures i <= |es| && (i < |es| ==> es[i].code == code)
    ensures forall k :: 0 <= k < i ==> es[k].code != code
  {
    if es == [] || es[0].code == code then 0 else 1 + IndexOf(es[1..], code)
  }

  predicate Registered(s: State, code: u32) {
    IndexOf(s.entries, code) < |s.entries|
  }

  /** Distinct codes, none of them 0, and every record empty or naming a registered code. */
  ghost predicate Inv(s: State) {
    && |s.entries| <= MAX_DTC_COUNT
    && (forall i :: 0 <= i < |s.entries| ==> s.entries[i].code != 0)
    && (forall i, j :: 0 <= i < j < |s.entries| ==> s.entries[i].code != s.entries[j].code)
    && (forall r :: 0 <= r < RECORD_COUNT && s.records[r] != 0 ==> Registered(s, s.records[r]))
  }

  /** Whether a status bit goes from 0 to 1. */
  predicate Rises(before: byte, after: byte, bit: byte) {
    (after & !before) & bit != 0
  }

  function Forget(r: recordList, code: u32): recordList {
    [if r[0] == code then 0 else r[0], if r[1] == code then 0 else r[1],
     if r[2] == code then 0 else r[2], if r[3] == code then 0 else r[3]]
  }

  /** The two records of a kind after a rising edge of that kind. */
  function NoteEdge(r: recordList, first: nat, recent: nat, code: u32): recordList
    requires first < 4 && recent < 4
  {
    (if r[first] == 0 then r[first := code] else r)[recent := code]
  }

  function NoteTransition(r: recordList, code: u32, before: byte, after: byte): recordList {
    var t := if Rises(before, after, TEST_FAILED) then NoteEdge(r, FIRST_TEST_FAILED, MOST_RECENT_TEST_FAILED, code)
             else r;
    if Rises(before, after, CONFIRMED_DTC) then NoteEdge(t, FIRST_CONFIRMED, MOST_RECENT_CONFIRMED, code) else t
  }

  // ---- The operations as functions ----

  function AfterRegister(s: State, code: u32, severity: u8): (State, Status) {
    if code == 0 then (s, ErrInvalidParam)
    else if |s.entries| >= MAX_DTC_COUNT then (s, ErrBufferOverflow)
    else if Registered(s, code) then (s, ErrInvalidParam)
    else (s.(entries := s.entries + [Entry(code, INIT_AND_CLEARED, severity, 0, false)]), Ok)
  }

  function AfterStatus(s: State, code: u32, status: byte, clearing: bool, noting: bool): State {
    var i := IndexOf(s.entries, code);
    if i == |s.entries| then s
    else
      var e := s.entries[i];
      var r := if noting then NoteTransition(s.records, code, e.status, status) else s.records;
      State(s.entries[i := e.(status := status, counter := if clearing then 0 else e.counter)],
            if clearing then Forget(r, code) else r)
  }

  function Cleared(e: Entry): Entry {
    e.(status := INIT_AND_CLEARED, counter := 0)
  }

  function ClearUnless(es: seq<Entry>, keepPermanent: bool): seq<Entry> {
    seq(|es|, i requires 0 <= i < |es| => if keepPermanent && es[i].permanent then es[i] else Cleared(es[i]))
  }

  function AfterClear(s: State, keepPermanent: bool): State {
    State(ClearUnless(s.entries, keepPermanent), NO_RECORDS)
  }

  function AfterRestoreRecord(s: State, which: nat, code: u32): State
    requires which < RECORD_COUNT
  {
    s.(records := s.records[which := if code != 0 && Registered(s, code) then code else 0])
  }

  /** Whether a status has any of the bits of the mask. */
  predicate Shares(status: byte, mask: byte) {
    status & mask != 0
  }

  function CountMatches(es: seq<Entry>, mask: byte): nat {
    if es == [] then 0
    else CountMatches(es[..|es| - 1], mask) + if Shares(es[|es| - 1].status, mask) then 1 else 0
  }

  function LookupStatus(s: State, code: u32): Status {
    if Registered(s, code) then Ok else ErrDidNotFound
  }

  // ---- The C code ----

  class Database {
    var initialized: bool
    const table: array<Entry>
    const records: array<u32>
    var count: nat

    constructor ()
      ensures !initialized && Valid() && fresh(table) && fresh(records)
    {
      initialized := false;
      table := new Entry[MAX_DTC_COUNT](_ => Entry(0, 0, 0, 0, false));
      records := new u32[RECORD_COUNT](_ => 0);
      count := 0;
    }

    ghost predicate Valid()
      reads this, records
    {
      table.Length == MAX_DTC_COUNT && records.Length == RECORD_COUNT && count <= MAX_DTC_COUNT &&
      (!initialized ==> count == 0 && records[..] == NO_RECORDS)
    }

    ghost function View(): State
      requires Valid()
      reads this, table, records
    {
      State(table[..count], records[..])
    }

    /** dtc_database_init */
    method Init() returns (status: Status)
      requires Valid()
      modifies this, table, records
      ensures Valid() && initialized
      ensures status == if old(initialized) then ErrAlreadyInitialized else Ok
      ensures View() == if old(initialized) then old(View()) else State([], NO_RECORDS)
    {
      if initialized {
        return ErrAlreadyInitialized;
      }
      for i := 0 to table.Length
        invariant Valid()
      {
        table[i] := Entry(0, 0, 0, 0, false);
      }
      EmptyRecords();
      count := 0;
      initialized := true;
      status := Ok;
    }

    /** memset of the records */
    method EmptyRecords()
      requires records.Length == RECORD_COUNT
      modifies records
      ensures records[..] == NO_RECORDS
    {
      for r := 0 to RECORD_COUNT
        invariant forall k :: 0 <= k < r ==> records[k] == 0
      {
        records[r] := 0;
      }
    }

    /** dtc_find_internal: the index of the code, or count */
    method Find(code: u32) returns (i: nat)
      requires Valid()
      ensures i == IndexOf(View().entries, code) <= count
    {
      i := 0;
      while i < count
        invariant i <= count && forall k :: 0 <= k < i ==> table[k].code != code
      {
        if table[i].code == code {
          break;
        }
        i := i + 1;
      }
      ghost var es := View().entries;
      IndexOfUnique(es, code, i);
    }

    /** dtc_database_register */
    method Register(code: u32, severity: u8) returns (status: Status)
      requires Valid()
      modifies this`count, table
      ensures Valid()
      ensures !initialized ==> status == ErrNotInitialized && View() == old(View())
      ensures initialized ==> (View(), status) == AfterRegister(old(View()), code, severity)
    {
      if !initialized {
        return ErrNotInitialized;
      }
      if code == 0 {
        return ErrInvalidParam;
      }
      if count >= MAX_DTC_COUNT {
        return ErrBufferOverflow;
      }
      var i := Find(code);
      if i < count {
        return ErrInvalidParam;
      }
      table[count] := Entry(code, INIT_AND_CLEARED, severity, 0, false);
      count := count + 1;
      assert table[..count] == old(table[..count]) + [table[count - 1]];
      status := Ok;
    }

    /** records_forget */
    method RecordsForget(code: u32)
      requires Valid()
      modifies records
      ensures records[..] == Forget(old(records[..]), code)
    {
      for r := 0 to RECORD_COUNT
        invariant forall k :: 0 <= k < r ==> records[k] == if old(records[k]) == code then 0 else old(records[k])
        invariant forall k :: r <= k < RECORD_COUNT ==> records[k] == old(records[k])
      {
        if records[r] == code {
          records[r] := 0;
        }
      }
    }

    /** records_note_transition */
    method RecordsNoteTransition(code: u32, before: byte, after: byte)
      requires Valid()
      modifies records
      ensures records[..] == NoteTransition(old(records[..]), code, before, after)
    {
      hide Rises;
      if Rises(before, after, TEST_FAILED) {
        if records[FIRST_TEST_FAILED] == 0 {
          records[FIRST_TEST_FAILED] := code;
        }
        records[MOST_RECENT_TEST_FAILED] := code;
      }
      if Rises(before, after, CONFIRMED_DTC) {
        if records[FIRST_CONFIRMED] == 0 {
          records[FIRST_CONFIRMED] := code;
        }
        records[MOST_RECENT_CONFIRMED] := code;
      }
    }

    /** dtc_set_status_internal */
    method SetStatusInternal(code: u32, status: byte, clearing: bool, noting: bool) returns (rc: Status)
      requires Valid()
      modifies table, records
      ensures Valid()
      ensures rc == if initialized then LookupStatus(old(View()), code) else ErrNotInitialized
      ensures View() == if initialized then AfterStatus(old(View()), code, status, clearing, noting) else old(View())
    {
      hide NoteTransition, Forget;
      if !initialized {
        return ErrNotInitialized;
      }
      var i := Find(code);
      if i == count {
        return ErrDidNotFound;
      }
      if noting {
        RecordsNoteTransition(code, table[i].status, status);
      }
      table[i] := table[i].(status := status);
      if clearing {
        table[i] := table[i].(counter := 0);
        RecordsForget(code);
      }
      rc := Ok;
    }

    /** dtc_database_set_status: refused while ControlDTCSetting is off. */
    method SetStatus(code: u32, status: byte, comm: CommControl.Control) returns (rc: Status)
      requires Valid()
      modifies table, records
      ensures Valid()
      ensures comm.initialized && comm.setting == CommControl.Off ==> rc == ErrConditionsNotMet && View() == old(View())
      ensures !(comm.initialized && comm.setting == CommControl.Off) && initialized ==>
        rc == LookupStatus(old(View()), code) && View() == AfterStatus(old(View()), code, status, false, true)
      ensures !initialized ==> View() == old(View()) && rc != Ok
    {
      var on := comm.DtcSettingIsOn();
      if !on {
        return ErrConditionsNotMet;
      }
      rc := SetStatusInternal(code, status, false, true);
    }

    /** dtc_database_restore_status */
    method RestoreStatus(code: u32, status: byte) returns (rc: Status)
      requires Valid()
      modifies table, records
      ensures Valid()
      ensures rc == if initialized then LookupStatus(old(View()), code) else ErrNotInitialized
      ensures View() == if initialized then AfterStatus(old(View()), code, status, false, false) else old(View())
    {
      rc := SetStatusInternal(code, status, false, false);
    }

    /** dtc_database_clear_one */
    method ClearOne(code: u32) returns (rc: Status)
      requires Valid()
      modifies table, records
      ensures Valid()
      ensures rc == if initialized then LookupStatus(old(View()), code) else ErrNotInitialized
      ensures View() ==
        if initialized then AfterStatus(old(View()), code, INIT_AND_CLEARED, true, false) else old(View())
    {
      rc := SetStatusInternal(code, INIT_AND_CLEARED, true, false);
    }

    /** The loop of the two full clears. */
    method ClearEntries(keepPermanent: bool)
      requires Valid()
      modifies table
      ensures table[..count] == ClearUnless(old(table[..count]), keepPermanent)
    {
      for i := 0 to count
        invariant forall k :: 0 <= k < i ==>
          table[k] == if keepPermanent && old(table[k]).permanent then old(table[k]) else Cleared(old(table[k]))
        invariant forall k :: i <= k < count ==> table[k] == old(table[k])
      {
        if !(keepPermanent && table[i].permanent) {
          table[i] := table[i].(status := INIT_AND_CLEARED, counter := 0);
        }
      }
    }

    /** dtc_database_clear_all */
    method ClearAll() returns (rc: Status)
      requires Valid()
      modifies table, records
      ensures Valid() && rc == if initialized then Ok else ErrNotInitialized
      ensures View() == if initialized then AfterClear(old(View()), false) else old(View())
    {
      if !initialized {
        return ErrNotInitialized;
      }
      ClearEntries(false);
      EmptyRecords();
      rc := Ok;
    }

    /** dtc_database_clear_non_permanent */
    method ClearNonPermanent() returns (rc: Status)
      requires Valid()
      modifies table, records
      ensures Valid() && rc == if initialized then Ok else ErrNotInitialized
      ensures View() == if initialized then AfterClear(old(View()), true) else old(View())
    {
      if !initialized {
        return ErrNotInitialized;
      }
      ClearEntries(true);
      EmptyRecords();
      rc := Ok;
    }

    /** dtc_database_set_permanent */
    method SetPermanent(code: u32, permanent: bool) returns (rc: Status)
      requires Valid()
      modifies table
      ensures Valid()
      ensures rc == if initialized then LookupStatus(old(View()), code) else ErrNotInitialized
      ensures rc != Ok ==> View() == old(View())
      ensures rc == Ok ==> var i := IndexOf(old(View()).entries, code);
        View() == old(View()).(entries := old(View()).entries[i := old(View()).entries[i].(permanent := permanent)])
    {
      if !initialized {
        return ErrNotInitialized;
      }
      var i := Find(code);
      if i == count {
        return ErrDidNotFound;
      }
      table[i] := table[i].(permanent := permanent);
      rc := Ok;
    }

    /** dtc_database_set_fault_counter */
    method SetFaultCounter(code: u32, counter: u8) returns (rc: Status)
      requires Valid()
      modifies table
      ensures Valid()
      ensures rc == if initialized then LookupStatus(old(View()), code) else ErrNotInitialized
      ensures rc != Ok ==> View() == old(View())
      ensures rc == Ok ==> var i := IndexOf(old(View()).entries, code);
        View() == old(View()).(entries := old(View()).entries[i := old(View()).entries[i].(counter := counter)])
    {
      if !initialized {
        return ErrNotInitialized;
      }
      var i := Find(code);
      if i == count {
        return ErrDidNotFound;
      }
      table[i] := table[i].(counter := counter);
      rc := Ok;
    }

    /** dtc_database_count_by_status: the entries that share a bit with the mask. */
    method CountByStatus(mask: byte) returns (rc: Status, matches: nat)
      requires Valid()
      ensures rc == if initialized then Ok else ErrNotInitialized
      ensures matches == if initialized then CountMatches(View().entries, mask) else 0
    {
      matches := 0;
      if !initialized {
        return ErrNotInitialized, matches;
      }
      ghost var es := View().entries;
      for i := 0 to count
        invariant es == View().entries && matches == CountMatches(es[..i], mask)
      {
        if table[i].status & mask != 0 {
          matches := matches + 1;
        }
        assert es[..i + 1][..i] == es[..i];
      }
      assert es[..count] == es;
      rc := Ok;
    }

    /** dtc_database_get_by_index */
    method GetByIndex(index: nat) returns (rc: Status, code: u32, status: byte)
      requires Valid()
      ensures rc == if !initialized then ErrNotInitialized else if index < count then Ok else ErrDidNotFound
      ensures rc == Ok ==> code == View().entries[index].code && status == View().entries[index].status
    {
      code, status := 0, 0;
      if !initialized {
        return ErrNotInitialized, code, status;
      }
      if index >= count {
        return ErrDidNotFound, code, status;
      }
      return Ok, table[index].code, table[index].status;
    }

    /** dtc_database_get_record */
    method GetRecord(which: nat) returns (rc: Status, code: u32)
      requires Valid()
      ensures rc == if which >= RECORD_COUNT then ErrInvalidParam else if initialized then Ok else ErrNotInitialized
      ensures code == if rc == Ok then View().records[which] else 0
    {
      if which >= RECORD_COUNT {
        return ErrInvalidParam, 0;
      }
      if !initialized {
        return ErrNotInitialized, 0;
      }
      return Ok, records[which];
    }

    /** dtc_database_restore_record */
    method RestoreRecord(which: nat, code: u32) returns (rc: Status)
      requires Valid()
      modifies records
      ensures Valid()
      ensures which >= RECORD_COUNT ==> rc == ErrInvalidParam && View() == old(View())
      ensures which < RECORD_COUNT && !initialized ==> rc == ErrNotInitialized && View() == old(View())
      ensures which < RECORD_COUNT && initialized ==>
        View() == AfterRestoreRecord(old(View()), which, code) &&
        rc == if code == 0 then Ok else LookupStatus(old(View()), code)
    {
      if which >= RECORD_COUNT {
        return ErrInvalidParam;
      }
      if !initialized {
        return ErrNotInitialized;
      }
      rc := Ok;
      records[which] := 0;
      if code != 0 {
        var i := Find(code);
        if i < count {
          records[which] := code;
        } else {
          rc := ErrDidNotFound;
        }
      }
    }
  }

  // ---- The table ----

  lemma IndexOfUnique(es: seq<Entry>, code: u32, i: nat)
    requires i <= |es| && (forall k :: 0 <= k < i ==> es[k].code != code) && (i < |es| ==> es[i].code == code)
    ensures IndexOf(es, code) == i
  {
    hide IndexOf;
  }

  /** An edge of a bit is a 0 before and a 1 after. */
  lemma RisesMeaning(before: byte, after: byte, bit: byte)
    requires bit == TEST_FAILED || bit == CONFIRMED_DTC
    ensures Rises(before, after, bit) <==> before & bit == 0 && after & bit != 0
  {}

  /** Codes stay where they are whatever happens to their entries. */
  predicate SameCodes(es: seq<Entry>, fs: seq<Entry>) {
    |es| == |fs| && forall i :: 0 <= i < |es| ==> es[i].code == fs[i].code
  }

  lemma SameCodesSameIndex(es: seq<Entry>, fs: seq<Entry>, code: u32)
    requires SameCodes(es, fs)
    ensures IndexOf(es, code) == IndexOf(fs, code)
  {
    hide IndexOf;
    IndexOfUnique(es, code, IndexOf(fs, code));
  }

  // ---- Runs ----

  datatype Call =
    | Register(code: u32, severity: u8)
    | SetStatus(code: u32, status: byte, settingOn: bool)
    | RestoreStatus(code: u32, status: byte)
    | ClearOne(code: u32)
    | ClearAll
    | ClearNonPermanent
    | SetPermanent(code: u32, permanent: bool)
    | SetFaultCounter(code: u32, counter: u8)
    | RestoreRecord(which: nat, code: u32)

  function Step(s: State, c: Call): State {
    match c
    case Register(code, severity) => AfterRegister(s, code, severity).0
    case SetStatus(code, status, on) => if on then AfterStatus(s, code, status, false, true) else s
    case RestoreStatus(code, status) => AfterStatus(s, code, status, false, false)
    case ClearOne(code) => AfterStatus(s, code, INIT_AND_CLEARED, true, false)
    case ClearAll => AfterClear(s, false)
    case ClearNonPermanent => AfterClear(s, true)
    case SetPermanent(code, permanent) =>
      var i := IndexOf(s.entries, code);
      if i == |s.entries| then s else s.(entries := s.entries[i := s.entries[i].(permanent := permanent)])
    case SetFaultCounter(code, counter) =>
      var i := IndexOf(s.entries, code);
      if i == |s.entries| then s else s.(entries := s.entries[i := s.entries[i].(counter := counter)])
    case RestoreRecord(which, code) => if which < RECORD_COUNT then AfterRestoreRecord(s, which, code) else s
  }

  function After(s: State, cs: seq<Call>): State
    decreases |cs|
  {
    if cs == [] then s else Step(After(s, cs[..|cs| - 1]), cs[|cs| - 1])
  }

  lemma RegisterKeepsInv(s: State, code: u32, severity: u8)
    requires Inv(s)
    ensures Inv(AfterRegister(s, code, severity).0)
  {
    var t := AfterRegister(s, code, severity).0;
    if t != s {
      forall r | 0 <= r < RECORD_COUNT && t.records[r] != 0 ensures Registered(t, t.records[r]) {
        IndexOfUnique(t.entries, s.records[r], IndexOf(s.entries, s.records[r]));
      }
    }
  }

  lemma RegisteredStays(s: State, t: State, records: recordList)
    requires Inv(s) && SameCodes(s.entries, t.entries) && t.records == records
    requires AllRegistered(s, records)
    ensures Inv(t)
  {
    forall r | 0 <= r < RECORD_COUNT && records[r] != 0 ensures Registered(t, records[r]) {
      SameCodesSameIndex(s.entries, t.entries, records[r]);
    }
  }

  lemma StepKeepsInv(s: State, c: Call)
    requires Inv(s)
    ensures Inv(Step(s, c))
  {
    hide IndexOf, Inv;
    if c.Register? {
      RegisterKeepsInv(s, c.code, c.severity);
    } else {
      OtherStep(s, c);
      RegisteredStays(s, Step(s, c), Step(s, c).records);
    }
  }

  /** Nothing but a registration changes the codes, and a record only comes to name a registered one. */
  lemma OtherStep(s: State, c: Call)
    requires Inv(s) && !c.Register?
    ensures SameCodes(s.entries, Step(s, c).entries) && AllRegistered(s, Step(s, c).records)
  {
    hide IndexOf, AfterStatus, AfterClear, AfterRestoreRecord;
    match c
    case SetStatus(code, status, _) => StatusStep(s, code, status, false, true);
    case RestoreStatus(code, status) => StatusStep(s, code, status, false, false);
    case ClearOne(code) => StatusStep(s, code, INIT_AND_CLEARED, true, false);
    case ClearAll => ClearStep(s, false);
    case ClearNonPermanent => ClearStep(s, true);
    case RestoreRecord(which, code) =>
      if which < RECORD_COUNT {
        RestoreStep(s, which, code);
      }
    case _ =>
  }

  predicate AllRegistered(s: State, records: recordList) {
    forall r :: 0 <= r < RECORD_COUNT && records[r] != 0 ==> Registered(s, records[r])
  }

  lemma StatusStep(s: State, code: u32, status: byte, clearing: bool, noting: bool)
    requires Inv(s)
    ensures var t := AfterStatus(s, code, status, clearing, noting);
      SameCodes(s.entries, t.entries) && AllRegistered(s, t.records)
  {
    hide IndexOf, NoteTransition, Forget, AllRegistered;
    var i := IndexOf(s.entries, code);
    InvRegistered(s);
    if i < |s.entries| {
      NotedRegistered(s, code, s.entries[i].status, status);
      var r := if noting then NoteTransition(s.records, code, s.entries[i].status, status) else s.records;
      ForgetRegistered(s, r, code);
    }
  }

  lemma InvRegistered(s: State)
    requires Inv(s)
    ensures AllRegistered(s, s.records)
  {}

  lemma NotedRegistered(s: State, code: u32, before: byte, after: byte)
    requires AllRegistered(s, s.records) && Registered(s, code)
    ensures AllRegistered(s, NoteTransition(s.records, code, before, after))
  {
    hide Registered, Rises;
  }

  lemma ForgetRegistered(s: State, r: recordList, code: u32)
    requires AllRegistered(s, r)
    ensures AllRegistered(s, Forget(r, code))
  {
    hide Registered;
  }

  lemma ClearStep(s: State, keepPermanent: bool)
    ensures var t := AfterClear(s, keepPermanent); SameCodes(s.entries, t.entries) && AllRegistered(s, t.records)
  {}

  lemma RestoreStep(s: State, which: nat, code: u32)
    requires Inv(s) && which < RECORD_COUNT
    ensures var t := AfterRestoreRecord(s, which, code); t.entries == s.entries && AllRegistered(s, t.records)
  {
    hide Registered;
  }

  /** Every non-empty record names a registered code, in every run. */
  lemma {:induction false} RunKeepsInv(s: State, cs: seq<Call>)
    requires Inv(s)
    ensures Inv(After(s, cs))
    decreases |cs|
  {
    hide Inv, Step;
    if cs != [] {
      RunKeepsInv(s, cs[..|cs| - 1]);
      StepKeepsInv(After(s, cs[..|cs| - 1]), cs[|cs| - 1]);
    }
  }

  // ---- The records as history ----

  datatype Kind = TestFailed | Confirmed

  function KindOf(which: nat): Kind {
    if which % 2 == 0 then TestFailed else Confirmed
  }

  predicate IsFirst(which: nat) {
    which == FIRST_TEST_FAILED || which == FIRST_CONFIRMED
  }

  function Bit(kind: Kind): byte {
    if kind == TestFailed then TEST_FAILED else CONFIRMED_DTC
  }

  /** What the records have to do with: an accepted rising edge, a clear, a restore. */
  datatype Note =
    | Rose(kind: Kind, code: u32)
    | Forgot(code: u32)
    | ForgotAll
    | Put(which: nat, code: u32)

  function Edges(code: u32, before: byte, after: byte): seq<Note> {
    (if Rises(before, after, TEST_FAILED) then [Rose(TestFailed, code)] else []) +
    (if Rises(before, after, CONFIRMED_DTC) then [Rose(Confirmed, code)] else [])
  }

  function Notes(s: State, c: Call): seq<Note> {
    match c
    case SetStatus(code, status, on) =>
      if on && Registered(s, code) then Edges(code, s.entries[IndexOf(s.entries, code)].status, status) else []
    case ClearOne(code) => if Registered(s, code) then [Forgot(code)] else []
    case ClearAll => [ForgotAll]
    case ClearNonPermanent => [ForgotAll]
    case RestoreRecord(which, code) => [Put(which, if code != 0 && Registered(s, code) then code else 0)]
    case _ => []
  }

  function History(s: State, cs: seq<Call>): seq<Note>
    decreases |cs|
  {
    if cs == [] then []
    else History(s, cs[..|cs| - 1]) + Notes(After(s, cs[..|cs| - 1]), cs[|cs| - 1])
  }

  /** One record, replayed from the history alone. */
  function Replay(which: nat, ns: seq<Note>): u32
    decreases |ns|
  {
    if ns == [] then 0 else NextRecord(which, Replay(which, ns[..|ns| - 1]), ns[|ns| - 1])
  }

  function NextRecord(which: nat, r: u32, n: Note): u32 {
    match n
    case Rose(kind, code) => if kind == KindOf(which) && !(IsFirst(which) && r != 0) then code else r
    case Forgot(code) => if r == code then 0 else r
    case ForgotAll => 0
    case Put(w, code) => if w == which then code else r
  }

  lemma ReplayOne(which: nat, ns: seq<Note>, n: Note)
    ensures Replay(which, ns + [n]) == NextRecord(which, Replay(which, ns), n)
  {
    assert (ns + [n])[..|ns|] == ns;
  }

  lemma ReplayEdges(which: nat, ns: seq<Note>, code: u32, before: byte, after: byte)
    requires which < RECORD_COUNT
    ensures var r := Replay(which, ns);
      Replay(which, ns + Edges(code, before, after)) ==
      if Rises(before, after, Bit(KindOf(which))) && !(IsFirst(which) && r != 0) then code else r
  {
    hide Rises, Replay;
    var f, c := Rose(TestFailed, code), Rose(Confirmed, code);
    ReplayOne(which, ns, f);
    ReplayOne(which, ns, c);
    ReplayOne(which, ns + [f], c);
    if Rises(before, after, TEST_FAILED) && Rises(before, after, CONFIRMED_DTC) {
      assert ns + Edges(code, before, after) == ns + [f] + [c];
    } else {
      assert ns + Edges(code, before, after) ==
        if Rises(before, after, TEST_FAILED) then ns + [f]
        else if Rises(before, after, CONFIRMED_DTC) then ns + [c]
        else ns;
    }
  }

  lemma NoteTransitionAt(r: recordList, code: u32, before: byte, after: byte, which: nat)
    requires which < RECORD_COUNT
    ensures NoteTransition(r, code, before, after)[which] ==
      if Rises(before, after, Bit(KindOf(which))) && !(IsFirst(which) && r[which] != 0) then code else r[which]
  {
    hide Rises;
  }

  lemma StepReplays(s: State, c: Call, ns: seq<Note>, which: nat)
    requires which < RECORD_COUNT && s.records[which] == Replay(which, ns)
    ensures Step(s, c).records[which] == Replay(which, ns + Notes(s, c))
  {
    hide Rises, IndexOf, Replay, NoteTransition, Edges;
    assert ns + [] == ns;
    match c
    case SetStatus(code, status, on) =>
      if on && Registered(s, code) {
        var before := s.entries[IndexOf(s.entries, code)].status;
        ReplayEdges(which, ns, code, before, status);
        NoteTransitionAt(s.records, code, before, status, which);
      }
    case ClearOne(code) => ReplayOne(which, ns, Forgot(code));
    case ClearAll => ReplayOne(which, ns, ForgotAll);
    case ClearNonPermanent => ReplayOne(which, ns, ForgotAll);
    case RestoreRecord(w, code) => ReplayOne(which, ns, Notes(s, c)[0]);
    case _ =>
  }

  /** In every run each record is the replay of the history. */
  lemma {:induction false} RecordsReplayHistory(cs: seq<Call>, which: nat)
    requires which < RECORD_COUNT
    ensures var s := State([], NO_RECORDS); After(s, cs).records[which] == Replay(which, History(s, cs))
    decreases |cs|
  {
    hide Replay, Notes, Step;
    var s := State([], NO_RECORDS);
    if cs == [] {
      ReplayNothing(which);
    } else {
      var before := cs[..|cs| - 1];
      RecordsReplayHistory(before, which);
      StepReplays(After(s, before), cs[|cs| - 1], History(s, before), which);
    }
  }

  lemma ReplayNothing(which: nat)
    ensures Replay(which, []) == 0
  {}

  // ---- What the replay means ----

  /** The note at i puts the code in the record. */
  predicate Enters(which: nat, ns: seq<Note>, i: nat, code: u32)
    requires i < |ns|
  {
    || ns[i] == Put(which, code)
    || (ns[i] == Rose(KindOf(which), code) && (IsFirst(which) ==> Replay(which, ns[..i]) == 0))
  }

  /** The note takes the code out of the record, or puts another there. */
  predicate Ousts(which: nat, n: Note, code: u32) {
    match n
    case Rose(kind, c) => kind == KindOf(which) && !IsFirst(which) && c != code
    case Forgot(c) => c == code
    case ForgotAll => true
    case Put(w, c) => w == which && c != code
  }

  /**
   * A record names a code exactly when some edge of its kind (for "first": one that found
   * the record empty) or a restore entered it, and nothing since has ousted it.
   */
  lemma {:induction false} RecordMeaning(which: nat, ns: seq<Note>, code: u32)
    requires code != 0
    ensures Replay(which, ns) == code <==>
      exists i :: 0 <= i < |ns| && Enters(which, ns, i, code) && forall j :: i < j < |ns| ==> !Ousts(which, ns[j], code)
    decreases |ns|
  {
    if ns != [] {
      var before, last := ns[..|ns| - 1], |ns| - 1;
      RecordMeaning(which, before, code);
      assert forall i :: 0 <= i < last ==> ns[..i] == before[..i];
      assert forall i :: 0 <= i < last ==> (Enters(which, ns, i, code) <==> Enters(which, before, i, code));
      if Replay(which, ns) == code {
        if Enters(which, ns, last, code) {
        } else {
          var i :| 0 <= i < |before| && Enters(which, before, i, code) &&
                   forall j :: i < j < |before| ==> !Ousts(which, before[j], code);
          assert Enters(which, ns, i, code);
        }
      }
    }
  }
}
