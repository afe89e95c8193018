/**
 * The table of trouble codes as a function of the calls made (config/dtc_database.c): which
 * codes are registered, and for each of them the values that were written last.
 */
module DtcHistory {
  import opened Bytes
  import opened Types
  import opened DtcDatabase

  const EMPTY: State := State([], NO_RECORDS)

  // ---- The calls alone: what was registered, and what was written ----

  /** The accepted codes in order: not 0, not known yet, and no more than 128. */
  function Codes(cs: seq<Call>): seq<u32>
    decreases |cs|
  {
    if cs == [] then []
    else
      var known, c := Codes(cs[..|cs| - 1]), cs[|cs| - 1];
      if c.Register? && c.code != 0 && c.code !in known && |known| < 128 then known + [c.code] else known
  }

  /** The status that a call gives to a known code, if it gives it one. */
  function StatusWritten(c: Call, code: u32, permanent: bool): Option<byte> {
    match c
    case SetStatus(x, status, on) => if x == code && on then Some(status) else None
    case RestoreStatus(x, status) => if x == code then Some(status) else None
    case ClearOne(x) => if x == code then Some(0x50) else None
    case ClearAll => Some(0x50)
    case ClearNonPermanent => if permanent then None else Some(0x50)
    case _ => None
  }

  /** And the fault counter: clears reset it, the statuses leave it alone. */
  function CounterWritten(c: Call, code: u32, permanent: bool): Option<u8> {
    match c
    case SetFaultCounter(x, counter) => if x == code then Some(counter) else None
    case ClearOne(x) => if x == code then Some(0) else None
    case ClearAll => Some(0)
    case ClearNonPermanent => if permanent then None else Some(0)
    case _ => None
  }

  function PermanenceWritten(c: Call, code: u32): Option<bool> {
    if c.SetPermanent? && c.code == code then Some(c.permanent) else None
  }

  function Latest<T>(before: T, written: Option<T>): T {
    match written
    case None => before
    case Some(v) => v
  }

  /** What registration gave the code and later calls wrote over it. */
  function Written(cs: seq<Call>, code: u32): Entry
    requires code in Codes(cs)
    decreases |cs|
  {
    var before, c := cs[..|cs| - 1], cs[|cs| - 1];
    if code !in Codes(before) then Entry(code, 0x50, c.severity, 0, false)
    else
      var e := Written(before, code);
      Entry(code,
            Latest(e.status, StatusWritten(c, code, e.permanent)),
            e.severity,
            Latest(e.counter, CounterWritten(c, code, e.permanent)),
            Latest(e.permanent, PermanenceWritten(c, code)))
  }

  // ---- The table is what the calls say ----

  /** Position by position, the table holds the registered codes with what was written last. */
  predicate Tells(es: seq<Entry>, cs: seq<Call>) {
    |es| == |Codes(cs)| && forall i :: 0 <= i < |es| ==> es[i] == Written(cs, Codes(cs)[i])
  }

  lemma {:induction false} WrittenCode(cs: seq<Call>, code: u32)
    requires code in Codes(cs)
    ensures Written(cs, code).code == code
    decreases |cs|
  {}

  /** What a call does to the entry of one known code. */
  function Touched(e: Entry, c: Call): Entry {
    e.(status := Latest(e.status, StatusWritten(c, e.code, e.permanent)),
       counter := Latest(e.counter, CounterWritten(c, e.code, e.permanent)),
       permanent := Latest(e.permanent, PermanenceWritten(c, e.code)))
  }

  lemma StepTouches(s: State, c: Call)
    requires Inv(s)
    ensures var t := Step(s, c).entries;
      |s.entries| <= |t| && forall i :: 0 <= i < |s.entries| ==> t[i] == Touched(s.entries[i], c)
  {
    hide IndexOf, Rises, NoteTransition, Forget;
    forall i | 0 <= i < |s.entries| ensures IndexOf(s.entries, s.entries[i].code) == i {
      IndexOfUnique(s.entries, s.entries[i].code, i);
    }
  }

  lemma CodesOfTable(s: State, cs: seq<Call>, code: u32)
    requires Tells(s.entries, cs)
    ensures Registered(s, code) <==> code in Codes(cs)
  {
    hide IndexOf, Written;
    forall i | 0 <= i < |s.entries| ensures s.entries[i].code == Codes(cs)[i] {
      WrittenCode(cs, Codes(cs)[i]);
    }
    if code in Codes(cs) {
      var i :| 0 <= i < |Codes(cs)| && Codes(cs)[i] == code;
      assert s.entries[i].code == code;
    }
  }

  /** The codes after one more call, and the entry it may have added. */
  lemma StepCodes(s: State, cs: seq<Call>, c: Call)
    requires Inv(s) && Tells(s.entries, cs)
    ensures var t, all := Step(s, c).entries, cs + [c];
      |t| == |Codes(all)| && Codes(cs) <= Codes(all) &&
      (|t| > |s.entries| ==>
         |t| == |s.entries| + 1 && Codes(all) == Codes(cs) + [c.code] && c.code !in Codes(cs) &&
         t[|s.entries|] == Entry(c.code, 0x50, c.severity, 0, false))
  {
    hide IndexOf, Tells, Inv, Rises, NoteTransition, Forget;
    assert (cs + [c])[..|cs|] == cs;
    assert |s.entries| == |Codes(cs)| by { TellsLength(s.entries, cs); }
    if c.Register? {
      CodesOfTable(s, cs, c.code);
    }
  }

  lemma TellsLength(es: seq<Entry>, cs: seq<Call>)
    requires Tells(es, cs)
    ensures |es| == |Codes(cs)|
  {}

  lemma StepTells(s: State, cs: seq<Call>, c: Call)
    requires Inv(s) && Tells(s.entries, cs)
    ensures Tells(Step(s, c).entries, cs + [c])
  {
    hide IndexOf, Step, Touched, Inv, Written;
    var t, all := Step(s, c).entries, cs + [c];
    StepTouches(s, c);
    StepCodes(s, cs, c);
    forall i | 0 <= i < |t|
      ensures t[i] == Written(all, Codes(all)[i])
    {
      if i < |s.entries| {
        OldEntry(s, cs, c, i);
      } else {
        NewEntry(cs, c);
      }
    }
  }

  lemma NewEntry(cs: seq<Call>, c: Call)
    requires c.Register? && Codes(cs + [c]) == Codes(cs) + [c.code] && c.code !in Codes(cs)
    ensures Written(cs + [c], c.code) == Entry(c.code, 0x50, c.severity, 0, false)
  {
    assert (cs + [c])[..|cs|] == cs;
  }

  lemma OldEntry(s: State, cs: seq<Call>, c: Call, i: nat)
    requires Tells(s.entries, cs) && i < |Codes(cs)|
    ensures Codes(cs)[i] in Codes(cs + [c])
    ensures Touched(s.entries[i], c) == Written(cs + [c], Codes(cs)[i])
  {
    assert (cs + [c])[..|cs|] == cs;
    WrittenCode(cs, Codes(cs)[i]);
  }

  /** After every run the table is the registered codes with the values written last, and nothing else. */
  lemma {:induction false} TableIsHistory(cs: seq<Call>)
    ensures Tells(After(EMPTY, cs).entries, cs)
    decreases |cs|
  {
    hide Step, Inv, Tells;
    if cs == [] {
      NothingTold();
    } else {
      var before := cs[..|cs| - 1];
      TableIsHistory(before);
      EmptyInv();
      RunKeepsInv(EMPTY, before);
      StepTells(After(EMPTY, before), before, cs[|cs| - 1]);
      assert before + [cs[|cs| - 1]] == cs;
    }
  }

  lemma NothingTold()
    ensures Tells([], [])
  {}

  lemma EmptyInv()
    ensures Inv(EMPTY)
  {}

  // ---- What the tester is answered ----

  lemma TableInv(cs: seq<Call>)
    ensures Inv(After(EMPTY, cs)) && Tells(After(EMPTY, cs).entries, cs)
  {
    hide Inv, After, Tells;
    EmptyInv();
    RunKeepsInv(EMPTY, cs);
    TableIsHistory(cs);
  }

  /** A code is found exactly if it was registered. */
  lemma LookupAnswer(cs: seq<Call>, code: u32)
    ensures LookupStatus(After(EMPTY, cs), code) == if code in Codes(cs) then Ok else ErrDidNotFound
  {
    hide Inv, After, Tells, Registered;
    TableInv(cs);
    CodesOfTable(After(EMPTY, cs), cs, code);
  }

  /** Why a registration is refused: code 0 first, then a full table, then a known code. */
  lemma RegisterAnswer(cs: seq<Call>, code: u32, severity: u8)
    ensures AfterRegister(After(EMPTY, cs), code, severity).1 ==
      if code == 0 then ErrInvalidParam
      else if |Codes(cs)| >= 128 then ErrBufferOverflow
      else if code in Codes(cs) then ErrInvalidParam
      else Ok
  {
    hide Inv, After, Tells, Registered;
    TableInv(cs);
    TellsLength(After(EMPTY, cs).entries, cs);
    CodesOfTable(After(EMPTY, cs), cs, code);
  }

  /** The edges that enter the records: bit 0 for a failed test, bit 3 for a confirmed code. */
  lemma EdgeBits(before: byte, after: byte)
    ensures Rises(before, after, Bit(TestFailed)) <==> before & 0x01 == 0 && after & 0x01 != 0
    ensures Rises(before, after, Bit(Confirmed)) <==> before & 0x08 == 0 && after & 0x08 != 0
  {
    RisesMeaning(before, after, TEST_FAILED);
    RisesMeaning(before, after, CONFIRMED_DTC);
  }

  function Sharing(es: seq<Entry>, mask: byte): set<nat> {
    set i: nat | i < |es| && Shares(es[i].status, mask)
  }

  lemma {:induction false} CountSharing(es: seq<Entry>, mask: byte)
    ensures CountMatches(es, mask) == |Sharing(es, mask)|
    decreases |es|
  {
    hide Shares;
    if es != [] {
      var front, last := es[..|es| - 1], |es| - 1;
      CountSharing(front, mask);
      var before := Sharing(front, mask);
      assert last !in before;
      assert Sharing(es, mask) == if Shares(es[last].status, mask) then before + {last} else before;
    }
  }

  /** The count is that of the positions whose status shares a bit with the mask. */
  lemma CountMeaning(es: seq<Entry>, mask: byte)
    ensures CountMatches(es, mask) == |set i: nat | i < |es| && (es[i].status & mask != 0)|
  {
    hide CountMatches;
    CountSharing(es, mask);
    assert Sharing(es, mask) == set i: nat | i < |es| && (es[i].status & mask != 0);
  }
}
