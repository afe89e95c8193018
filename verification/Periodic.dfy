/** The scheduler of periodic identifiers (core/uds_periodic.c). */
module Periodic {
  import opened Arithmetic
  import opened Types

  const MAX_SUBSCRIPTIONS: nat := 8
  const SLOW_MS: u16 := 1000
  const MEDIUM_MS: u16 := 100
  const FAST_MS: u16 := 10

  const MODE_SLOW: u8 := 1
  const MODE_MEDIUM: u8 := 2
  const MODE_FAST: u8 := 3

  type frame = seq<u8>

  datatype Sub = Sub(active: bool, id: u8, mode: u8, counter: u16, interval: u16, due: bool)

  const EMPTY := Sub(false, 0, 0, 0, 0, false)

  type subList = s: seq<Sub> | |s| == 8 witness seq(8, _ => EMPTY)

  datatype State = State(slots: subList, count: u8, lastId: u8, lastValid: bool)

  /** What reading an identifier gives at the moment it is due. */
  datatype Reading = Unregistered | Denied | NoCallback | Failed | Data(bytes: seq<u8>)

  function IntervalOf(mode: u8): (ms: u16)
    ensures ms in {FAST_MS, MEDIUM_MS, SLOW_MS}
  {
    if mode == MODE_MEDIUM then MEDIUM_MS else if mode == MODE_FAST then FAST_MS else SLOW_MS
  }

  /** The slot of an identifier, or 8. */
  function FindSlot(slots: subList, id: u8, i: nat): (k: nat)
    requires i <= 8
    ensures i <= k <= 8 && (k < 8 ==> slots[k].active && slots[k].id == id)
    ensures forall j :: i <= j < k ==> !(slots[j].active && slots[j].id == id)
    decreases 8 - i
  {
    if i == 8 || (slots[i].active && slots[i].id == id) then i else FindSlot(slots, id, i + 1)
  }

  /** The first free slot, or 8. */
  function FindFree(slots: subList, i: nat): (k: nat)
    requires i <= 8
    ensures i <= k <= 8 && (k < 8 ==> !slots[k].active)
    ensures forall j :: i <= j < k ==> slots[j].active
    decreases 8 - i
  {
    if i == 8 || !slots[i].active then i else FindFree(slots, i + 1)
  }

  // ---- The operations as functions ----

  function AfterSubscribe(s: State, id: u8, mode: u8): (State, Status) {
    var k := FindSlot(s.slots, id, 0);
    if k < 8 then
      (s.(slots := s.slots[k := Sub(true, id, mode, 1, IntervalOf(mode), false)]), Ok)
    else if s.count >= 8 || FindFree(s.slots, 0) == 8 then (s, ErrRequestOutOfRange)
    else
      (s.(slots := s.slots[FindFree(s.slots, 0) := Sub(true, id, mode, 1, IntervalOf(mode), false)],
          count := s.count + 1), Ok)
  }

  function AfterUnsubscribe(s: State, id: u8): State {
    var k := FindSlot(s.slots, id, 0);
    if k == 8 then s else s.(slots := s.slots[k := EMPTY], count := if s.count > 0 then s.count - 1 else 0)
  }

  function AfterCancelAll(s: State): State {
    State(seq(8, _ => EMPTY), 0, s.lastId, false)
  }

  /** Whether this millisecond makes the subscription due. */
  predicate Fires(b: Sub) {
    b.active && b.counter <= 1
  }

  function TickSub(b: Sub): Sub {
    if !b.active then b
    else if Fires(b) then b.(due := true, counter := b.interval)
    else b.(counter := b.counter - 1)
  }

  function AfterTick(s: State): State {
    s.(slots := seq(8, i requires 0 <= i < 8 => TickSub(s.slots[i])))
  }

  predicate IsDue(b: Sub) {
    b.active && b.due
  }

  /** The search for a due subscription from slot i on; the readings are those of this call. */
  function PopFrom(s: State, i: nat, readings: u8 -> Reading): (State, Option<frame>)
    requires i <= 8
    decreases 8 - i
  {
    if i == 8 then (s, None)
    else if !IsDue(s.slots[i]) then PopFrom(s, i + 1, readings)
    else
      var t := s.(slots := s.slots[i := s.slots[i].(due := false)]);
      var id := s.slots[i].id;
      match readings(id)
      case Data(bytes) => (t.(lastId := id, lastValid := true), Some([id] + bytes))
      case Denied => PopFrom(AfterUnsubscribe(t, id), i + 1, readings)
      case _ => PopFrom(t, i + 1, readings)
  }

  function AfterRequeue(s: State): (State, Status) {
    var t := s.(lastValid := false);
    var k := FindSlot(s.slots, s.lastId, 0);
    if !s.lastValid || k == 8 then (t, ErrNotFound)
    else (t.(slots := s.slots[k := s.slots[k].(due := true)]), Ok)
  }

  // ---- The C code ----

  class Scheduler {
    const slots: array<Sub>
    var count: u8
    var lastId: u8
    var lastValid: bool

    constructor ()
      ensures Valid() && fresh(slots) && View() == State(seq(8, _ => EMPTY), 0, 0, false)
    {
      slots := new Sub[MAX_SUBSCRIPTIONS](_ => EMPTY);
      count, lastId, lastValid := 0, 0, false;
    }

    ghost predicate Valid()
      reads this
    {
      slots.Length == MAX_SUBSCRIPTIONS
    }

    ghost function View(): State
      requires Valid()
      reads this, slots
    {
      State(slots[..], count, lastId, lastValid)
    }

    /** s_mode_to_interval_ms: any mode that is not known is slow. */
    method ModeToInterval(mode: u8) returns (ms: u16)
      ensures mode == MODE_FAST ==> ms == 10
      ensures mode == MODE_MEDIUM ==> ms == 100
      ensures mode != MODE_FAST && mode != MODE_MEDIUM ==> ms == 1000
      ensures ms == IntervalOf(mode)
    {
      match mode {
        case 1 => ms := SLOW_MS;
        case 2 => ms := MEDIUM_MS;
        case 3 => ms := FAST_MS;
        case _ => ms := SLOW_MS;
      }
    }

    /** s_find_slot */
    method Find(id: u8) returns (k: nat)
      requires Valid()
      ensures k == FindSlot(slots[..], id, 0)
    {
      k := 0;
      while k < MAX_SUBSCRIPTIONS
        invariant k <= 8 && FindSlot(slots[..], id, 0) == FindSlot(slots[..], id, k)
      {
        if slots[k].active && slots[k].id == id {
          return;
        }
        k := k + 1;
      }
    }

    /** s_find_free */
    method FindFreeSlot() returns (k: nat)
      requires Valid()
      ensures k == FindFree(slots[..], 0)
    {
      k := 0;
      while k < MAX_SUBSCRIPTIONS
        invariant k <= 8 && FindFree(slots[..], 0) == FindFree(slots[..], k)
      {
        if !slots[k].active {
          return;
        }
        k := k + 1;
      }
    }

    /** uds_periodic_subscribe */
    method Subscribe(id: u8, mode: u8) returns (status: Status)
      requires Valid()
      modifies this`count, slots
      ensures Valid() && (View(), status) == AfterSubscribe(old(View()), id, mode)
    {
      hide IntervalOf, FindSlot, FindFree;
      var interval := ModeToInterval(mode);
      var k := Find(id);
      if k < MAX_SUBSCRIPTIONS {
        slots[k] := slots[k].(mode := mode, interval := interval, counter := 1, due := false);
        return Ok;
      }
      if count >= MAX_SUBSCRIPTIONS {
        return ErrRequestOutOfRange;
      }
      k := FindFreeSlot();
      if k == MAX_SUBSCRIPTIONS {
        return ErrRequestOutOfRange;
      }
      slots[k] := slots[k].(active := true, id := id, mode := mode, interval := interval, counter := 1, due := false);
      count := count + 1;
      status := Ok;
    }

    /** uds_periodic_unsubscribe */
    method Unsubscribe(id: u8)
      requires Valid()
      modifies this`count, slots
      ensures Valid() && View() == AfterUnsubscribe(old(View()), id)
    {
      hide FindSlot;
      var k := Find(id);
      if k == MAX_SUBSCRIPTIONS {
        return;
      }
      slots[k] := EMPTY;
      if count > 0 {
        count := count - 1;
      }
    }

    /** uds_periodic_cancel_all and uds_periodic_init */
    method CancelAll()
      requires Valid()
      modifies this`count, this`lastValid, slots
      ensures Valid() && View() == AfterCancelAll(old(View()))
    {
      for i := 0 to MAX_SUBSCRIPTIONS
        invariant forall k :: 0 <= k < i ==> slots[k] == EMPTY
      {
        slots[i] := EMPTY;
      }
      count := 0;
      lastValid := false;
    }

    /** uds_periodic_tick_1ms */
    method Tick()
      requires Valid()
      modifies slots
      ensures Valid() && View() == AfterTick(old(View()))
    {
      for i := 0 to MAX_SUBSCRIPTIONS
        invariant forall k :: 0 <= k < i ==> slots[k] == TickSub(old(slots[k]))
        invariant forall k :: i <= k < MAX_SUBSCRIPTIONS ==> slots[k] == old(slots[k])
      {
        if !slots[i].active {
          continue;
        }
        if slots[i].counter > 0 {
          slots[i] := slots[i].(counter := slots[i].counter - 1);
        }
        if slots[i].counter == 0 {
          slots[i] := slots[i].(due := true, counter := slots[i].interval);
        }
      }
    }

    /** uds_periodic_pop_due */
    method PopDue(readings: u8 -> Reading) returns (status: Status, out: frame)
      requires Valid()
      modifies this, slots
      ensures Valid()
      ensures View() == PopFrom(old(View()), 0, readings).0
      ensures match PopFrom(old(View()), 0, readings).1
              case Some(f) => status == Ok && out == f
              case None => status == ErrNotFound && out == []
    {
      hide AfterUnsubscribe;
      out := [];
      var i := 0;
      while i < MAX_SUBSCRIPTIONS
        invariant i <= 8 && Valid() && PopFrom(old(View()), 0, readings) == PopFrom(View(), i, readings)
      {
        if !slots[i].active || !slots[i].due {
          i := i + 1;
          continue;
        }
        slots[i] := slots[i].(due := false);
        match readings(slots[i].id) {
          case Denied =>
            Unsubscribe(slots[i].id);
          case Data(bytes) =>
            out := [slots[i].id] + bytes;
            lastId := slots[i].id;
            lastValid := true;
            return Ok, out;
          case _ =>
        }
        i := i + 1;
      }
      status := ErrNotFound;
    }

    /** uds_periodic_requeue_last */
    method RequeueLast() returns (status: Status)
      requires Valid()
      modifies this`lastValid, slots
      ensures Valid() && (View(), status) == AfterRequeue(old(View()))
    {
      hide FindSlot;
      if !lastValid {
        return ErrNotFound;
      }
      lastValid := false;
      var k := Find(lastId);
      if k == MAX_SUBSCRIPTIONS {
        return ErrNotFound;
      }
      slots[k] := slots[k].(due := true);
      status := Ok;
    }
  }

  // ---- What every operation keeps ----

  function ActiveIn(slots: seq<Sub>): nat {
    if slots == [] then 0 else (if slots[0].active then 1 else 0) + ActiveIn(slots[1..])
  }

  /** A counter that has at least one tick to go, and no more than its interval. */
  predicate Counting(b: Sub) {
    b.active ==> 1 <= b.counter <= b.interval && b.interval in {FAST_MS, MEDIUM_MS, SLOW_MS}
  }

  ghost predicate Inv(s: State) {
    && (forall i, j :: 0 <= i < j < 8 && s.slots[i].active && s.slots[j].active ==> s.slots[i].id != s.slots[j].id)
    && s.count == ActiveIn(s.slots)
    && (forall i :: 0 <= i < 8 ==> Counting(s.slots[i]))
  }

  lemma {:induction false} ActiveAfterUpdate(slots: seq<Sub>, i: nat, b: Sub)
    requires i < |slots|
    ensures ActiveIn(slots[i := b]) + (if slots[i].active then 1 else 0) == ActiveIn(slots) + if b.active then 1 else 0
    decreases |slots|
  {
    if i > 0 {
      assert slots[i := b][1..] == slots[1..][i - 1 := b];
      ActiveAfterUpdate(slots[1..], i - 1, b);
    } else {
      assert slots[0 := b][1..] == slots[1..];
    }
  }

  lemma {:induction false} SameActive(slots: seq<Sub>, others: seq<Sub>)
    requires |slots| == |others| && forall i :: 0 <= i < |slots| ==> slots[i].active == others[i].active
    ensures ActiveIn(slots) == ActiveIn(others)
    decreases |slots|
  {
    if slots != [] {
      SameActive(slots[1..], others[1..]);
    }
  }

  lemma {:induction false} ActiveBounds(slots: seq<Sub>)
    ensures ActiveIn(slots) <= |slots|
    ensures (forall i :: 0 <= i < |slots| ==> slots[i].active) <==> ActiveIn(slots) == |slots|
    ensures (exists i :: 0 <= i < |slots| && slots[i].active) ==> ActiveIn(slots) > 0
    decreases |slots|
  {
    if slots != [] {
      ActiveBounds(slots[1..]);
    }
  }

  /** A refusal means that eight other identifiers are subscribed. */
  lemma SubscribeKeepsInv(s: State, id: u8, mode: u8)
    requires Inv(s)
    ensures Inv(AfterSubscribe(s, id, mode).0)
    ensures AfterSubscribe(s, id, mode).1 != Ok <==>
      forall i :: 0 <= i < 8 ==> s.slots[i].active && s.slots[i].id != id
  {
    hide ActiveIn, FindSlot, FindFree, Inv;
    ActiveBounds(s.slots);
    var k := FindSlot(s.slots, id, 0);
    var i := if k < 8 then k else FindFree(s.slots, 0);
    InvMeans(s, id);
    if i < 8 {
      UpdateKeepsInv(s, i, Sub(true, id, mode, 1, IntervalOf(mode), false), if k < 8 then s.count else s.count + 1);
    }
  }

  lemma InvMeans(s: State, id: u8)
    requires Inv(s)
    ensures s.count == ActiveIn(s.slots)
    ensures var k := FindSlot(s.slots, id, 0);
      forall j :: 0 <= j < 8 && j != k ==> !(s.slots[j].active && s.slots[j].id == id)
  {}

  lemma UpdateKeepsInv(s: State, i: nat, b: Sub, count: u8)
    requires Inv(s) && i < 8 && b.active && Counting(b) && count == s.count + if s.slots[i].active then 0 else 1
    requires forall j :: 0 <= j < 8 && j != i ==> !(s.slots[j].active && s.slots[j].id == b.id)
    ensures Inv(s.(slots := s.slots[i := b], count := count))
  {
    hide ActiveIn, Counting;
    ActiveAfterUpdate(s.slots, i, b);
  }

  lemma UnsubscribeKeepsInv(s: State, id: u8)
    requires Inv(s)
    ensures Inv(AfterUnsubscribe(s, id))
  {
    hide ActiveIn, FindSlot;
    ActiveBounds(s.slots);
    var k := FindSlot(s.slots, id, 0);
    if k < 8 {
      ActiveAfterUpdate(s.slots, k, EMPTY);
    }
  }

  lemma TickKeepsInv(s: State)
    requires Inv(s)
    ensures Inv(AfterTick(s))
  {
    hide ActiveIn;
    SameActive(s.slots, AfterTick(s).slots);
  }

  lemma DueKeepsInv(s: State, i: nat, due: bool)
    requires Inv(s) && i < 8
    ensures Inv(s.(slots := s.slots[i := s.slots[i].(due := due)]))
  {
    hide ActiveIn;
    ActiveAfterUpdate(s.slots, i, s.slots[i].(due := due));
  }

  lemma {:induction false} PopKeepsInv(s: State, i: nat, readings: u8 -> Reading)
    requires Inv(s) && i <= 8
    ensures Inv(PopFrom(s, i, readings).0)
    decreases 8 - i
  {
    hide Inv, AfterUnsubscribe;
    if i == 8 {
    } else if !IsDue(s.slots[i]) {
      PopKeepsInv(s, i + 1, readings);
    } else {
      var t := s.(slots := s.slots[i := s.slots[i].(due := false)]);
      DueKeepsInv(s, i, false);
      match readings(s.slots[i].id)
      case Data(_) => LastKeepsInv(t, s.slots[i].id, true);
      case Denied =>
        UnsubscribeKeepsInv(t, s.slots[i].id);
        PopKeepsInv(AfterUnsubscribe(t, s.slots[i].id), i + 1, readings);
      case _ => PopKeepsInv(t, i + 1, readings);
    }
  }

  lemma LastKeepsInv(s: State, id: u8, valid: bool)
    requires Inv(s)
    ensures Inv(s.(lastId := id, lastValid := valid))
  {}

  lemma RequeueKeepsInv(s: State)
    requires Inv(s)
    ensures Inv(AfterRequeue(s).0)
  {
    hide ActiveIn, FindSlot;
    var k := FindSlot(s.slots, s.lastId, 0);
    if k < 8 {
      DueKeepsInv(s, k, true);
    }
  }

  datatype Call =
    | Subscribe(id: u8, mode: u8)
    | Unsubscribe(id: u8)
    | CancelAll
    | Tick
    | Pop(readings: map<u8, Reading>)
    | Requeue

  function ReadingOf(m: map<u8, Reading>): u8 -> Reading {
    id => if id in m then m[id] else Unregistered
  }

  function Step(s: State, c: Call): State {
    match c
    case Subscribe(id, mode) => AfterSubscribe(s, id, mode).0
    case Unsubscribe(id) => AfterUnsubscribe(s, id)
    case CancelAll => AfterCancelAll(s)
    case Tick => AfterTick(s)
    case Pop(readings) => PopFrom(s, 0, ReadingOf(readings)).0
    case Requeue => AfterRequeue(s).0
  }

  lemma StepKeepsInv(s: State, c: Call)
    requires Inv(s)
    ensures Inv(Step(s, c))
  {
    hide Inv, AfterSubscribe, AfterUnsubscribe, AfterTick, PopFrom, AfterRequeue;
    match c
    case Subscribe(id, mode) => SubscribeKeepsInv(s, id, mode);
    case Unsubscribe(id) => UnsubscribeKeepsInv(s, id);
    case CancelAll => NothingActive(s);
    case Tick => TickKeepsInv(s);
    case Pop(readings) => PopKeepsInv(s, 0, ReadingOf(readings));
    case Requeue => RequeueKeepsInv(s);
  }

  lemma NothingActive(s: State)
    ensures Inv(AfterCancelAll(s))
  {
    NoneActive(AfterCancelAll(s).slots);
  }

  lemma {:induction false} NoneActive(slots: seq<Sub>)
    requires forall i :: 0 <= i < |slots| ==> !slots[i].active
    ensures ActiveIn(slots) == 0
    decreases |slots|
  {
    if slots != [] {
      NoneActive(slots[1..]);
    }
  }

  function After(s: State, cs: seq<Call>): State
    decreases |cs|
  {
    if cs == [] then s else After(Step(s, cs[0]), cs[1..])
  }

  /** In every run the identifiers stay distinct, the count right and the counters within their intervals. */
  lemma {:induction false} RunKeepsInv(s: State, cs: seq<Call>)
    requires Inv(s)
    ensures Inv(After(s, cs))
    decreases |cs|
  {
    hide Inv, Step;
    if cs != [] {
      StepKeepsInv(s, cs[0]);
      RunKeepsInv(Step(s, cs[0]), cs[1..]);
    }
  }

  // ---- How often a subscription becomes due ----

  /** Slot k holds the identifier, with this much of its interval to go. */
  predicate Held(s: State, k: nat, id: u8, counter: u16, interval: u16) {
    k < 8 && s.slots[k].active && s.slots[k].id == id &&
    s.slots[k].counter == counter && s.slots[k].interval == interval
  }

  /** Calls that neither renew nor end the subscription. */
  predicate LeavesAlone(c: Call, id: u8) {
    match c
    case Subscribe(other, _) => other != id
    case Unsubscribe(other) => other != id
    case CancelAll => false
    case Pop(readings) => ReadingOf(readings)(id) != Denied
    case _ => true
  }

  lemma {:induction false} PopHolds(s: State, i: nat, readings: u8 -> Reading, k: nat, id: u8,
                                    counter: u16, interval: u16)
    requires Held(s, k, id, counter, interval) && i <= 8 && readings(id) != Denied
    ensures Held(PopFrom(s, i, readings).0, k, id, counter, interval)
    decreases 8 - i
  {
    if i < 8 {
      if !IsDue(s.slots[i]) {
        PopHolds(s, i + 1, readings, k, id, counter, interval);
      } else {
        var t := s.(slots := s.slots[i := s.slots[i].(due := false)]);
        match readings(s.slots[i].id)
        case Data(_) =>
        case Denied => PopHolds(AfterUnsubscribe(t, s.slots[i].id), i + 1, readings, k, id, counter, interval);
        case _ => PopHolds(t, i + 1, readings, k, id, counter, interval);
      }
    }
  }

  lemma StepHolds(s: State, c: Call, k: nat, id: u8, counter: u16, interval: u16)
    requires Held(s, k, id, counter, interval) && LeavesAlone(c, id) && 1 <= counter <= interval
    ensures Held(Step(s, c), k, id,
                 if !c.Tick? then counter else if counter == 1 then interval else counter - 1, interval)
    ensures c.Tick? ==> (Fires(s.slots[k]) <==> counter == 1)
    ensures c.Tick? ==> (Step(s, c).slots[k].due <==> counter == 1 || s.slots[k].due)
  {
    hide IntervalOf;
    if c.Pop? {
      PopHolds(s, 0, ReadingOf(c.readings), k, id, counter, interval);
    }
  }

  function Ticks(cs: seq<Call>): nat
    decreases |cs|
  {
    if cs == [] then 0 else (if cs[0].Tick? then 1 else 0) + Ticks(cs[1..])
  }

  /** How often the run makes slot k due. */
  function Fired(s: State, cs: seq<Call>, k: nat): nat
    requires k < 8
    decreases |cs|
  {
    if cs == [] then 0
    else (if cs[0].Tick? && Fires(s.slots[k]) then 1 else 0) + Fired(Step(s, cs[0]), cs[1..], k)
  }

  /** How many of the ticks c, c + d, c + 2d, ... come within the first t. */
  function Beats(t: nat, c: nat, d: nat): nat
    requires d > 0
  {
    if t < c then 0 else 1 + (t - c) / d
  }

  lemma NextBeat(t: nat, d: nat)
    requires t > 0 && d > 0
    ensures Beats(t, 1, d) == 1 + Beats(t - 1, d, d)
  {
    var n := t - 1;
    if n >= d {
      var q, r := (n - d) / d, (n - d) % d;
      assert n - d == q * d + r && n == (q + 1) * d + r;
      DivUnique(n, d, q + 1, r);
    } else {
      DivUnique(n, d, 0, n);
    }
  }

  lemma {:induction false} FiredBeats(s: State, cs: seq<Call>, k: nat, id: u8, counter: u16, interval: u16)
    requires Held(s, k, id, counter, interval) && 1 <= counter <= interval
    requires forall c :: c in cs ==> LeavesAlone(c, id)
    ensures Fired(s, cs, k) == Beats(Ticks(cs), counter, interval)
    decreases |cs|
  {
    hide Step, Fires, LeavesAlone;
    if cs != [] {
      StepHolds(s, cs[0], k, id, counter, interval);
      assert forall c :: c in cs[1..] ==> c in cs;
      if !cs[0].Tick? {
        FiredBeats(Step(s, cs[0]), cs[1..], k, id, counter, interval);
      } else if counter == 1 {
        FiredBeats(Step(s, cs[0]), cs[1..], k, id, interval, interval);
        NextBeat(Ticks(cs), interval);
      } else {
        FiredBeats(Step(s, cs[0]), cs[1..], k, id, counter - 1, interval);
      }
    }
  }

  /**
   * A subscription that was granted and then left alone, whatever happens to the others,
   * becomes due exactly 1 + (t - 1) / interval times in its first t >= 1 milliseconds.
   */
  lemma DueExactly(s: State, id: u8, mode: u8, cs: seq<Call>)
    requires Inv(s) && AfterSubscribe(s, id, mode).1 == Ok
    requires (forall c :: c in cs ==> LeavesAlone(c, id)) && Ticks(cs) >= 1
    ensures var z := AfterSubscribe(s, id, mode).0; var k := FindSlot(z.slots, id, 0);
      k < 8 && Fired(z, cs, k) == 1 + (Ticks(cs) - 1) / IntervalOf(mode)
  {
    hide IntervalOf, Fired, Ticks;
    var z := AfterSubscribe(s, id, mode).0;
    var k := FindSlot(z.slots, id, 0);
    GrantedHeld(s, id, mode);
    FiredBeats(z, cs, k, id, 1, IntervalOf(mode));
  }

  lemma GrantedHeld(s: State, id: u8, mode: u8)
    requires Inv(s) && AfterSubscribe(s, id, mode).1 == Ok
    ensures var z := AfterSubscribe(s, id, mode).0;
      Held(z, FindSlot(z.slots, id, 0), id, 1, IntervalOf(mode)) && IntervalOf(mode) >= 1
  {
    hide IntervalOf, FindSlot, FindFree;
    SubscribeKeepsInv(s, id, mode);
    var z := AfterSubscribe(s, id, mode).0;
    var k := if FindSlot(s.slots, id, 0) < 8 then FindSlot(s.slots, id, 0) else FindFree(s.slots, 0);
    assert z.slots[k].active && z.slots[k].id == id;
    var j := FindSlot(z.slots, id, 0);
    assert j < 8;
  }

  // ---- Draining ----

  function FrameOf(b: Sub, readings: u8 -> Reading): frame
    requires readings(b.id).Data?
  {
    [b.id] + readings(b.id).bytes
  }

  predicate Yields(b: Sub, readings: u8 -> Reading) {
    IsDue(b) && readings(b.id).Data?
  }

  /** What is left of a slot that was dealt with: no longer due, and gone if access was denied. */
  function Served(b: Sub, readings: u8 -> Reading): Sub {
    if !IsDue(b) then b else if readings(b.id).Denied? then EMPTY else b.(due := false)
  }

  /** The first slot from i on that is due and readable, or 8: where a search stops. */
  function StopAt(slots: subList, i: nat, readings: u8 -> Reading): (k: nat)
    requires i <= 8
    ensures i <= k <= 8 && (k < 8 ==> IsDue(slots[k]) && readings(slots[k].id).Data?)
    decreases 8 - i
  {
    if i == 8 || (IsDue(slots[i]) && readings(slots[i].id).Data?) then i else StopAt(slots, i + 1, readings)
  }

  lemma {:induction false} SameStop(slots: subList, others: subList, i: nat, readings: u8 -> Reading)
    requires i <= 8 && forall j :: i <= j < 8 ==> slots[j] == others[j]
    ensures StopAt(slots, i, readings) == StopAt(others, i, readings)
    decreases 8 - i
  {
    if i < 8 {
      SameStop(slots, others, i + 1, readings);
    }
  }

  /** One due slot that yields no frame. */
  function Skip(s: State, i: nat, readings: u8 -> Reading): State
    requires i < 8
  {
    var t := s.(slots := s.slots[i := s.slots[i].(due := false)]);
    if readings(s.slots[i].id).Denied? then AfterUnsubscribe(t, s.slots[i].id) else t
  }

  lemma SkipServes(s: State, i: nat, readings: u8 -> Reading)
    requires Inv(s) && i < 8 && IsDue(s.slots[i])
    ensures Inv(Skip(s, i, readings)) && Skip(s, i, readings).slots == s.slots[i := Served(s.slots[i], readings)]
  {
    hide ActiveIn;
    var t := s.(slots := s.slots[i := s.slots[i].(due := false)]);
    DueKeepsInv(s, i, false);
    UnsubscribeKeepsInv(t, s.slots[i].id);
    assert FindSlot(t.slots, s.slots[i].id, 0) == i;
  }

  lemma PopSkips(s: State, i: nat, readings: u8 -> Reading)
    requires i < 8 && IsDue(s.slots[i]) && !readings(s.slots[i].id).Data?
    ensures PopFrom(s, i, readings) == PopFrom(Skip(s, i, readings), i + 1, readings)
  {
    hide AfterUnsubscribe;
  }

  /** One search: the slots up to where it stops are served, those behind untouched. */
  lemma {:induction false} PopServes(s: State, i: nat, readings: u8 -> Reading)
    requires Inv(s) && i <= 8
    ensures IsServed(s, i, readings, PopFrom(s, i, readings))
    decreases 8 - i
  {
    hide Inv, Skip, IsServed, PopFrom;
    if i == 8 || Yields(s.slots[i], readings) {
      PopStops(s, i, readings);
    } else if !IsDue(s.slots[i]) {
      PopServes(s, i + 1, readings);
      PopPasses(s, i, readings);
    } else {
      var t := Skip(s, i, readings);
      SkipServes(s, i, readings);
      PopServes(t, i + 1, readings);
      PopSkips(s, i, readings);
      ServedSkips(s, t, i, readings, PopFrom(t, i + 1, readings));
    }
  }

  /** A search from slot i on served the slots up to where it stopped, and no others. */
  predicate IsServed(s: State, i: nat, readings: u8 -> Reading, result: (State, Option<frame>))
    requires i <= 8
  {
    var (z, f) := result;
    var k := StopAt(s.slots, i, readings);
    && f == (if k == 8 then None else Some(FrameOf(s.slots[k], readings)))
    && (k < 8 ==> z.lastValid && z.lastId == s.slots[k].id)
    && forall j :: 0 <= j < 8 ==> z.slots[j] == if i <= j <= k then Served(s.slots[j], readings) else s.slots[j]
  }

  lemma PopStops(s: State, i: nat, readings: u8 -> Reading)
    requires i <= 8 && (i < 8 ==> Yields(s.slots[i], readings))
    ensures IsServed(s, i, readings, PopFrom(s, i, readings))
  {}

  lemma PopPasses(s: State, i: nat, readings: u8 -> Reading)
    requires i < 8 && !IsDue(s.slots[i])
    requires IsServed(s, i + 1, readings, PopFrom(s, i + 1, readings))
    ensures IsServed(s, i, readings, PopFrom(s, i, readings))
  {}

  lemma ServedSkips(s: State, t: State, i: nat, readings: u8 -> Reading, result: (State, Option<frame>))
    requires i < 8 && IsDue(s.slots[i]) && !readings(s.slots[i].id).Data?
    requires t.slots == s.slots[i := Served(s.slots[i], readings)] && IsServed(t, i + 1, readings, result)
    ensures IsServed(s, i, readings, result)
  {
    hide Served;
    SameStop(s.slots, t.slots, i + 1, readings);
  }

  /** What each pop of a drain reads: the data may change from one pop to the next. */
  type readingList = seq<u8 -> Reading>

  /** Popping until nothing is due, without a requeue in between. */
  function Drain(s: State, rs: readingList): (State, seq<frame>)
    decreases |rs|
  {
    if rs == [] then (s, [])
    else match PopFrom(s, 0, rs[0])
      case (z, None) => (z, [])
      case (z, Some(f)) =>
        var (y, fs) := Drain(z, rs[1..]);
        (y, [f] + fs)
  }

  /** The readings left after slot b was dealt with: a frame ends its pop. */
  function Rest(b: Sub, rs: readingList): (r: readingList)
    requires rs != []
    ensures |rs| - 1 <= |r| <= |rs|
  {
    if Yields(b, rs[0]) then rs[1..] else rs
  }

  /** One pass over the slots from i on: the frames they are worth. */
  function FramesFrom(slots: subList, i: nat, rs: readingList): seq<frame>
    requires i <= 8 && |rs| > 8 - i
    decreases 8 - i
  {
    if i == 8 then []
    else (if Yields(slots[i], rs[0]) then [FrameOf(slots[i], rs[0])] else []) +
         FramesFrom(slots, i + 1, Rest(slots[i], rs))
  }

  /** And what is left of them. */
  function LeftFrom(slots: subList, i: nat, rs: readingList): (left: seq<Sub>)
    requires i <= 8 && |rs| > 8 - i
    ensures |left| == 8 - i
    decreases 8 - i
  {
    if i == 8 then [] else [Served(slots[i], rs[0])] + LeftFrom(slots, i + 1, Rest(slots[i], rs))
  }

  lemma {:induction false} SamePass(slots: subList, others: subList, i: nat, rs: readingList)
    requires i <= 8 && |rs| > 8 - i && forall j :: i <= j < 8 ==> slots[j] == others[j]
    ensures FramesFrom(slots, i, rs) == FramesFrom(others, i, rs) && LeftFrom(slots, i, rs) == LeftFrom(others, i, rs)
    decreases 8 - i
  {
    if i < 8 {
      SamePass(slots, others, i + 1, Rest(slots[i], rs));
    }
  }

  /** The pass up to where the first pop stops, and on from there with the next readings. */
  lemma {:induction false} FramesStop(slots: subList, i: nat, rs: readingList)
    requires i <= 8 && |rs| > 8 - i
    ensures var k := StopAt(slots, i, rs[0]);
      FramesFrom(slots, i, rs) ==
      if k == 8 then [] else [FrameOf(slots[k], rs[0])] + FramesFrom(slots, k + 1, rs[1..])
    decreases 8 - i
  {
    hide FrameOf, FramesFrom, StopAt, Yields;
    StopUnfolds(slots, i, rs[0]);
    FramesUnfold(slots, i, rs);
    if i < 8 && !Yields(slots[i], rs[0]) {
      FramesStop(slots, i + 1, rs);
    }
  }

  lemma FramesUnfold(slots: subList, i: nat, rs: readingList)
    requires i <= 8 && |rs| > 8 - i
    ensures i == 8 ==> FramesFrom(slots, i, rs) == []
    ensures i < 8 && Yields(slots[i], rs[0]) ==>
      FramesFrom(slots, i, rs) == [FrameOf(slots[i], rs[0])] + FramesFrom(slots, i + 1, rs[1..])
    ensures i < 8 && !Yields(slots[i], rs[0]) ==> FramesFrom(slots, i, rs) == FramesFrom(slots, i + 1, rs)
  {
    hide FrameOf;
  }

  lemma {:induction false} LeftStops(slots: subList, i: nat, rs: readingList)
    requires i <= 8 && |rs| > 8 - i
    ensures LeftAtStop(slots, i, rs)
    decreases 8 - i
  {
    hide LeftAtStop, Yields;
    if i == 8 || Yields(slots[i], rs[0]) {
      LeftHere(slots, i, rs);
    } else {
      LeftStops(slots, i + 1, rs);
      LeftPasses(slots, i, rs);
    }
  }

  /** The slots behind the one where the first search stops. */
  function Behind(k: nat): nat {
    if k == 8 then 8 else k + 1
  }

  predicate LeftAtStop(slots: subList, i: nat, rs: readingList)
    requires i <= 8 && |rs| > 8 - i
  {
    var k := StopAt(slots, i, rs[0]);
    LeftFrom(slots, i, rs) ==
    ServedTo(slots, i, Behind(k), rs[0]) + if k == 8 then [] else LeftFrom(slots, k + 1, rs[1..])
  }

  lemma LeftHere(slots: subList, i: nat, rs: readingList)
    requires i <= 8 && |rs| > 8 - i && (i < 8 ==> Yields(slots[i], rs[0]))
    ensures LeftAtStop(slots, i, rs)
  {
    hide Served, ServedTo, Yields, StopAt, LeftFrom;
    StopUnfolds(slots, i, rs[0]);
    LeftUnfolds(slots, i, rs);
    ServedToUnfolds(slots, i, Behind(i), rs[0]);
    if i < 8 {
      ServedToUnfolds(slots, i + 1, i + 1, rs[0]);
    }
  }

  lemma LeftPasses(slots: subList, i: nat, rs: readingList)
    requires i < 8 && |rs| > 8 - i && !Yields(slots[i], rs[0]) && LeftAtStop(slots, i + 1, rs)
    ensures LeftAtStop(slots, i, rs)
  {
    hide Served, ServedTo, Yields, StopAt, LeftFrom;
    var k := StopAt(slots, i + 1, rs[0]);
    StopUnfolds(slots, i, rs[0]);
    LeftUnfolds(slots, i, rs);
    ServedToUnfolds(slots, i, Behind(k), rs[0]);
    var left := if k == 8 then [] else LeftFrom(slots, k + 1, rs[1..]);
    Prepend(Served(slots[i], rs[0]), ServedTo(slots, i + 1, Behind(k), rs[0]), left);
  }

  lemma Prepend(b: Sub, s: seq<Sub>, t: seq<Sub>)
    ensures [b] + (s + t) == ([b] + s) + t
  {}

  lemma LeftUnfolds(slots: subList, i: nat, rs: readingList)
    requires i <= 8 && |rs| > 8 - i
    ensures LeftFrom(slots, i, rs) ==
      if i == 8 then []
      else [Served(slots[i], rs[0])] + LeftFrom(slots, i + 1, if Yields(slots[i], rs[0]) then rs[1..] else rs)
  {
    hide Served, Yields;
  }

  lemma StopUnfolds(slots: subList, i: nat, readings: u8 -> Reading)
    requires i <= 8
    ensures StopAt(slots, i, readings) ==
      if i == 8 || Yields(slots[i], readings) then i else StopAt(slots, i + 1, readings)
  {}

  lemma ServedToUnfolds(slots: subList, i: nat, n: nat, readings: u8 -> Reading)
    requires i <= n <= 8
    ensures ServedTo(slots, i, n, readings) ==
      if i == n then [] else [Served(slots[i], readings)] + ServedTo(slots, i + 1, n, readings)
  {
    hide Served;
  }

  /** The slots from i to before n, each served with the same readings. */
  function ServedTo(slots: subList, i: nat, n: nat, readings: u8 -> Reading): (served: seq<Sub>)
    requires i <= n <= 8
    ensures |served| == n - i
  {
    seq(n - i, j requires 0 <= j < n - i => Served(slots[i + j], readings))
  }

  lemma {:induction false} NothingDueBefore(slots: subList, i: nat, k: nat, readings: u8 -> Reading)
    requires i <= k <= 8 && forall j :: i <= j < k ==> !IsDue(slots[j])
    ensures StopAt(slots, i, readings) == StopAt(slots, k, readings)
    decreases k - i
  {
    if i < k {
      NothingDueBefore(slots, i + 1, k, readings);
    }
  }

  /** Draining when the slots before k are served already. */
  lemma {:induction false} DrainFrom(s: State, rs: readingList, k: nat)
    requires Inv(s) && k <= 8 && |rs| > 8 - k && forall j :: 0 <= j < k ==> !IsDue(s.slots[j])
    ensures var (z, fs) := Drain(s, rs);
      && fs == FramesFrom(s.slots, k, rs)
      && z.slots == s.slots[..k] + LeftFrom(s.slots, k, rs)
    decreases |rs|
  {
    hide Inv, PopFrom, FramesFrom, LeftFrom, StopAt, IsDue, Served, IsServed, ServedTo;
    var (z, f) := PopFrom(s, 0, rs[0]);
    var stop := StopAt(s.slots, k, rs[0]);
    PopServes(s, 0, rs[0]);
    PopKeepsInv(s, 0, rs[0]);
    PopResult(s, rs[0], k, z, f);
    FramesStop(s.slots, k, rs);
    LeftStops(s.slots, k, rs);
    if stop < 8 {
      DrainFrom(z, rs[1..], stop + 1);
      SamePass(s.slots, z.slots, stop + 1, rs[1..]);
    }
  }

  /** What one pop leaves when the slots before k were not due. */
  lemma PopResult(s: State, readings: u8 -> Reading, k: nat, z: State, f: Option<frame>)
    requires k <= 8 && IsServed(s, 0, readings, (z, f)) && forall j :: 0 <= j < k ==> !IsDue(s.slots[j])
    ensures var stop := StopAt(s.slots, k, readings);
      && f == (if stop == 8 then None else Some(FrameOf(s.slots[stop], readings)))
      && z.slots[..Behind(stop)] == s.slots[..k] + ServedTo(s.slots, k, Behind(stop), readings)
      && (stop == 8 ==> z.slots[..8] == z.slots)
      && (forall j :: 0 <= j < Behind(stop) ==> !IsDue(z.slots[j]))
      && (forall j :: Behind(stop) <= j < 8 ==> z.slots[j] == s.slots[j])
  {
    hide StopAt, IsDue, Served;
    NothingDueBefore(s.slots, 0, k, readings);
    ServedNotDue(s.slots, readings);
  }

  lemma ServedNotDue(slots: subList, readings: u8 -> Reading)
    ensures forall j :: 0 <= j < 8 ==>
      !IsDue(Served(slots[j], readings)) && (!IsDue(slots[j]) ==> Served(slots[j], readings) == slots[j])
  {}

  lemma {:induction false} LeftNotDue(slots: subList, i: nat, rs: readingList)
    requires i <= 8 && |rs| > 8 - i
    ensures forall j :: 0 <= j < 8 - i ==> !IsDue(LeftFrom(slots, i, rs)[j])
    decreases 8 - i
  {
    if i < 8 {
      LeftNotDue(slots, i + 1, Rest(slots[i], rs));
    }
  }

  /**
   * A drain loop ends after at most nine pops, whatever each of them reads: it gives what
   * one pass over the slots gives, so every due slot is served once, in slot order, nothing
   * else changes, and then nothing is due.
   */
  lemma DrainServesAll(s: State, rs: readingList, next: u8 -> Reading)
    requires Inv(s) && |rs| > 8
    ensures var (z, fs) := Drain(s, rs);
      && fs == FramesFrom(s.slots, 0, rs)
      && z.slots == LeftFrom(s.slots, 0, rs)
      && (forall j :: 0 <= j < 8 ==> !IsDue(z.slots[j]))
      && PopFrom(z, 0, next) == (z, None)
  {
    hide Inv, Drain;
    DrainFrom(s, rs, 0);
    LeftNotDue(s.slots, 0, rs);
    var z := Drain(s, rs).0;
    assert z.slots == LeftFrom(s.slots, 0, rs);
    NothingToPop(z, 0, next);
  }

  lemma {:induction false} NothingToPop(s: State, i: nat, readings: u8 -> Reading)
    requires i <= 8 && forall j :: i <= j < 8 ==> !IsDue(s.slots[j])
    ensures PopFrom(s, i, readings) == (s, None)
    decreases 8 - i
  {
    if i < 8 {
      NothingToPop(s, i + 1, readings);
    }
  }

  /** A requeue after a pop brings the same frame again at the next pop. */
  lemma RequeueRepeats(s: State, readings: u8 -> Reading)
    requires Inv(s) && PopFrom(s, 0, readings).1.Some?
    ensures var (z, f) := PopFrom(s, 0, readings);
      AfterRequeue(z).1 == Ok && PopFrom(AfterRequeue(z).0, 0, readings).1 == f
  {
    hide ActiveIn, PopFrom, StopAt, FindSlot;
    var z := PopFrom(s, 0, readings).0;
    var k := StopAt(s.slots, 0, readings);
    PopServes(s, 0, readings);
    PopKeepsInv(s, 0, readings);
    assert FindSlot(z.slots, z.lastId, 0) == k;
    var y := AfterRequeue(z).0;
    RequeueKeepsInv(z);
    PopServes(y, 0, readings);
    NothingDueBefore(y.slots, 0, k, readings);
    StopsHere(y.slots, k, readings);
  }

  lemma StopsHere(slots: subList, k: nat, readings: u8 -> Reading)
    requires k < 8 && IsDue(slots[k]) && readings(slots[k].id).Data?
    ensures StopAt(slots, k, readings) == k
  {}
}
