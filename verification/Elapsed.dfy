/** Time accounting on a clock that wraps (core/eds_elapsed.h): no millisecond is lost unnoticed. */
module Elapsed {
  import opened Types

  const MAX_CARRY: u32 := 5000
  const WRAP: nat := 0x1_0000_0000

  /** now - then in unsigned 32-bit arithmetic. */
  function Since(then_: u32, now: u32): u32 {
    (now + WRAP - then_) % WRAP
  }

  /** What is owed once elapsed has been added to the carry. */
  function Owed(carry: u32, elapsed: u32): u32
    requires carry <= MAX_CARRY
  {
    if elapsed < MAX_CARRY && carry + elapsed <= MAX_CARRY then carry + elapsed else MAX_CARRY
  }

  function Min(a: u32, b: u32): u32 {
    if a < b then a else b
  }

  class Stopwatch {
    var anchor: u32
    var carry: u32

    ghost predicate Valid()
      reads this
    {
      carry <= MAX_CARRY
    }

    /** eds_elapsed_init */
    constructor (now: u32)
      ensures Valid() && anchor == now && carry == 0
    {
      anchor, carry := now, 0;
    }

    /** eds_elapsed_since */
    method ElapsedSince(now: u32) returns (since: u32)
      ensures since == Since(anchor, now)
    {
      since := (now + WRAP - anchor) % WRAP;
    }

    /** eds_elapsed_consume */
    method Consume(now: u32, cap: u32) returns (out: u32)
      requires Valid()
      modifies this
      ensures Valid() && anchor == now
      ensures var owed := Owed(old(carry), Since(old(anchor), now)); out == Min(owed, cap) && carry == owed - out
    {
      var owed: u32 := MAX_CARRY;
      var elapsed: u32 := (now + WRAP - anchor) % WRAP;
      anchor := now;
      if elapsed < MAX_CARRY {
        owed := (carry + elapsed) % WRAP;
        if owed > MAX_CARRY {
          owed := MAX_CARRY;
        }
      }
      out := if owed < cap then owed else cap;
      carry := owed - out;
    }
  }

  /** A call hands out all that is owed, up to 5000 ms and up to its cap, and carries the rest. */
  lemma HandsOutMost(carry: u32, elapsed: u32, cap: u32)
    requires carry <= MAX_CARRY
    ensures var owed := Owed(carry, elapsed);
      && owed == (if carry + elapsed <= 5000 then carry + elapsed else 5000)
      && (Min(owed, cap) == owed || Min(owed, cap) == cap) && Min(owed, cap) <= owed && Min(owed, cap) <= cap
  {}

  // ---- Real time ----

  /** The clock at real time t. */
  function Clock(t: nat): u32 {
    t % WRAP
  }

  /** The measured interval is the real one, across any number of wraps, up to 2^32 ms. */
  lemma SinceIsReal(t: nat, gap: nat)
    requires gap < WRAP
    ensures Since(Clock(t), Clock(t + gap)) == gap
  {
    var q, r := t / WRAP, t % WRAP;
    assert t + gap == q * WRAP + (r + gap);
    if r + gap < WRAP {
      Remainder(q, r + gap, t + gap);
    } else {
      assert t + gap == (q + 1) * WRAP + (r + gap - WRAP);
      Remainder(q + 1, r + gap - WRAP, t + gap);
    }
  }

  lemma Remainder(q: nat, r: nat, n: nat)
    requires r < WRAP && n == q * WRAP + r
    ensures n % WRAP == r
  {
    var p, s := n / WRAP, n % WRAP;
    assert n == p * WRAP + s;
    assert (p - q) * WRAP == r - s;
  }

  /** A call: gap real milliseconds after the one before, handing out at most cap. */
  datatype Call = Call(gap: nat, cap: u32)

  type Calls = cs: seq<Call> | forall c :: c in cs ==> c.gap < WRAP

  /** The carry at real time, and the totals so far. */
  datatype Account = Account(time: nat, carry: u32, handed: nat, dropped: nat)

  predicate Sound(a: Account) {
    a.carry <= MAX_CARRY
  }

  /** What the call hands out, by the clock. */
  function HandsOut(a: Account, c: Call): u32
    requires Sound(a)
  {
    Min(Owed(a.carry, Since(Clock(a.time), Clock(a.time + c.gap))), c.cap)
  }

  /** What the call forgets. */
  function Drops(a: Account, c: Call): int
    requires Sound(a)
  {
    a.carry + c.gap - Owed(a.carry, Since(Clock(a.time), Clock(a.time + c.gap)))
  }

  /** A call drops time exactly when carry and gap together exceed the limit. */
  lemma DropsExactlyWhen(a: Account, c: Call)
    requires Sound(a) && c.gap < WRAP
    ensures Drops(a, c) >= 0 && (Drops(a, c) > 0 <==> a.carry + c.gap > MAX_CARRY)
  {
    SinceIsReal(a.time, c.gap);
  }

  function Step(a: Account, c: Call): (z: Account)
    requires Sound(a) && c.gap < WRAP
    ensures Sound(z)
  {
    DropsExactlyWhen(a, c);
    Account(a.time + c.gap, Owed(a.carry, Since(Clock(a.time), Clock(a.time + c.gap))) - HandsOut(a, c),
            a.handed + HandsOut(a, c), a.dropped + Drops(a, c))
  }

  function After(a: Account, cs: Calls): (z: Account)
    requires Sound(a)
    ensures Sound(z)
    decreases |cs|
  {
    if cs == [] then a else After(Step(a, cs[0]), cs[1..])
  }

  /** Over any run: what was handed out, is still carried or was dropped is the time that passed. */
  lemma {:induction false} TimeIsConserved(start: nat, a: Account, cs: Calls)
    requires Sound(a) && start + a.handed + a.carry + a.dropped == a.time
    ensures var z := After(a, cs); start + z.handed + z.carry + z.dropped == z.time
    decreases |cs|
  {
    if cs != [] {
      TimeIsConserved(start, Step(a, cs[0]), cs[1..]);
    }
  }

  function Passed(cs: Calls): nat
    decreases |cs|
  {
    if cs == [] then 0 else cs[0].gap + Passed(cs[1..])
  }

  lemma {:induction false} TimePasses(a: Account, cs: Calls)
    requires Sound(a)
    ensures After(a, cs).time == a.time + Passed(cs)
    decreases |cs|
  {
    if cs != [] {
      TimePasses(Step(a, cs[0]), cs[1..]);
    }
  }

  /** No call of the run starts with carry and gap above the limit. */
  predicate NeverBehind(a: Account, cs: Calls)
    requires Sound(a)
    decreases |cs|
  {
    cs == [] || (a.carry + cs[0].gap <= MAX_CARRY && NeverBehind(Step(a, cs[0]), cs[1..]))
  }

  /** From the start, time is dropped in a run exactly when some call comes too late. */
  lemma {:induction false} DroppedExactlyWhen(a: Account, cs: Calls)
    requires Sound(a)
    ensures After(a, cs).dropped >= a.dropped
    ensures After(a, cs).dropped == a.dropped <==> NeverBehind(a, cs)
    decreases |cs|
  {
    if cs != [] {
      DropsExactlyWhen(a, cs[0]);
      DroppedExactlyWhen(Step(a, cs[0]), cs[1..]);
    }
  }

  /** A watch started at real time t accounts for every millisecond since. */
  lemma EveryMillisecond(t: nat, cs: Calls)
    ensures var z := After(Account(t, 0, 0, 0), cs);
      z.handed + z.carry + z.dropped == Passed(cs) && z.carry <= MAX_CARRY &&
      (NeverBehind(Account(t, 0, 0, 0), cs) ==> z.handed + z.carry == Passed(cs))
  {
    var a := Account(t, 0, 0, 0);
    TimeIsConserved(t, a, cs);
    TimePasses(a, cs);
    DroppedExactlyWhen(a, cs);
  }
}
