/**
 * Whole runs of SecurityAccess, power cycles and failing storage included: however a tester
 * mixes requests, session resets and reboots, the lockout bounds the wrong keys per time.
 */
module SecurityRuns {
  import opened Arithmetic
  import opened Bytes
  import opened Types
  import opened Security
  import Nvm
  import SecurityNvm

  /** saves, loads: the platform can write, or read, at that moment. */
  datatype Event =
    | RequestSeed(level: u8, bufLen: nat, outcome: SeedOutcome)
    | SendKey(keyLevel: u8, keyLen: nat, accepts: bool, saves: bool)
    | Reset
    | Tick
    | Reboot(loads: bool)

  /** The volatile state and what survives a power cycle. */
  datatype System = System(sec: State, records: Nvm.Records)

  predicate WellFormed(e: Event) {
    e.RequestSeed? && e.outcome.Generated? ==> |e.outcome.bytes| <= SEED_LEN
  }

  function VerdictOf(y: System, e: Event): Verdict {
    if e.SendKey? then Judge(y.sec, e.keyLevel, e.keyLen, e.accepts) else NotJudged(Ok)
  }

  function Loads(y: System, works: bool): SecurityNvm.Loaded {
    if works then SecurityNvm.LoadFrom(y.records) else SecurityNvm.Unreadable
  }

  function Step(cfg: Config, y: System, e: Event): System
    requires WellFormed(e)
  {
    match e
    case RequestSeed(level, bufLen, outcome) => y.(sec := AfterRequest(y.sec, level, bufLen, outcome))
    case SendKey(_, _, _, saves) =>
      var v := VerdictOf(y, e);
      System(AfterKey(y.sec, v), if saves && cfg.persistent then AfterSave(y.records, Saved(y.sec, v)) else y.records)
    case Reset => y.(sec := AfterReset(y.sec))
    case Tick => y.(sec := AfterTick(y.sec))
    case Reboot(loads) => y.(sec := Boot(cfg, Loads(y, loads)))
  }

  type Run = es: seq<Event> | forall e :: e in es ==> WellFormed(e)

  function After(cfg: Config, y: System, es: Run): System
    decreases |es|
  {
    if es == [] then y else After(cfg, Step(cfg, y, es[0]), es[1..])
  }

  /** A device that was never used: no record yet. */
  function FirstBoot(cfg: Config): System {
    System(Boot(cfg, SecurityNvm.LoadFrom(map[])), map[])
  }

  /** The power cycle gives attempts back: it ends a lockout, or comes up with a lower counter. */
  predicate Forgets(cfg: Config, y: System, e: Event) {
    e.Reboot? &&
    var z := Boot(cfg, Loads(y, e.loads));
    !z.lockedOut && (y.sec.lockedOut || z.failedAttempts < y.sec.failedAttempts)
  }

  /** A judged key whose record is not saved, or a power cycle whose record is not loaded. */
  predicate Misses(y: System, e: Event) {
    (!VerdictOf(y, e).NotJudged? && !e.saves) || (e.Reboot? && !e.loads)
  }

  /** What is counted over a run. */
  datatype Tally = Tally(failures: nat, ticks: nat, unlocks: nat, forgotten: nat, missed: nat)

  const NOTHING: Tally := Tally(0, 0, 0, 0, 0)

  function Plus(a: Tally, b: Tally): Tally {
    Tally(a.failures + b.failures, a.ticks + b.ticks, a.unlocks + b.unlocks, a.forgotten + b.forgotten,
          a.missed + b.missed)
  }

  function Once(p: bool): nat {
    if p then 1 else 0
  }

  function CountOf(cfg: Config, y: System, e: Event): Tally {
    var v := VerdictOf(y, e);
    Tally(Once(v.Wrong?), Once(e.Tick?), Once(v.Right?), Once(Forgets(cfg, y, e)), Once(Misses(y, e)))
  }

  function Count(cfg: Config, y: System, es: Run): Tally
    decreases |es|
  {
    if es == [] then NOTHING else Plus(CountOf(cfg, y, es[0]), Count(cfg, Step(cfg, y, es[0]), es[1..]))
  }

  // ---- What every step keeps, whatever the storage does ----

  /** Fewer failures than the maximum; a lockout has time left, no seed and a fresh counter. */
  predicate SoundState(cfg: Config, s: State) {
    && s.maxAttempts == cfg.maxAttempts > 0 && s.lockoutDuration == Duration(cfg)
    && s.failedAttempts < s.maxAttempts
    && if s.lockedOut then 0 < s.lockoutTimer && !s.seedPending && s.failedAttempts == 0 else s.lockoutTimer == 0
  }

  /** A record holds a counter below the maximum, or a full lockout. */
  predicate SoundRecord(cfg: Config, loaded: SecurityNvm.Loaded) {
    match loaded
    case Loaded(attempts, residual) =>
      attempts < cfg.maxAttempts && (residual == 0 || (residual == Duration(cfg) && attempts == 0))
    case Absent => true
    case _ => false
  }

  predicate Sound(cfg: Config, y: System) {
    SoundState(cfg, y.sec) && SoundRecord(cfg, SecurityNvm.LoadFrom(y.records))
  }

  lemma FirstBootSound(cfg: Config)
    requires cfg.maxAttempts > 0
    ensures Sound(cfg, FirstBoot(cfg)) && Mirrors(cfg, FirstBoot(cfg))
  {}

  lemma StepSound(cfg: Config, y: System, e: Event)
    requires WellFormed(e) && Sound(cfg, y)
    ensures Sound(cfg, Step(cfg, y, e))
  {
    hide SecurityNvm.LoadFrom, SecurityNvm.SaveTo, Issues;
    var saved := Saved(y.sec, VerdictOf(y, e));
    if saved.Some? {
      SecurityNvm.LoadUndoesSave(y.records, saved.value.0, saved.value.1);
    }
  }

  lemma {:induction false} RunSound(cfg: Config, y: System, es: Run)
    requires Sound(cfg, y)
    ensures Sound(cfg, After(cfg, y, es))
    decreases |es|
  {
    hide Sound, Step;
    if es != [] {
      StepSound(cfg, y, es[0]);
      RunSound(cfg, Step(cfg, y, es[0]), es[1..]);
    }
  }

  // ---- What working storage keeps besides ----

  /** The record is in step with the counter, and holds the full lockout while one runs. */
  predicate Mirrors(cfg: Config, y: System) {
    var s := y.sec;
    s.lockoutTimer <= Duration(cfg) &&
    match SecurityNvm.LoadFrom(y.records)
    case Loaded(attempts, residual) => attempts == s.failedAttempts && (s.lockedOut ==> residual == Duration(cfg))
    case Absent => s.failedAttempts == 0 && !s.lockedOut
    case _ => false
  }

  /**
   * Only a missed save or load takes the record out of step, and one judged key that is
   * saved, or one record that is loaded, brings it back.
   */
  lemma StepMirrors(cfg: Config, y: System, e: Event)
    requires WellFormed(e) && cfg.persistent && Sound(cfg, y)
    requires !Misses(y, e) && (VerdictOf(y, e).NotJudged? && !e.Reboot? ==> Mirrors(cfg, y))
    ensures Mirrors(cfg, Step(cfg, y, e))
  {
    hide SecurityNvm.LoadFrom, SecurityNvm.SaveTo, Issues;
    var saved := Saved(y.sec, VerdictOf(y, e));
    if saved.Some? {
      SecurityNvm.LoadUndoesSave(y.records, saved.value.0, saved.value.1);
    }
  }

  /** A run in which no save and no load fails forgets nothing, and stays in step. */
  lemma {:induction false} NothingMissedNothingForgotten(cfg: Config, y: System, es: Run)
    requires cfg.persistent && Sound(cfg, y) && Mirrors(cfg, y) && Count(cfg, y, es).missed == 0
    ensures Count(cfg, y, es).forgotten == 0 && Mirrors(cfg, After(cfg, y, es))
    decreases |es|
  {
    hide Sound, Step, Mirrors, Misses, Forgets, CountOf, Count, After;
    if es == [] {
      NoEvents(cfg, y);
    } else {
      Unfold(cfg, y, es);
      CountedOnce(cfg, y, es[0]);
      StepSound(cfg, y, es[0]);
      StepMirrors(cfg, y, es[0]);
      InStepForgetsNothing(cfg, y, es[0]);
      NothingMissedNothingForgotten(cfg, Step(cfg, y, es[0]), es[1..]);
    }
  }

  lemma CountedOnce(cfg: Config, y: System, e: Event)
    ensures CountOf(cfg, y, e).missed == Once(Misses(y, e)) && CountOf(cfg, y, e).forgotten == Once(Forgets(cfg, y, e))
    ensures CountOf(cfg, y, e).ticks == Once(e.Tick?)
  {
    hide Misses, Forgets, VerdictOf;
  }

  lemma InStepForgetsNothing(cfg: Config, y: System, e: Event)
    requires cfg.persistent && Sound(cfg, y) && Mirrors(cfg, y) && !Misses(y, e)
    ensures !Forgets(cfg, y, e)
  {
    hide SecurityNvm.LoadFrom;
  }

  // ---- The bound ----

  /** m for every full period d in t. */
  function Charge(m: nat, t: nat, d: nat): nat
    requires d > 0
  {
    m * (t / d)
  }

  /** What is left of a lockout, as far as its duration goes: a fail-closed boot sets a longer timer. */
  function Residual(s: State): nat {
    if s.lockoutTimer <= s.lockoutDuration then s.lockoutTimer else s.lockoutDuration
  }

  /** The most failures that t more ticks can see from state s on, with no unlock and nothing forgotten. */
  function Allowance(s: State, t: nat): int
    requires s.lockoutDuration > 0
  {
    if !s.lockedOut then s.maxAttempts - s.failedAttempts + Charge(s.maxAttempts, t, s.lockoutDuration)
    else if t < Residual(s) then 0
    else s.maxAttempts + Charge(s.maxAttempts, t - Residual(s), s.lockoutDuration)
  }

  lemma ChargeMonotone(m: nat, t: nat, u: nat, d: nat)
    requires t <= u && d > 0
    ensures Charge(m, t, d) <= Charge(m, u, d)
  {
    var p, q := t / d, u / d;
    assert t == p * d + t % d && u == q * d + u % d;
    if q < p {
      MulMonotone(q + 1, p, d);
    }
    MulMonotone(p, q, m);
  }

  /** One full period is worth m. */
  lemma ChargePeriod(m: nat, t: nat, d: nat)
    requires d > 0
    ensures Charge(m, t + d, d) == m + Charge(m, t, d)
    ensures t < d ==> Charge(m, t, d) == 0
  {
    var q, r := t / d, t % d;
    assert t + d == (q + 1) * d + r;
    DivUnique(t + d, d, q + 1, r);
    assert m * (q + 1) == m + m * q;
    if t < d {
      DivUnique(t, d, 0, t);
    }
  }

  lemma AllowanceMonotone(s: State, t: nat, u: nat)
    requires s.lockoutDuration > 0 && t <= u && s.failedAttempts <= s.maxAttempts
    ensures 0 <= Allowance(s, t) <= Allowance(s, u)
  {
    hide Charge, Residual;
    if !s.lockedOut {
      ChargeMonotone(s.maxAttempts, t, u, s.lockoutDuration);
    } else if Residual(s) <= t {
      ChargeMonotone(s.maxAttempts, t - Residual(s), u - Residual(s), s.lockoutDuration);
    }
  }

  /** A fresh lockout costs what its duration allows. */
  lemma FreshLockout(s: State, t: nat)
    requires s.lockedOut && Residual(s) == s.lockoutDuration > 0
    ensures Allowance(s, t) == Charge(s.maxAttempts, t, s.lockoutDuration)
  {
    hide Charge;
    if t < s.lockoutDuration {
      ChargePeriod(s.maxAttempts, t, s.lockoutDuration);
    } else {
      ChargePeriod(s.maxAttempts, t - s.lockoutDuration, s.lockoutDuration);
    }
  }

  /** No state allows less than a fresh lockout, none more than a fresh start. */
  lemma AllowanceBetween(s: State, t: nat)
    requires s.lockoutDuration > 0 && s.failedAttempts <= s.maxAttempts
    ensures var c := Charge(s.maxAttempts, t, s.lockoutDuration); c <= Allowance(s, t) <= s.maxAttempts + c
  {
    hide Charge;
    if s.lockedOut && t < Residual(s) {
      ChargePeriod(s.maxAttempts, t, s.lockoutDuration);
    } else if s.lockedOut {
      ChargePeriod(s.maxAttempts, t - Residual(s), s.lockoutDuration);
      ChargeMonotone(s.maxAttempts, t, t - Residual(s) + s.lockoutDuration, s.lockoutDuration);
      ChargeMonotone(s.maxAttempts, t - Residual(s), t, s.lockoutDuration);
    }
  }

  /** What u unlocks and f forgetful power cycles give back. */
  function Credit(m: u8, u: nat, f: nat): int {
    (m - 1) * u + m * f
  }

  lemma CreditAdds(m: u8, u: nat, f: nat, v: nat, g: nat)
    ensures Credit(m, u + v, f + g) == Credit(m, u, f) + Credit(m, v, g)
  {}

  /** One step uses up at most what the allowance gives for it and its own credit. */
  lemma StepAllowance(cfg: Config, y: System, e: Event, t: nat)
    requires WellFormed(e) && Sound(cfg, y)
    requires e.Tick? ==> t > 0
    ensures var z, c := Step(cfg, y, e), CountOf(cfg, y, e);
      Sound(cfg, z) &&
      c.failures + Allowance(z.sec, t - c.ticks) <=
        Allowance(y.sec, t) + Credit(cfg.maxAttempts, c.unlocks, c.forgotten)
  {
    hide SecurityNvm.LoadFrom, SecurityNvm.SaveTo, Issues, Allowance, AfterSave, Fail, Unlock, Boot, Credit;
    StepSound(cfg, y, e);
    NoCredit(cfg.maxAttempts);
    match e
    case SendKey(_, _, _, _) =>
      KeyAllowance(cfg, y.sec, VerdictOf(y, e), t);
    case Tick =>
      TickAllowance(cfg, y.sec, t);
    case Reboot(loads) =>
      RebootAllowance(cfg, y, loads, t);
    case _ =>
      SameAllowance(y.sec, Step(cfg, y, e).sec, t);
  }

  lemma SameAllowance(s: State, z: State, t: nat)
    requires s.lockoutDuration > 0 && z.lockoutDuration == s.lockoutDuration && z.maxAttempts == s.maxAttempts
    requires z.failedAttempts == s.failedAttempts && z.lockedOut == s.lockedOut && z.lockoutTimer == s.lockoutTimer
    ensures Allowance(z, t) == Allowance(s, t)
  {}

  lemma KeyAllowance(cfg: Config, s: State, v: Verdict, t: nat)
    requires SoundState(cfg, s) && (s.lockedOut ==> v.NotJudged?)
    ensures Once(v.Wrong?) + Allowance(AfterKey(s, v), t) <=
      Allowance(s, t) + Credit(cfg.maxAttempts, Once(v.Right?), 0)
  {
    hide Charge;
    var z := AfterKey(s, v);
    if z.lockedOut && !s.lockedOut {
      FreshLockout(z, t);
    }
  }

  lemma RebootAllowance(cfg: Config, y: System, loads: bool, t: nat)
    requires Sound(cfg, y)
    ensures Allowance(Boot(cfg, Loads(y, loads)), t) <=
      Allowance(y.sec, t) + Credit(cfg.maxAttempts, 0, Once(Forgets(cfg, y, Reboot(loads))))
  {
    hide SecurityNvm.LoadFrom, Charge;
    var z := Boot(cfg, Loads(y, loads));
    AllowanceBetween(y.sec, t);
    if z.lockedOut {
      FreshLockout(z, t);
    }
  }

  lemma TickAllowance(cfg: Config, s: State, t: nat)
    requires SoundState(cfg, s) && t > 0
    ensures Allowance(AfterTick(s), t - 1) <= Allowance(s, t)
  {
    hide Charge;
    var z := AfterTick(s);
    if !s.lockedOut || s.lockoutTimer > s.lockoutDuration {
      AllowanceMonotone(z, t - 1, t);
    } else if s.lockoutTimer <= t {
      assert z.lockedOut ==> t - 1 - Residual(z) == t - Residual(s);
    }
  }

  lemma {:induction false} FailuresWithinAllowance(cfg: Config, y: System, es: Run)
    requires Sound(cfg, y)
    ensures var c := Count(cfg, y, es);
      c.failures <= Allowance(y.sec, c.ticks) + Credit(cfg.maxAttempts, c.unlocks, c.forgotten)
    decreases |es|
  {
    hide Step, Sound, Allowance, Credit, CountOf;
    SoundBasics(cfg, y);
    if es == [] {
      AllowanceMonotone(y.sec, 0, 0);
      assert Credit(cfg.maxAttempts, 0, 0) == 0 by { NoCredit(cfg.maxAttempts); }
    } else {
      var c, d := CountOf(cfg, y, es[0]), Count(cfg, Step(cfg, y, es[0]), es[1..]);
      StepSound(cfg, y, es[0]);
      CountedOnce(cfg, y, es[0]);
      StepAllowance(cfg, y, es[0], c.ticks + d.ticks);
      FailuresWithinAllowance(cfg, Step(cfg, y, es[0]), es[1..]);
      CreditAdds(cfg.maxAttempts, c.unlocks, c.forgotten, d.unlocks, d.forgotten);
    }
  }

  lemma NoCredit(m: u8)
    ensures Credit(m, 0, 0) == 0
  {}

  lemma SoundBasics(cfg: Config, y: System)
    requires Sound(cfg, y)
    ensures y.sec.lockoutDuration == Duration(cfg) > 0 && y.sec.maxAttempts == cfg.maxAttempts
    ensures y.sec.failedAttempts < y.sec.maxAttempts
    ensures y.sec.lockedOut ==> y.sec.lockoutTimer > 0
  {}

  /** At most max_attempts for each full lockout duration, one more round, and the credits. */
  function Bound(cfg: Config, c: Tally): int {
    cfg.maxAttempts * (c.ticks / Duration(cfg) + 1 + c.forgotten) + (cfg.maxAttempts - 1) * c.unlocks
  }

  /**
   * In every window of every run, whatever the storage does, the wrong keys number at most
   * max_attempts for each full lockout duration that passes, one more round, one more for
   * each power cycle that forgets, and max_attempts - 1 for each unlock.
   */
  lemma LockoutBound(cfg: Config, before: Run, window: Run)
    requires cfg.maxAttempts > 0
    ensures var c := Count(cfg, After(cfg, FirstBoot(cfg), before), window); c.failures <= Bound(cfg, c)
  {
    hide Sound, FirstBoot, Charge, After, Count, Mirrors, Allowance;
    FirstBootSound(cfg);
    RunSound(cfg, FirstBoot(cfg), before);
    var y := After(cfg, FirstBoot(cfg), before);
    var c := Count(cfg, y, window);
    FailuresWithinAllowance(cfg, y, window);
    SoundBasics(cfg, y);
    AllowanceBetween(y.sec, c.ticks);
    BoundIsSum(cfg, c);
  }

  lemma BoundIsSum(cfg: Config, c: Tally)
    requires cfg.maxAttempts > 0
    ensures Bound(cfg, c) == cfg.maxAttempts + Charge(cfg.maxAttempts, c.ticks, Duration(cfg))
                             + Credit(cfg.maxAttempts, c.unlocks, c.forgotten)
  {
    assert cfg.maxAttempts * (c.ticks / Duration(cfg) + 1 + c.forgotten) ==
      cfg.maxAttempts * (c.ticks / Duration(cfg)) + cfg.maxAttempts + cfg.maxAttempts * c.forgotten;
  }

  /** With a record that is always saved and loaded, power cycles give nothing back. */
  lemma PowerCyclesGiveNothing(cfg: Config, before: Run, window: Run)
    requires cfg.maxAttempts > 0 && cfg.persistent
    requires Count(cfg, FirstBoot(cfg), before).missed == 0
    requires Count(cfg, After(cfg, FirstBoot(cfg), before), window).missed == 0
    ensures var c := Count(cfg, After(cfg, FirstBoot(cfg), before), window);
      c.failures <= cfg.maxAttempts * (c.ticks / Duration(cfg) + 1) + (cfg.maxAttempts - 1) * c.unlocks
  {
    hide Sound, FirstBoot, After, Count, Mirrors;
    FirstBootSound(cfg);
    RunSound(cfg, FirstBoot(cfg), before);
    NothingMissedNothingForgotten(cfg, FirstBoot(cfg), before);
    NothingMissedNothingForgotten(cfg, After(cfg, FirstBoot(cfg), before), window);
    LockoutBound(cfg, before, window);
  }

  // ---- The bound is exact ----

  const SOME_SEED: seq<byte> := [1, 0, 0, 0, 0, 0, 0, 0]
  const ASK: Event := RequestSeed(1, SEED_LEN, Generated(SOME_SEED))

  /** One seed request and one wrong key. */
  function Try(saves: bool): Run {
    [ASK] + [SendKey(2, KEY_LEN, false, saves)]
  }

  function Tries(k: nat, saves: bool): Run {
    if k == 0 then [] else Try(saves) + Tries(k - 1, saves)
  }

  function Wait(t: nat): Run {
    if t == 0 then [] else [Tick] + Wait(t - 1)
  }

  /** Use up all attempts, then n times wait a lockout out and use them up again. */
  function Patient(cfg: Config, n: nat): Run {
    if n == 0 then Tries(cfg.maxAttempts, true)
    else Tries(cfg.maxAttempts, true) + (Wait(Duration(cfg)) + Patient(cfg, n - 1))
  }

  /** All attempts but one, then the right key, then a new session. */
  function Relock(cfg: Config): Run
    requires cfg.maxAttempts > 0
  {
    Tries(cfg.maxAttempts - 1, true) + ([ASK] + ([SendKey(2, KEY_LEN, true, true)] + [Reset]))
  }

  /** All attempts while nothing can be saved, then a power cycle. */
  function Lapse(cfg: Config): Run {
    Tries(cfg.maxAttempts, false) + [Reboot(true)]
  }

  /** f lapses, u unlocks, then n lockouts. */
  function Worst(cfg: Config, n: nat, u: nat, f: nat): Run
    requires cfg.maxAttempts > 0
    decreases f, u
  {
    if f > 0 then Lapse(cfg) + Worst(cfg, n, u, f - 1)
    else if u > 0 then Relock(cfg) + Worst(cfg, n, u - 1, 0)
    else Patient(cfg, n)
  }

  lemma {:induction false} Concatenate(cfg: Config, y: System, es: Run, fs: Run)
    ensures After(cfg, y, es + fs) == After(cfg, After(cfg, y, es), fs)
    ensures Count(cfg, y, es + fs) == Plus(Count(cfg, y, es), Count(cfg, After(cfg, y, es), fs))
    decreases |es|
  {
    hide *;
    if es == [] {
      assert es + fs == fs;
      NoEvents(cfg, y);
      PlusNothing(Count(cfg, y, fs));
    } else {
      Unfold(cfg, y, es);
      Unfold(cfg, y, es + fs);
      assert (es + fs)[1..] == es[1..] + fs;
      var z := Step(cfg, y, es[0]);
      Concatenate(cfg, z, es[1..], fs);
      PlusAssociates(CountOf(cfg, y, es[0]), Count(cfg, z, es[1..]), Count(cfg, After(cfg, z, es[1..]), fs));
    }
  }

  lemma Unfold(cfg: Config, y: System, es: Run)
    requires es != []
    ensures var z := Step(cfg, y, es[0]);
      After(cfg, y, es) == After(cfg, z, es[1..]) &&
      Count(cfg, y, es) == Plus(CountOf(cfg, y, es[0]), Count(cfg, z, es[1..]))
  {
    hide Step, CountOf;
  }

  lemma PlusNothing(c: Tally)
    ensures Plus(NOTHING, c) == c && Plus(c, NOTHING) == c
  {}

  lemma PlusAssociates(a: Tally, b: Tally, c: Tally)
    ensures Plus(Plus(a, b), c) == Plus(a, Plus(b, c))
  {}

  lemma OneEvent(cfg: Config, y: System, e: Event)
    requires WellFormed(e)
    ensures After(cfg, y, [e]) == Step(cfg, y, e) && Count(cfg, y, [e]) == CountOf(cfg, y, e)
  {
    hide Step, CountOf;
    assert [e][1..] == [];
  }

  lemma NoEvents(cfg: Config, y: System)
    ensures After(cfg, y, []) == y && Count(cfg, y, []) == NOTHING
  {}

  /** No level active; a more failures to spare. */
  predicate Open(cfg: Config, s: State, a: nat) {
    s.maxAttempts == cfg.maxAttempts && s.lockoutDuration == Duration(cfg) && s.activeLevel == LOCKED_LEVEL &&
    !s.lockedOut && s.failedAttempts + a == s.maxAttempts
  }

  predicate JustLocked(cfg: Config, s: State, t: nat) {
    s.maxAttempts == cfg.maxAttempts && s.lockoutDuration == Duration(cfg) && s.activeLevel == LOCKED_LEVEL &&
    s.lockedOut && s.lockoutTimer == t && s.failedAttempts == 0
  }

  /** A seed is out, and the next key of level 1 is judged. */
  predicate Asked(cfg: Config, s: State, a: nat) {
    Open(cfg, s, a) && s.seedPending && s.pendingLevel == 1
  }

  lemma Ask(cfg: Config, y: System, a: nat)
    requires Open(cfg, y.sec, a)
    ensures WellFormed(ASK)
    ensures Asked(cfg, Step(cfg, y, ASK).sec, a) && Step(cfg, y, ASK).records == y.records
    ensures CountOf(cfg, y, ASK) == NOTHING
  {
    assert Generated(SOME_SEED).bytes[0] != 0;
    assert Issues(y.sec, 1, SEED_LEN, Generated(SOME_SEED));
  }

  /** Failures only: a of them, each missed by the storage if saves is false. */
  function Wrongs(a: nat, saves: bool): Tally {
    Tally(a, 0, 0, 0, if saves then 0 else a)
  }

  lemma WrongKey(cfg: Config, y: System, a: nat, saves: bool)
    requires a > 0 && Asked(cfg, y.sec, a)
    ensures var key := SendKey(2, KEY_LEN, false, saves); var z := Step(cfg, y, key);
      CountOf(cfg, y, key) == Wrongs(1, saves) && (!saves ==> z.records == y.records) &&
      if a == 1 then JustLocked(cfg, z.sec, Duration(cfg)) else Open(cfg, z.sec, a - 1)
  {
    hide SecurityNvm.SaveTo;
  }

  lemma OneTry(cfg: Config, y: System, a: nat, saves: bool)
    requires a > 0 && Open(cfg, y.sec, a)
    ensures var z := After(cfg, y, Try(saves));
      Count(cfg, y, Try(saves)) == Wrongs(1, saves) && (!saves ==> z.records == y.records) &&
      if a == 1 then JustLocked(cfg, z.sec, Duration(cfg)) else Open(cfg, z.sec, a - 1)
  {
    hide Open, Asked, JustLocked, Count, After, Step, CountOf, Wrongs, Plus;
    var key := SendKey(2, KEY_LEN, false, saves);
    Ask(cfg, y, a);
    WrongKey(cfg, Step(cfg, y, ASK), a, saves);
    OneEvent(cfg, y, ASK);
    OneEvent(cfg, Step(cfg, y, ASK), key);
    Concatenate(cfg, y, [ASK], [key]);
    PlusNothing(Wrongs(1, saves));
  }

  lemma WrongsAdd(a: nat, saves: bool)
    ensures Wrongs(0, saves) == NOTHING
    ensures a > 0 ==> Wrongs(a, saves) == Plus(Wrongs(1, saves), Wrongs(a - 1, saves))
  {}

  lemma {:induction false} ManyTries(cfg: Config, y: System, a: nat, b: nat, saves: bool)
    requires a <= b && b > 0 && Open(cfg, y.sec, b)
    ensures var z := After(cfg, y, Tries(a, saves));
      Count(cfg, y, Tries(a, saves)) == Wrongs(a, saves) && (!saves ==> z.records == y.records) &&
      if a == b then JustLocked(cfg, z.sec, Duration(cfg)) else Open(cfg, z.sec, b - a)
    decreases a
  {
    hide Open, JustLocked, Count, After, Try, Wrongs, Plus, WellFormed;
    WrongsAdd(a, saves);
    PlusNothing(Wrongs(1, saves));
    if a == 0 {
      NoEvents(cfg, y);
    } else {
      OneTry(cfg, y, b, saves);
      var z := After(cfg, y, Try(saves));
      Concatenate(cfg, y, Try(saves), Tries(a - 1, saves));
      if b == 1 {
        NoEvents(cfg, z);
      } else {
        ManyTries(cfg, z, a - 1, b - 1, saves);
      }
    }
  }

  function Idle(t: nat): Tally {
    Tally(0, t, 0, 0, 0)
  }

  lemma IdleAdds(t: nat)
    requires t > 0
    ensures Idle(t) == Plus(Idle(1), Idle(t - 1)) && Idle(0) == NOTHING
  {}

  lemma {:induction false} WaitOut(cfg: Config, y: System, t: nat)
    requires t > 0 && JustLocked(cfg, y.sec, t)
    ensures Count(cfg, y, Wait(t)) == Idle(t)
    ensures Open(cfg, After(cfg, y, Wait(t)).sec, cfg.maxAttempts)
    decreases t
  {
    hide Open, JustLocked, Count, After, Step, CountOf, Idle, Plus;
    var z := Step(cfg, y, Tick);
    IdleAdds(t);
    TickWait(cfg, y, t);
    OneEvent(cfg, y, Tick);
    Concatenate(cfg, y, [Tick], Wait(t - 1));
    if t == 1 {
      NoEvents(cfg, z);
    } else {
      WaitOut(cfg, z, t - 1);
    }
  }

  lemma TickWait(cfg: Config, y: System, t: nat)
    requires t > 0 && JustLocked(cfg, y.sec, t)
    ensures var z := Step(cfg, y, Tick);
      CountOf(cfg, y, Tick) == Idle(1) && z.records == y.records &&
      if t == 1 then Open(cfg, z.sec, cfg.maxAttempts) else JustLocked(cfg, z.sec, t - 1)
  {}

  lemma {:induction false} PatientCount(cfg: Config, y: System, n: nat)
    requires cfg.maxAttempts > 0 && Open(cfg, y.sec, cfg.maxAttempts)
    ensures Count(cfg, y, Patient(cfg, n)) == Tally(cfg.maxAttempts * (n + 1), n * Duration(cfg), 0, 0, 0)
    decreases n
  {
    hide Open, JustLocked, Count, After, Tries, Wait;
    var d, m, tries := Duration(cfg), cfg.maxAttempts, Tries(cfg.maxAttempts, true);
    ManyTries(cfg, y, m, m, true);
    if n > 0 {
      var rest := Wait(d) + Patient(cfg, n - 1);
      var z := After(cfg, y, tries);
      WaitOut(cfg, z, d);
      Concatenate(cfg, y, tries, rest);
      Concatenate(cfg, z, Wait(d), Patient(cfg, n - 1));
      PatientCount(cfg, After(cfg, z, Wait(d)), n - 1);
      Peel(n, d);
      Peel(n, m);
    }
  }

  lemma Peel(n: nat, d: nat)
    requires n > 0
    ensures (n - 1) * d + d == n * d && d * n + d == d * (n + 1)
  {}

  lemma RelockCount(cfg: Config, y: System)
    requires cfg.maxAttempts > 0 && Open(cfg, y.sec, cfg.maxAttempts)
    ensures Count(cfg, y, Relock(cfg)) == Tally(cfg.maxAttempts - 1, 0, 1, 0, 0)
    ensures Open(cfg, After(cfg, y, Relock(cfg)).sec, cfg.maxAttempts)
  {
    hide Open, Asked, JustLocked, Count, After, Tries, CountOf, Step, Plus, Wrongs;
    var m, tries, key := cfg.maxAttempts, Tries(cfg.maxAttempts - 1, true), SendKey(2, KEY_LEN, true, true);
    ManyTries(cfg, y, m - 1, m, true);
    var z := After(cfg, y, tries);
    Ask(cfg, z, 1);
    var asked := Step(cfg, z, ASK);
    RightKey(cfg, asked);
    var unlocked := Step(cfg, asked, key);
    OneEvent(cfg, z, ASK);
    OneEvent(cfg, asked, key);
    OneEvent(cfg, unlocked, Reset);
    Concatenate(cfg, asked, [key], [Reset]);
    Concatenate(cfg, z, [ASK], [key] + [Reset]);
    Concatenate(cfg, y, tries, [ASK] + ([key] + [Reset]));
    var once := NOTHING.(unlocks := 1);
    PlusNothing(once);
    WrongsAndUnlock(m - 1, once);
  }

  lemma WrongsAndUnlock(a: nat, once: Tally)
    requires once == NOTHING.(unlocks := 1)
    ensures Plus(Wrongs(a, true), once) == Tally(a, 0, 1, 0, 0)
  {}

  lemma RightKey(cfg: Config, y: System)
    requires Asked(cfg, y.sec, 1)
    ensures var key := SendKey(2, KEY_LEN, true, true); var z := Step(cfg, y, key);
      CountOf(cfg, y, key) == NOTHING.(unlocks := 1) && CountOf(cfg, z, Reset) == NOTHING &&
      Open(cfg, Step(cfg, z, Reset).sec, cfg.maxAttempts)
  {
    hide SecurityNvm.SaveTo;
  }

  /** After a lapse the device is as it was before it was ever used. */
  lemma LapseCount(cfg: Config, y: System)
    requires cfg.maxAttempts > 0 && Open(cfg, y.sec, cfg.maxAttempts) && SecurityNvm.LoadFrom(y.records).Absent?
    ensures Count(cfg, y, Lapse(cfg)) == Tally(cfg.maxAttempts, 0, 0, 1, cfg.maxAttempts)
    ensures var z := After(cfg, y, Lapse(cfg)); Open(cfg, z.sec, cfg.maxAttempts) && z.records == y.records
  {
    hide SecurityNvm.LoadFrom, Count, After, Tries;
    var tries := Tries(cfg.maxAttempts, false);
    ManyTries(cfg, y, cfg.maxAttempts, cfg.maxAttempts, false);
    OneEvent(cfg, After(cfg, y, tries), Reboot(true));
    Concatenate(cfg, y, tries, [Reboot(true)]);
  }

  function WorstTally(cfg: Config, n: nat, u: nat, f: nat): Tally
    requires cfg.maxAttempts > 0
  {
    var m := cfg.maxAttempts;
    Tally(m * (n + 1) + (m - 1) * u + m * f, n * Duration(cfg), u, f, m * f)
  }

  lemma WorstAdds(cfg: Config, n: nat, u: nat, f: nat)
    requires cfg.maxAttempts > 0
    ensures f > 0 ==>
      WorstTally(cfg, n, u, f) == Plus(Tally(cfg.maxAttempts, 0, 0, 1, cfg.maxAttempts), WorstTally(cfg, n, u, f - 1))
    ensures u > 0 ==>
      WorstTally(cfg, n, u, f) == Plus(Tally(cfg.maxAttempts - 1, 0, 1, 0, 0), WorstTally(cfg, n, u - 1, f))
    ensures WorstTally(cfg, n, 0, 0) == Tally(cfg.maxAttempts * (n + 1), n * Duration(cfg), 0, 0, 0)
  {
    var m := cfg.maxAttempts;
    if f > 0 {
      assert m * f == m * (f - 1) + m;
    }
    if u > 0 {
      assert (m - 1) * u == (m - 1) * (u - 1) + (m - 1);
    }
  }

  lemma {:induction false} WorstCount(cfg: Config, y: System, n: nat, u: nat, f: nat)
    requires cfg.maxAttempts > 0 && Open(cfg, y.sec, cfg.maxAttempts)
    requires f > 0 ==> SecurityNvm.LoadFrom(y.records).Absent?
    ensures Count(cfg, y, Worst(cfg, n, u, f)) == WorstTally(cfg, n, u, f)
    decreases f, u
  {
    hide Open, Count, After, SecurityNvm.LoadFrom, Lapse, Relock, Patient, WorstTally, Plus;
    WorstAdds(cfg, n, u, f);
    if f > 0 {
      LapseCount(cfg, y);
      Concatenate(cfg, y, Lapse(cfg), Worst(cfg, n, u, f - 1));
      WorstCount(cfg, After(cfg, y, Lapse(cfg)), n, u, f - 1);
    } else if u > 0 {
      RelockCount(cfg, y);
      Concatenate(cfg, y, Relock(cfg), Worst(cfg, n, u - 1, 0));
      WorstCount(cfg, After(cfg, y, Relock(cfg)), n, u - 1, 0);
    } else {
      PatientCount(cfg, y, n);
    }
  }

  /**
   * For every number of lockout durations, unlocks and forgetful power cycles some run from
   * power-on has just these and reaches the bound; without such power cycles it misses no save.
   */
  lemma BoundIsReached(cfg: Config, n: nat, u: nat, f: nat)
    requires cfg.maxAttempts > 0
    ensures var c := Count(cfg, FirstBoot(cfg), Worst(cfg, n, u, f));
      c.failures == Bound(cfg, c) && c.ticks == n * Duration(cfg) && c.unlocks == u && c.forgotten == f &&
      (f == 0 ==> c.missed == 0)
  {
    hide Count, Worst;
    var d, m, c := Duration(cfg), cfg.maxAttempts, Count(cfg, FirstBoot(cfg), Worst(cfg, n, u, f));
    WorstCount(cfg, FirstBoot(cfg), n, u, f);
    DivUnique(n * d, d, n, 0);
    assert m * (n + 1 + f) == m * (n + 1) + m * f;
  }

  // ---- Which power cycles keep the bound ----

  /**
   * A power cycle in any reachable state keeps the allowance of that state, for every
   * unlock-free and forget-free continuation, exactly when it does not forget.
   */
  lemma KeepsBoundExactlyWhen(cfg: Config, y: System, loads: bool)
    requires Sound(cfg, y)
    ensures var z := Step(cfg, y, Reboot(loads));
      (forall w: Run | Count(cfg, z, w).unlocks == 0 && Count(cfg, z, w).forgotten == 0 ::
        Count(cfg, z, w).failures <= Allowance(y.sec, Count(cfg, z, w).ticks)) <==> !Forgets(cfg, y, Reboot(loads))
  {
    hide SecurityNvm.LoadFrom, Count, Allowance, Tries;
    var z := Step(cfg, y, Reboot(loads));
    if Forgets(cfg, y, Reboot(loads)) {
      var a := cfg.maxAttempts - z.sec.failedAttempts;
      StepSound(cfg, y, Reboot(loads));
      ManyTries(cfg, z, a, a, true);
      var w := Tries(a, true);
      assert Count(cfg, z, w).failures > Allowance(y.sec, Count(cfg, z, w).ticks) by { AllowanceAtOnce(y.sec); }
    } else {
      forall w: Run | Count(cfg, z, w).unlocks == 0 && Count(cfg, z, w).forgotten == 0
        ensures Count(cfg, z, w).failures <= Allowance(y.sec, Count(cfg, z, w).ticks)
      {
        StepAllowance(cfg, y, Reboot(loads), Count(cfg, z, w).ticks);
        FailuresWithinAllowance(cfg, z, w);
        NoCredit(cfg.maxAttempts);
      }
    }
  }

  lemma AllowanceAtOnce(s: State)
    requires s.lockoutDuration > 0 && (s.lockedOut ==> s.lockoutTimer > 0)
    ensures Allowance(s, 0) == if s.lockedOut then 0 else s.maxAttempts - s.failedAttempts
  {
    hide Charge;
    ChargePeriod(s.maxAttempts, 0, s.lockoutDuration);
  }

  // ---- A reboot restarts even a lockout that was waited out ----

  /**
   * The record is not touched when a lockout runs out, so a power cycle that loads it imposes
   * the full duration again exactly when the record still holds it.
   */
  lemma RebootRestartsLockout(cfg: Config, y: System)
    requires cfg.persistent && Sound(cfg, y)
    ensures var z := Step(cfg, y, Reboot(true)).sec;
      (z.lockedOut <==> SecurityNvm.LoadFrom(y.records) == SecurityNvm.Loaded(0, Duration(cfg))) &&
      (z.lockedOut ==> z.lockoutTimer == Duration(cfg)) &&
      (Mirrors(cfg, y) ==> (y.sec.lockedOut ==> z.lockedOut) && z.failedAttempts == y.sec.failedAttempts)
  {
    hide SecurityNvm.LoadFrom;
  }

  /** Whether the last key that was judged and saved started a lockout; was: the answer before the run. */
  predicate LastSavedLocked(cfg: Config, y: System, es: Run, was: bool)
    decreases |es|
  {
    if es == [] then was
    else
      var z := Step(cfg, y, es[0]);
      LastSavedLocked(cfg, z, es[1..], if Saves(y, es[0]) then z.sec.lockedOut else was)
  }

  predicate Saves(y: System, e: Event) {
    !VerdictOf(y, e).NotJudged? && e.saves
  }

  lemma StepRecordsLockout(cfg: Config, y: System, e: Event)
    requires cfg.persistent && WellFormed(e) && Sound(cfg, y)
    ensures var z, held := Step(cfg, y, e), SecurityNvm.Loaded(0, Duration(cfg));
      SecurityNvm.LoadFrom(z.records) == held <==>
        if Saves(y, e) then z.sec.lockedOut else SecurityNvm.LoadFrom(y.records) == held
  {
    hide SecurityNvm.LoadFrom, SecurityNvm.SaveTo, Issues;
    var saved := Saved(y.sec, VerdictOf(y, e));
    if saved.Some? {
      SecurityNvm.LoadUndoesSave(y.records, saved.value.0, saved.value.1);
    }
  }

  lemma {:induction false} RecordIsHistory(cfg: Config, y: System, es: Run, was: bool)
    requires cfg.persistent && Sound(cfg, y)
    requires was <==> SecurityNvm.LoadFrom(y.records) == SecurityNvm.Loaded(0, Duration(cfg))
    ensures SecurityNvm.LoadFrom(After(cfg, y, es).records) == SecurityNvm.Loaded(0, Duration(cfg))
      <==> LastSavedLocked(cfg, y, es, was)
    decreases |es|
  {
    hide Sound, Step, SecurityNvm.LoadFrom;
    if es != [] {
      var z := Step(cfg, y, es[0]);
      StepSound(cfg, y, es[0]);
      StepRecordsLockout(cfg, y, es[0]);
      RecordIsHistory(cfg, z, es[1..], if Saves(y, es[0]) then z.sec.lockedOut else was);
    }
  }

  /**
   * After any run, a power cycle that loads the record locks for the full duration exactly
   * when the last judged key that was saved started a lockout.
   */
  lemma RebootLocksByHistory(cfg: Config, es: Run)
    requires cfg.maxAttempts > 0 && cfg.persistent
    ensures var z := Step(cfg, After(cfg, FirstBoot(cfg), es), Reboot(true)).sec;
      (z.lockedOut <==> LastSavedLocked(cfg, FirstBoot(cfg), es, false)) &&
      (z.lockedOut ==> z.lockoutTimer == Duration(cfg))
  {
    FirstBootSound(cfg);
    hide Sound, Step, After, LastSavedLocked, Mirrors;
    RunSound(cfg, FirstBoot(cfg), es);
    RecordIsHistory(cfg, FirstBoot(cfg), es, false);
    RebootRestartsLockout(cfg, After(cfg, FirstBoot(cfg), es));
  }

  /** Such a run: all attempts used up, the lockout waited out, then a power cycle. */
  lemma ServedLockoutReturns(cfg: Config)
    requires cfg.maxAttempts > 0 && cfg.persistent
    ensures var y := After(cfg, FirstBoot(cfg), Tries(cfg.maxAttempts, true) + Wait(Duration(cfg)));
      !y.sec.lockedOut && Step(cfg, y, Reboot(true)).sec.lockedOut
  {
    hide Sound, After, Tries, Wait, FirstBoot, Step, Count, Mirrors;
    var f, tries := FirstBoot(cfg), Tries(cfg.maxAttempts, true);
    var z := After(cfg, f, tries);
    FirstBootOpen(cfg);
    FirstBootSound(cfg);
    ManyTries(cfg, f, cfg.maxAttempts, cfg.maxAttempts, true);
    RunSound(cfg, f, tries);
    NothingMissedNothingForgotten(cfg, f, tries);
    LockedRecord(cfg, z);
    WaitOut(cfg, z, Duration(cfg));
    Concatenate(cfg, f, tries, Wait(Duration(cfg)));
    RunSound(cfg, z, Wait(Duration(cfg)));
    WaitKeepsRecords(cfg, z, Duration(cfg));
    RebootRestartsLockout(cfg, After(cfg, z, Wait(Duration(cfg))));
  }

  lemma FirstBootOpen(cfg: Config)
    requires cfg.maxAttempts > 0
    ensures Open(cfg, FirstBoot(cfg).sec, cfg.maxAttempts)
  {}

  lemma LockedRecord(cfg: Config, y: System)
    requires Sound(cfg, y) && Mirrors(cfg, y) && y.sec.lockedOut
    ensures SecurityNvm.LoadFrom(y.records) == SecurityNvm.Loaded(0, Duration(cfg))
  {
    hide SecurityNvm.LoadFrom;
  }

  lemma {:induction false} WaitKeepsRecords(cfg: Config, y: System, t: nat)
    ensures After(cfg, y, Wait(t)).records == y.records
    decreases t
  {
    if t > 0 {
      assert Wait(t)[1..] == Wait(t - 1);
      WaitKeepsRecords(cfg, Step(cfg, y, Tick), t - 1);
    }
  }
}
