/**
 * What a tester sees of SecurityAccess (core/uds_security.c): in every reachable state the
 * effect of each request on the fields, the record and the answer, whatever the storage did.
 */
module SecurityEffects {
  import opened Bytes
  import opened Types
  import opened Security
  import opened SecurityRuns
  import Nvm
  import SecurityNvm

  /** A pending seed belongs to a seed level and is not all zero. */
  predicate SeedSound(s: State) {
    s.seedPending ==> s.pendingLevel % 2 == 1 && exists i :: 0 <= i < |s.seed| && s.seed[i] != 0
  }

  lemma StepSeedSound(cfg: Config, y: System, e: Event)
    requires WellFormed(e) && SeedSound(y.sec)
    ensures SeedSound(Step(cfg, y, e).sec)
  {
    hide SecurityNvm.LoadFrom, SecurityNvm.SaveTo, AfterSave;
  }

  lemma {:induction false} RunSeedSound(cfg: Config, y: System, es: Run)
    requires SeedSound(y.sec)
    ensures SeedSound(After(cfg, y, es).sec)
    decreases |es|
  {
    hide SeedSound, Step;
    if es != [] {
      StepSeedSound(cfg, y, es[0]);
      RunSeedSound(cfg, Step(cfg, y, es[0]), es[1..]);
    }
  }

  function Reached(cfg: Config, es: Run): System {
    After(cfg, FirstBoot(cfg), es)
  }

  lemma ReachedSound(cfg: Config, es: Run)
    requires cfg.maxAttempts > 0
    ensures Sound(cfg, Reached(cfg, es)) && SeedSound(Reached(cfg, es).sec)
  {
    hide Sound, After, Mirrors;
    FirstBootSound(cfg);
    RunSound(cfg, FirstBoot(cfg), es);
    RunSeedSound(cfg, FirstBoot(cfg), es);
  }

  // ---- A key ----

  /** Whether a key is judged at all: a seed is out, no lockout runs, and there is a key. */
  predicate IsJudged(s: State, keyLen: nat) {
    s.seedPending && !s.lockedOut && keyLen > 0
  }

  /** The one way to unlock: four bytes that are accepted, for the level above the one whose seed is out. */
  predicate Unlocks(s: State, level: u8, keyLen: nat, accepts: bool) {
    IsJudged(s, keyLen) && level == s.pendingLevel + 1 && keyLen == 4 && accepts
  }

  /**
   * In every reachable state: a key that is judged, for whatever level, uses up the seed. It
   * unlocks the pending level and clears the counter, or it counts as a failure, the last of
   * which starts the full lockout. A key that is not judged changes nothing.
   */
  lemma KeyEffect(cfg: Config, es: Run, level: u8, keyLen: nat, accepts: bool, saves: bool)
    requires cfg.maxAttempts > 0
    ensures var y := Reached(cfg, es); var z := Step(cfg, y, SendKey(level, keyLen, accepts, saves));
      && (!IsJudged(y.sec, keyLen) ==> z == y)
      && (IsJudged(y.sec, keyLen) ==>
            && !z.sec.seedPending
            && (if Unlocks(y.sec, level, keyLen, accepts) then
                  z.sec.activeLevel == y.sec.pendingLevel && z.sec.failedAttempts == 0 && !z.sec.lockedOut
                else if y.sec.failedAttempts + 1 < cfg.maxAttempts then
                  z.sec.activeLevel == y.sec.activeLevel && z.sec.failedAttempts == y.sec.failedAttempts + 1 &&
                  !z.sec.lockedOut
                else
                  z.sec.activeLevel == y.sec.activeLevel && z.sec.failedAttempts == 0 && z.sec.lockedOut &&
                  z.sec.lockoutTimer == Duration(cfg)))
  {
    hide After, SecurityNvm.LoadFrom, SecurityNvm.SaveTo, FirstBoot;
    ReachedSound(cfg, es);
    hide Reached;
  }

  /** A judged key leaves in the record just the counter or the lockout it led to, if that could be saved. */
  lemma KeyRecord(cfg: Config, es: Run, level: u8, keyLen: nat, accepts: bool, saves: bool)
    requires cfg.maxAttempts > 0 && IsJudged(Reached(cfg, es).sec, keyLen)
    ensures var y := Reached(cfg, es); var z := Step(cfg, y, SendKey(level, keyLen, accepts, saves));
      if saves && cfg.persistent then
        SecurityNvm.LoadFrom(z.records) ==
          SecurityNvm.Loaded(z.sec.failedAttempts, if z.sec.lockedOut then Duration(cfg) else 0) &&
        forall key :: key in y.records && key != Nvm.KEY_SEC_STATE ==>
          key in z.records && z.records[key] == y.records[key]
      else z.records == y.records
  {
    hide After, SecurityNvm.LoadFrom, FirstBoot, SecurityNvm.Record;
    ReachedSound(cfg, es);
    var y := Reached(cfg, es);
    hide Reached;
    var saved := Saved(y.sec, VerdictOf(y, SendKey(level, keyLen, accepts, saves)));
    if saved.Some? {
      SecurityNvm.LoadUndoesSave(y.records, saved.value.0, saved.value.1);
    }
  }

  /** And the answer to it, in terms of the state before. */
  lemma KeyAnswer(cfg: Config, es: Run, level: u8, keyLen: nat, accepts: bool)
    requires cfg.maxAttempts > 0
    ensures var s := Reached(cfg, es).sec; var status := KeyStatus(s, Judge(s, level, keyLen, accepts));
      && (s.lockedOut || !s.seedPending ==> status == ErrSecSeedUnavailable)
      && (!s.lockedOut && s.seedPending && keyLen == 0 ==> status == ErrInvalidParam)
      && (status == Ok <==> Unlocks(s, level, keyLen, accepts))
      && (IsJudged(s, keyLen) && status != Ok ==>
            status == if s.failedAttempts + 1 >= cfg.maxAttempts then ErrSecAttemptExceeded
                      else if level == s.pendingLevel + 1 then ErrSecInvalidKey else ErrSecSeedUnavailable)
  {
    hide After, SecurityNvm.LoadFrom, FirstBoot;
    ReachedSound(cfg, es);
    hide Reached;
  }

  // ---- A seed request ----

  /** What a request gets to before it asks for a seed. */
  predicate MayAsk(s: State, level: u8, bufLen: nat) {
    level % 2 == 1 && !s.lockedOut && bufLen >= 8
  }

  predicate HasEntropy(outcome: SeedOutcome) {
    outcome.Generated? && exists i :: 0 <= i < |outcome.bytes| && outcome.bytes[i] != 0
  }

  /**
   * In every reachable state: the bytes answered are all zero exactly when the level is
   * already active, and else they are the seed that is now pending. Nothing but the seed
   * changes, and a request that is refused early leaves even that alone.
   */
  lemma RequestEffect(cfg: Config, es: Run, level: u8, bufLen: nat, outcome: SeedOutcome)
    requires cfg.maxAttempts > 0 && WellFormed(RequestSeed(level, bufLen, outcome))
    ensures var y := Reached(cfg, es);
      var z, status := Step(cfg, y, RequestSeed(level, bufLen, outcome)), RequestStatus(y.sec, level, bufLen, outcome);
      var sent := SeedSent(y.sec, level, outcome);
      && z == y.(sec := y.sec.(seed := z.sec.seed, seedPending := z.sec.seedPending,
                               pendingLevel := z.sec.pendingLevel))
      && (status == Ok <==> MayAsk(y.sec, level, bufLen) && (y.sec.activeLevel == level || HasEntropy(outcome)))
      && (status == Ok && y.sec.activeLevel == level ==> sent == [0, 0, 0, 0, 0, 0, 0, 0] && !z.sec.seedPending)
      && (status == Ok && y.sec.activeLevel != level ==>
            sent == z.sec.seed == outcome.bytes && z.sec.seedPending && z.sec.pendingLevel == level &&
            exists i :: 0 <= i < |sent| && sent[i] != 0)
      && (status != Ok && MayAsk(y.sec, level, bufLen) ==>
            !z.sec.seedPending &&
            status == if outcome == Refused(ErrSubFunctionNotSupported) then ErrSubFunctionNotSupported
                      else ErrConditionsNotMet)
      && (!MayAsk(y.sec, level, bufLen) ==>
            z == y && status == if level % 2 == 0 then ErrInvalidParam
                                else if y.sec.lockedOut then ErrSecDelayActive else ErrBufferOverflow)
  {
    hide After, SecurityNvm.LoadFrom, FirstBoot, Reached;
  }

  // ---- Power-on, session change, lockout ----

  /** What a power cycle makes of each outcome of the load. */
  lemma BootEffect(cfg: Config, loaded: SecurityNvm.Loaded)
    ensures var s := Boot(cfg, loaded);
      && s.activeLevel == 0 && !s.seedPending && s.seed == [] && s.maxAttempts == cfg.maxAttempts
      && s.lockoutDuration == (if cfg.lockoutMs == 0 then 10000 else cfg.lockoutMs)
      && (!cfg.persistent || loaded.Absent? ==> s.failedAttempts == 0 && !s.lockedOut && s.lockoutTimer == 0)
      && (cfg.persistent && loaded.Loaded? ==>
            && (loaded.attempts <= cfg.maxAttempts ==> s.failedAttempts == loaded.attempts)
            && (loaded.attempts > cfg.maxAttempts ==> s.failedAttempts == cfg.maxAttempts)
            && s.lockoutTimer == loaded.lockoutMs && (s.lockedOut <==> loaded.lockoutMs > 0))
      && (cfg.persistent && !loaded.Loaded? && !loaded.Absent? ==>
            s.failedAttempts == 0 && s.lockedOut == cfg.failClosed &&
            s.lockoutTimer == if cfg.failClosed then 0xFFFF_FFFF else 0)
  {}

  /** A change of session locks every level and drops the seed; counter, lockout and record stay. */
  lemma ResetEffect(cfg: Config, y: System)
    ensures var z := Step(cfg, y, Reset);
      z == y.(sec := y.sec.(activeLevel := 0, pendingLevel := 0, seedPending := false, seed := []))
  {}

  /** n ticks and nothing else. */
  lemma {:induction false} WaitEffect(cfg: Config, y: System, n: nat)
    requires y.sec.lockedOut && 0 < n <= y.sec.lockoutTimer
    ensures After(cfg, y, Wait(n)) ==
      y.(sec := y.sec.(lockoutTimer := y.sec.lockoutTimer - n, lockedOut := n < y.sec.lockoutTimer))
    decreases n
  {
    var z := Step(cfg, y, Tick);
    assert Wait(n)[1..] == Wait(n - 1);
    if n == 1 {
      NoEvents(cfg, z);
    } else {
      WaitEffect(cfg, z, n - 1);
    }
  }
}
