/**
 * The SecurityAccess state machine (core/uds_security.c): one class for the code, one
 * step function for its meaning, and a bound on wrong keys over whole runs.
 */
module Security {
  import opened Bytes
  import opened Types
  import Nvm
  import SecurityNvm

  const SEED_LEN: nat := 8
  const KEY_LEN: nat := 4
  const LOCKED_LEVEL: u8 := 0          // UDS_SEC_LEVEL_UNLOCKED: no level active
  const DEFAULT_LOCKOUT_MS: u32 := 10000

  /** What the seed callback did: wrote these bytes, or failed. */
  datatype SeedOutcome = Generated(bytes: seq<byte>) | Refused(status: Status)

  type seedBytes = s: seq<byte> | |s| <= SEED_LEN witness []

  // ---- State, configuration and requests as values ----

  datatype State = State(
    activeLevel: u8, pendingLevel: u8, seed: seedBytes, seedPending: bool, failedAttempts: u8,
    maxAttempts: u8, lockoutTimer: u32, lockoutDuration: u32, lockedOut: bool)

  datatype Config = Config(maxAttempts: u8, lockoutMs: u32, persistent: bool, failClosed: bool)

  predicate IsSeedLevel(level: u8) {
    level % 2 == 1
  }

  function KeyToSeedLevel(level: u8): u8 {
    if level > 0 then level - 1 else 0
  }

  function Duration(cfg: Config): u32 {
    if cfg.lockoutMs > 0 then cfg.lockoutMs else DEFAULT_LOCKOUT_MS
  }

  /** A state with the persisted record put back; unreadable records can be made to lock. */
  function Restored(s: State, loaded: SecurityNvm.Loaded, failClosed: bool): State {
    match loaded
    case Loaded(attempts, residual) =>
      s.(failedAttempts := if attempts <= s.maxAttempts then attempts else s.maxAttempts,
         lockedOut := residual > 0 || s.lockedOut, lockoutTimer := if residual > 0 then residual else s.lockoutTimer)
    case Absent => s
    case _ => if failClosed then s.(lockedOut := true, lockoutTimer := U32_MAX) else s
  }

  function Blank(cfg: Config): State {
    State(LOCKED_LEVEL, 0, [], false, 0, cfg.maxAttempts, 0, Duration(cfg), false)
  }

  /** What init makes of the persisted record. */
  function Boot(cfg: Config, loaded: SecurityNvm.Loaded): State {
    if cfg.persistent then Restored(Blank(cfg), loaded, cfg.failClosed) else Blank(cfg)
  }

  /** How a sent key is judged. */
  datatype Verdict = NotJudged(status: Status) | Wrong(status: Status) | Right

  function Judge(s: State, level: u8, keyLen: nat, callbackAccepts: bool): Verdict {
    if s.lockedOut || !s.seedPending then NotJudged(ErrSecSeedUnavailable)
    else if keyLen == 0 then NotJudged(ErrInvalidParam)
    else if KeyToSeedLevel(level) != s.pendingLevel then Wrong(ErrSecSeedUnavailable)
    else if keyLen == KEY_LEN && callbackAccepts then Right
    else Wrong(ErrSecInvalidKey)
  }

  /** The uint8_t counter after one more failure. */
  function NextCount(s: State): u8 {
    (s.failedAttempts + 1) % 0x100
  }

  /** Using up an attempt; the last one starts the lockout. */
  function Fail(s: State): State {
    if NextCount(s) >= s.maxAttempts
    then s.(seedPending := false, lockedOut := true, lockoutTimer := s.lockoutDuration, failedAttempts := 0)
    else s.(seedPending := false, failedAttempts := NextCount(s))
  }

  function Unlock(s: State): State {
    s.(activeLevel := s.pendingLevel, failedAttempts := 0, pendingLevel := 0, seedPending := false)
  }

  /** The state after a sent key. */
  function AfterKey(s: State, v: Verdict): State {
    match v
    case NotJudged(_) => s
    case Wrong(_) => Fail(s)
    case Right => Unlock(s)
  }

  function KeyStatus(s: State, v: Verdict): Status {
    match v
    case NotJudged(status) => status
    case Wrong(status) => if NextCount(s) >= s.maxAttempts then ErrSecAttemptExceeded else status
    case Right => Ok
  }

  /** Whether a seed request is served a fresh seed. */
  predicate Issues(s: State, level: u8, bufLen: nat, outcome: SeedOutcome) {
    IsSeedLevel(level) && !s.lockedOut && bufLen >= SEED_LEN && s.activeLevel != level &&
    outcome.Generated? && |outcome.bytes| <= SEED_LEN && exists i :: 0 <= i < |outcome.bytes| && outcome.bytes[i] != 0
  }

  function AfterRequest(s: State, level: u8, bufLen: nat, outcome: SeedOutcome): State
    requires outcome.Generated? ==> |outcome.bytes| <= SEED_LEN
  {
    if !IsSeedLevel(level) || s.lockedOut || bufLen < SEED_LEN then s
    else if s.activeLevel == level then s.(seedPending := false, pendingLevel := 0)
    else if Issues(s, level, bufLen, outcome) then s.(seed := outcome.bytes, pendingLevel := level, seedPending := true)
    else s.(seed := if outcome.Generated? then outcome.bytes else s.seed, seedPending := false, pendingLevel := 0)
  }

  function RequestStatus(s: State, level: u8, bufLen: nat, outcome: SeedOutcome): Status
    requires outcome.Generated? ==> |outcome.bytes| <= SEED_LEN
  {
    if !IsSeedLevel(level) then ErrInvalidParam
    else if s.lockedOut then ErrSecDelayActive
    else if bufLen < SEED_LEN then ErrBufferOverflow
    else if s.activeLevel == level || Issues(s, level, bufLen, outcome) then Ok
    else if outcome == Refused(ErrSubFunctionNotSupported) then ErrSubFunctionNotSupported
    else ErrConditionsNotMet
  }

  /** An all-zero seed tells the tester that the level is already unlocked. */
  function SeedSent(s: State, level: u8, outcome: SeedOutcome): seq<byte> {
    if s.activeLevel == level || outcome.Refused? then seq(SEED_LEN, _ => 0) else outcome.bytes
  }

  function AfterReset(s: State): State {
    s.(activeLevel := LOCKED_LEVEL, pendingLevel := 0, seedPending := false, seed := [])
  }

  function AfterTick(s: State): State {
    if s.lockedOut && s.lockoutTimer > 0
    then s.(lockoutTimer := s.lockoutTimer - 1, lockedOut := s.lockoutTimer > 1)
    else s
  }

  /** What a judged key writes through the persistence callback: counter and residual. */
  function Saved(s: State, v: Verdict): Option<(u8, u32)> {
    match v
    case NotJudged(_) => None
    case Wrong(_) => if NextCount(s) >= s.maxAttempts then Some((0, s.lockoutDuration)) else Some((NextCount(s), 0))
    case Right => Some((0, 0))
  }

  function AfterSave(records: Nvm.Records, saved: Option<(u8, u32)>): Nvm.Records {
    match saved
    case None => records
    case Some(r) => SecurityNvm.SaveTo(records, r.0, r.1)
  }

  lemma Unjudged(s: State, status: Status, records: Nvm.Records)
    ensures AfterKey(s, NotJudged(status)) == s && KeyStatus(s, NotJudged(status)) == status
    ensures AfterSave(records, Saved(s, NotJudged(status))) == records
  {}

  lemma WrongOrRight(s: State, status: Status, records: Nvm.Records)
    ensures AfterKey(s, Wrong(status)) == Fail(s)
    ensures AfterKey(s, Right) == Unlock(s) && KeyStatus(s, Right) == Ok
    ensures AfterSave(records, Saved(s, Right)) == SecurityNvm.SaveTo(records, 0, 0)
  {
    hide Fail, Unlock, SecurityNvm.SaveTo;
  }

  // ---- The C code ----

  class SecurityAccess {
    var initialized: bool
    var activeLevel: u8
    var pendingLevel: u8
    var seed: seedBytes
    var seedPending: bool
    var failedAttempts: u8
    var maxAttempts: u8
    var lockoutTimer: u32
    var lockoutDuration: u32
    var lockedOut: bool
    var nvm: Nvm.Store?             // null: no persistence callbacks

    constructor ()
      ensures !initialized
    {
      initialized := false;
      activeLevel, pendingLevel, seed, seedPending := 0, 0, [], false;
      failedAttempts, maxAttempts, lockoutTimer, lockoutDuration, lockedOut := 0, 0, 0, 0, false;
      nvm := null;
    }

    ghost function View(): State
      reads this
    {
      State(activeLevel, pendingLevel, seed, seedPending, failedAttempts,
            maxAttempts, lockoutTimer, lockoutDuration, lockedOut)
    }

    ghost function Stored(): Nvm.Records
      reads this, nvm
    {
      if nvm == null then map[] else nvm.records
    }

    ghost predicate CanSave(saves: bool)
      reads this, nvm
    {
      nvm != null && nvm.ready && saves
    }

    /** uds_security_init; callbacks: seed and key callback are both given; loads: the platform can read. */
    method Init(cfg: Config, callbacks: bool, store: Nvm.Store?, loads: bool) returns (status: Status)
      requires cfg.persistent <==> store != null
      modifies this
      ensures status == if old(initialized) then ErrAlreadyInitialized
                        else if !callbacks || cfg.maxAttempts == 0 then ErrInvalidParam else Ok
      ensures status == Ok ==> initialized && nvm == store && View() == Boot(cfg,
        if store == null then SecurityNvm.Absent
        else if !store.ready then SecurityNvm.NotReady
        else if loads then SecurityNvm.LoadFrom(store.records) else SecurityNvm.Unreadable)
      ensures status != Ok ==> View() == old(View()) && initialized == old(initialized) && nvm == old(nvm)
    {
      hide SecurityNvm.LoadFrom, Restored, Blank;
      if initialized {
        return ErrAlreadyInitialized;
      }
      if !callbacks {
        return ErrInvalidParam;
      }
      if cfg.maxAttempts == 0 {
        return ErrInvalidParam;
      }
      Clear(cfg);
      nvm := store;
      if nvm != null {
        var loaded := SecurityNvm.Load(nvm, loads);
        Restore(loaded, cfg.failClosed);
      }
      initialized := true;
      status := Ok;
    }

    /** The memset and the defaults of init. */
    method Clear(cfg: Config)
      modifies this`activeLevel, this`pendingLevel, this`seed, this`seedPending, this`failedAttempts,
               this`maxAttempts, this`lockoutTimer, this`lockoutDuration, this`lockedOut
      ensures View() == Blank(cfg)
    {
      activeLevel, pendingLevel, seed, seedPending := LOCKED_LEVEL, 0, [], false;
      failedAttempts, maxAttempts, lockoutTimer := 0, cfg.maxAttempts, 0;
      lockoutDuration := if cfg.lockoutMs > 0 then cfg.lockoutMs else DEFAULT_LOCKOUT_MS;
      lockedOut := false;
    }

    /** What init does with the record it loaded. */
    method Restore(loaded: SecurityNvm.Loaded, failClosed: bool)
      modifies this`failedAttempts, this`lockedOut, this`lockoutTimer
      ensures View() == Restored(old(View()), loaded, failClosed)
    {
      match loaded {
        case Loaded(attempts, residual) =>
          failedAttempts := if attempts <= maxAttempts then attempts else maxAttempts;
          if residual > 0 {
            lockedOut := true;
            lockoutTimer := residual;
          }
        case Absent =>
        case _ =>
          if failClosed {
            lockedOut := true;
            lockoutTimer := U32_MAX;
          }
      }
    }

    /** uds_security_request_seed; outcome is what the seed callback does if it is called. */
    method RequestSeed(level: u8, bufLen: nat, outcome: SeedOutcome) returns (status: Status, sent: seq<byte>)
      requires outcome.Generated? ==> |outcome.bytes| <= SEED_LEN
      modifies this`seed, this`seedPending, this`pendingLevel
      ensures View() == if initialized then AfterRequest(old(View()), level, bufLen, outcome) else old(View())
      ensures status == if initialized then RequestStatus(old(View()), level, bufLen, outcome) else ErrNotInitialized
      ensures sent == if status == Ok then SeedSent(old(View()), level, outcome) else []
    {
      sent := [];
      if !initialized {
        return ErrNotInitialized, sent;
      }
      if !IsSeedLevel(level) {
        return ErrInvalidParam, sent;
      }
      if lockedOut {
        return ErrSecDelayActive, sent;
      }
      if bufLen < SEED_LEN {
        return ErrBufferOverflow, sent;
      }
      if activeLevel == level {
        seedPending := false;
        pendingLevel := 0;
        return Ok, seq(SEED_LEN, _ => 0);
      }
      match outcome {
        case Refused(reason) =>
          seedPending := false;
          pendingLevel := 0;
          status := if reason == ErrSubFunctionNotSupported then ErrSubFunctionNotSupported else ErrConditionsNotMet;
        case Generated(bytes) =>
          seed := bytes;
          var allZero := true;
          for i := 0 to |seed|
            invariant allZero <==> forall j :: 0 <= j < i ==> seed[j] == 0
          {
            if seed[i] != 0 {
              allZero := false;
              break;
            }
          }
          if allZero {
            seedPending := false;
            pendingLevel := 0;
            return ErrConditionsNotMet, sent;
          }
          sent := seed;
          pendingLevel := level;
          seedPending := true;
          status := Ok;
      }
    }

    /**
     * uds_security_send_key; accepts: what the key callback answers if it is called;
     * saves: the platform can write. A record that cannot be saved changes nothing else.
     */
    method SendKey(level: u8, keyLen: nat, accepts: bool, saves: bool) returns (status: Status)
      modifies this, nvm
      ensures nvm == old(nvm) && initialized == old(initialized) && CanSave(saves) == old(CanSave(saves))
      ensures !initialized ==> status == ErrNotInitialized && View() == old(View()) && Stored() == old(Stored())
      ensures initialized ==> var v := Judge(old(View()), level, keyLen, accepts);
        View() == AfterKey(old(View()), v) && status == KeyStatus(old(View()), v) &&
        Stored() == if CanSave(saves) then AfterSave(old(Stored()), Saved(old(View()), v)) else old(Stored())
    {
      hide SecurityNvm.SaveTo, Saved, AfterKey, KeyStatus, AfterSave, Fail, Unlock;
      Unjudged(View(), ErrSecSeedUnavailable, Stored());
      Unjudged(View(), ErrInvalidParam, Stored());
      WrongOrRight(View(), ErrSecSeedUnavailable, Stored());
      WrongOrRight(View(), ErrSecInvalidKey, Stored());
      if !initialized {
        return ErrNotInitialized;
      }
      if lockedOut {
        return ErrSecSeedUnavailable;
      }
      if !seedPending {
        return ErrSecSeedUnavailable;
      }
      if keyLen == 0 {
        return ErrInvalidParam;
      }
      if KeyToSeedLevel(level) != pendingLevel {
        status := ConsumeAttempt(ErrSecSeedUnavailable, saves);
        return;
      }
      var keyValid := keyLen == KEY_LEN && accepts;
      if !keyValid {
        status := ConsumeAttempt(ErrSecInvalidKey, saves);
        return;
      }
      UnlockPending();
      Persist(0, 0, saves);
      status := Ok;
    }

    /** The state changes of a right key. */
    method UnlockPending()
      modifies this`activeLevel, this`failedAttempts, this`pendingLevel, this`seedPending
      ensures View() == Unlock(old(View()))
    {
      activeLevel := pendingLevel;
      failedAttempts := 0;
      pendingLevel := 0;
      seedPending := false;
    }

    /** The save callback, if there is one; its result is ignored. */
    method Persist(attempts: u8, residual: u32, saves: bool)
      modifies nvm
      ensures CanSave(saves) == old(CanSave(saves))
      ensures Stored() ==
        if CanSave(saves) then SecurityNvm.SaveTo(old(Stored()), attempts, residual) else old(Stored())
    {
      hide SecurityNvm.SaveTo;
      if nvm != null {
        var _ := SecurityNvm.Save(nvm, attempts, residual, saves);
      }
    }

    /** The counter of the failure path; the last attempt starts the lockout. */
    method CountAttempt() returns (exceeded: bool)
      modifies this`seedPending, this`failedAttempts, this`lockedOut, this`lockoutTimer
      ensures View() == Fail(old(View())) && exceeded == (NextCount(old(View())) >= maxAttempts)
    {
      seedPending := false;
      failedAttempts := (failedAttempts + 1) % 0x100;
      if failedAttempts >= maxAttempts {
        lockedOut := true;
        lockoutTimer := lockoutDuration;
        failedAttempts := 0;
        return true;
      }
      exceeded := false;
    }

    /** The failure path shared by a level mismatch and a wrong key. */
    method ConsumeAttempt(reason: Status, saves: bool) returns (status: Status)
      modifies this`seedPending, this`failedAttempts, this`lockedOut, this`lockoutTimer, nvm
      ensures CanSave(saves) == old(CanSave(saves))
      ensures View() == Fail(old(View())) && status == KeyStatus(old(View()), Wrong(reason))
      ensures Stored() == if CanSave(saves) then AfterSave(old(Stored()), Saved(old(View()), Wrong(reason)))
                          else old(Stored())
    {
      hide SecurityNvm.SaveTo, NextCount;
      var exceeded := CountAttempt();
      if exceeded {
        Persist(0, lockoutTimer, saves);
        return ErrSecAttemptExceeded;
      }
      Persist(failedAttempts, 0, saves);
      status := reason;
    }

    /** uds_security_is_unlocked */
    method IsUnlocked(level: u8) returns (status: Status, unlocked: bool)
      ensures status == if initialized then Ok else ErrNotInitialized
      ensures unlocked <==> initialized && activeLevel == level
    {
      if !initialized {
        return ErrNotInitialized, false;
      }
      return Ok, activeLevel == level;
    }

    /** uds_security_reset: the counter and the lockout survive. */
    method Reset() returns (status: Status)
      modifies this`activeLevel, this`pendingLevel, this`seedPending, this`seed
      ensures status == if initialized then Ok else ErrNotInitialized
      ensures View() == if initialized then AfterReset(old(View())) else old(View())
    {
      if !initialized {
        return ErrNotInitialized;
      }
      activeLevel := LOCKED_LEVEL;
      pendingLevel := 0;
      seedPending := false;
      seed := [];
      status := Ok;
    }

    /** uds_security_tick_1ms */
    method Tick() returns (status: Status)
      modifies this`lockoutTimer, this`lockedOut
      ensures status == if initialized then Ok else ErrNotInitialized
      ensures View() == if initialized then AfterTick(old(View())) else old(View())
    {
      if !initialized {
        return ErrNotInitialized;
      }
      if lockedOut && lockoutTimer > 0 {
        lockoutTimer := lockoutTimer - 1;
        if lockoutTimer == 0 {
          lockedOut := false;
        }
      }
      status := Ok;
    }
  }
}
