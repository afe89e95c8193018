/** Diagnostic sessions and the S3 timer (core/uds_session.c). */
module Session {
  import opened Types

  datatype Kind = Default | Programming | Extended | SafetySystem

  /** uds_session_type_t: 1 to 4; any other code names no session. */
  function Decode(code: u8): Option<Kind> {
    match code
    case 1 => Some(Default)
    case 2 => Some(Programming)
    case 3 => Some(Extended)
    case 4 => Some(SafetySystem)
    case _ => None
  }

  datatype State = State(
    active: Kind, s3Timer: u32, s3Timeout: u32, changes: u32, strictProgramming: bool, safetyEnabled: bool)

  /** The transitions ISO 14229-1 allows, as a relation on sessions. */
  predicate Related(from: Kind, to: Kind) {
    || to == Default
    || from == to
    || from == Default
    || (from == Extended && to == Programming)
  }

  /** Whether a request for session code is granted. */
  predicate Granted(s: State, code: u8) {
    match Decode(code)
    case None => false
    case Some(to) =>
      && Related(s.active, to)
      && (to == SafetySystem ==> s.safetyEnabled)
      && (s.strictProgramming && s.active == Default ==> to != Programming)
  }

  function Enter(s: State, to: Kind): State {
    s.(active := to, s3Timer := s.s3Timeout, changes := (s.changes + 1) % 0x1_0000_0000)
  }

  function AfterTransition(s: State, code: u8): State {
    if Granted(s, code) then Enter(s, Decode(code).value) else s
  }

  function TransitionStatus(s: State, code: u8): Status {
    if Granted(s, code) then Ok
    else match Decode(code)
      case None => ErrSessionInvalid
      case Some(to) =>
        if to == SafetySystem && !s.safetyEnabled then ErrSubFunctionNotSupported else ErrSessionTransition
  }

  function Restart(s: State): State {
    s.(s3Timer := s.s3Timeout)
  }

  /** Whether the next tick ends the session. */
  predicate Expires(s: State) {
    s.active != Default && s.s3Timer <= 1
  }

  function AfterTick(s: State): State {
    if s.active == Default then s
    else if Expires(s) then s.(active := Default, s3Timer := s.s3Timeout)
    else s.(s3Timer := s.s3Timer - 1)
  }

  // ---- The C code ----

  class Context {
    var initialized: bool
    var active: Kind
    var s3Timer: u32
    var s3Timeout: u32
    var changes: u32
    var strictProgramming: bool
    var safetyEnabled: bool

    constructor ()
      ensures !initialized
    {
      initialized := false;
      active, s3Timer, s3Timeout, changes := Default, 0, 0, 0;
      strictProgramming, safetyEnabled := false, false;
    }

    ghost function View(): State
      reads this
    {
      State(active, s3Timer, s3Timeout, changes, strictProgramming, safetyEnabled)
    }

    /** uds_session_init */
    method Init(s3TimeoutMs: u32) returns (status: Status)
      modifies this
      ensures status == if old(initialized) then ErrAlreadyInitialized
                        else if s3TimeoutMs == 0 then ErrInvalidParam else Ok
      ensures status == Ok ==> initialized && View() == State(Default, s3TimeoutMs, s3TimeoutMs, 0, false, false)
      ensures status != Ok ==> initialized == old(initialized) && View() == old(View())
    {
      if initialized {
        return ErrAlreadyInitialized;
      }
      if s3TimeoutMs == 0 {
        return ErrInvalidParam;
      }
      strictProgramming, safetyEnabled := false, false;
      active := Default;
      s3Timeout := s3TimeoutMs;
      s3Timer := s3TimeoutMs;
      changes := 0;
      initialized := true;
      status := Ok;
    }

    /** session_validate_transition */
    method ValidateTransition(current: Kind, to: Kind) returns (status: Status)
      ensures status == if Related(current, to) then Ok else ErrSessionTransition
    {
      if to == Default {
        return Ok;
      }
      match current {
        case Default =>
          if to == Programming || to == Extended || to == SafetySystem {
            return Ok;
          }
        case Programming =>
          if to == Programming {
            return Ok;
          }
        case Extended =>
          if to == Extended || to == Programming {
            return Ok;
          }
        case SafetySystem =>
          if to == SafetySystem {
            return Ok;
          }
      }
      status := ErrSessionTransition;
    }

    /** uds_session_transition */
    method Transition(code: u8) returns (status: Status)
      modifies this`active, this`s3Timer, this`changes
      ensures View() == if initialized then AfterTransition(old(View()), code) else old(View())
      ensures status == if initialized then TransitionStatus(old(View()), code) else ErrNotInitialized
    {
      if !initialized {
        return ErrNotInitialized;
      }
      if !(1 <= code <= 4) {
        return ErrSessionInvalid;
      }
      var to := Decode(code).value;
      if to == SafetySystem && !safetyEnabled {
        return ErrSubFunctionNotSupported;
      }
      status := ValidateTransition(active, to);
      if status != Ok {
        return;
      }
      if strictProgramming && active == Default && to == Programming {
        return ErrSessionTransition;
      }
      active := to;
      changes := (changes + 1) % 0x1_0000_0000;
      s3Timer := s3Timeout;
      status := Ok;
    }

    /** uds_session_reset_s3_timer */
    method ResetS3Timer() returns (status: Status)
      modifies this`s3Timer
      ensures View() == if initialized then Restart(old(View())) else old(View())
      ensures status == if initialized then Ok else ErrNotInitialized
    {
      if !initialized {
        return ErrNotInitialized;
      }
      s3Timer := s3Timeout;
      status := Ok;
    }

    /** uds_session_tick_1ms */
    method Tick() returns (status: Status)
      modifies this`active, this`s3Timer
      ensures View() == if initialized then AfterTick(old(View())) else old(View())
      ensures status == if !initialized then ErrNotInitialized
                        else if Expires(old(View())) then ErrSessionTimeout else Ok
    {
      if !initialized {
        return ErrNotInitialized;
      }
      if active == Default {
        return Ok;
      }
      if s3Timer > 0 {
        s3Timer := s3Timer - 1;
      }
      if s3Timer == 0 {
        active := Default;
        s3Timer := s3Timeout;
        return ErrSessionTimeout;
      }
      status := Ok;
    }

    /** uds_session_set_strict_programming */
    method SetStrictProgramming(strict: bool) returns (status: Status)
      modifies this`strictProgramming
      ensures View() == if initialized then old(View()).(strictProgramming := strict) else old(View())
      ensures status == if initialized then Ok else ErrNotInitialized
    {
      if !initialized {
        return ErrNotInitialized;
      }
      strictProgramming := strict;
      status := Ok;
    }

    /** uds_session_set_safety_system_enabled */
    method SetSafetySystemEnabled(enabled: bool) returns (status: Status)
      modifies this`safetyEnabled
      ensures View() == if initialized then old(View()).(safetyEnabled := enabled) else old(View())
      ensures status == if initialized then Ok else ErrNotInitialized
    {
      if !initialized {
        return ErrNotInitialized;
      }
      safetyEnabled := enabled;
      status := Ok;
    }
  }

  // ---- A request for a session, by its code ----

  /** Codes 1 to 4 from the active session, with the optional safety session and the strict gate. */
  predicate MayEnter(s: State, code: u8) {
    || code == 1
    || (code == 2 && (s.active in {Programming, Extended} || (s.active == Default && !s.strictProgramming)))
    || (code == 3 && s.active in {Default, Extended})
    || (code == 4 && s.active in {Default, SafetySystem} && s.safetyEnabled)
  }

  /**
   * A request is granted exactly then: the session has its code, its timer is full and the
   * change is counted. Any other leaves everything as it is, and says why.
   */
  lemma TransitionExactly(s: State, code: u8)
    ensures var z, status := AfterTransition(s, code), TransitionStatus(s, code);
      && (status == Ok <==> MayEnter(s, code))
      && (MayEnter(s, code) ==>
            z == State([Default, Programming, Extended, SafetySystem][code - 1], s.s3Timeout, s.s3Timeout,
                       (s.changes + 1) % 0x1_0000_0000, s.strictProgramming, s.safetyEnabled))
      && (!MayEnter(s, code) ==>
            z == s && status == if code == 0 || code > 4 then ErrSessionInvalid
                                else if code == 4 && !s.safetyEnabled then ErrSubFunctionNotSupported
                                else ErrSessionTransition)
  {}

  // ---- Whole runs ----

  datatype Event = Transition(code: u8) | Restarted | Ticked

  function Step(s: State, e: Event): State {
    match e
    case Transition(code) => AfterTransition(s, code)
    case Restarted => Restart(s)
    case Ticked => AfterTick(s)
  }

  function After(s: State, es: seq<Event>): State
    decreases |es|
  {
    if es == [] then s else Step(After(s, es[..|es| - 1]), es[|es| - 1])
  }

  /** The run was in session k at some point, and has not been in the default session since. */
  ghost predicate PassedSinceDefault(s: State, es: seq<Event>, k: Kind) {
    exists i :: 0 <= i <= |es| && After(s, es[..i]).active == k && NoDefaultFrom(s, es, i)
  }

  ghost predicate NoDefaultFrom(s: State, es: seq<Event>, i: int)
    requires 0 <= i <= |es|
  {
    forall j :: i <= j <= |es| ==> After(s, es[..j]).active != Default
  }

  lemma PassedLonger(s: State, es: seq<Event>, k: Kind)
    requires es != [] && PassedSinceDefault(s, es[..|es| - 1], k) && After(s, es).active != Default
    ensures PassedSinceDefault(s, es, k)
  {
    hide After;
    var shorter := es[..|es| - 1];
    var i :| 0 <= i <= |shorter| && After(s, shorter[..i]).active == k && NoDefaultFrom(s, shorter, i);
    assert shorter[..i] == es[..i] && es[..|es|] == es;
    forall j | i <= j <= |es| ensures After(s, es[..j]).active != Default {
      if j < |es| {
        assert shorter[..j] == es[..j];
      }
    }
    assert NoDefaultFrom(s, es, i);
  }

  /** With the strict gate, programming is entered from the default session only by way of the extended one. */
  lemma {:induction false} StrictNeedsExtended(s: State, es: seq<Event>)
    requires s.strictProgramming && s.active == Default
    ensures After(s, es).strictProgramming
    ensures After(s, es).active == Programming ==> PassedSinceDefault(s, es, Extended)
    decreases |es|
  {
    if es != [] {
      var before := es[..|es| - 1];
      StrictNeedsExtended(s, before);
      if After(s, es).active == Programming {
        if After(s, before).active == Extended {
          assert before[..|before|] == before;
          assert NoDefaultFrom(s, before, |before|);
          assert PassedSinceDefault(s, before, Extended);
        }
        PassedLonger(s, es, Extended);
      }
    }
  }

  function Ticks(n: nat): (es: seq<Event>)
    ensures |es| == n
  {
    seq(n, _ => Ticked)
  }

  /** A session left alone lasts its timer, to the tick, and then gives way to the default session. */
  lemma {:induction false} LastsExactly(s: State, n: nat)
    requires s.active != Default && 0 < n <= s.s3Timer
    ensures After(s, Ticks(n)) ==
      if n < s.s3Timer then s.(s3Timer := s.s3Timer - n) else s.(active := Default, s3Timer := s.s3Timeout)
    decreases n
  {
    assert Ticks(n)[..n - 1] == Ticks(n - 1);
    if n > 1 {
      LastsExactly(s, n - 1);
    } else {
      assert Ticks(0) == [];
    }
  }

  /** The timer never runs above its period, so no session outlives its last restart by more than that. */
  lemma {:induction false} TimerWithinTimeout(s: State, es: seq<Event>)
    requires 0 < s.s3Timer <= s.s3Timeout
    ensures 0 < After(s, es).s3Timer <= After(s, es).s3Timeout == s.s3Timeout
    decreases |es|
  {
    if es != [] {
      TimerWithinTimeout(s, es[..|es| - 1]);
    }
  }
}
