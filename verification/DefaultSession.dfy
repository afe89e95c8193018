/**
 * What the default session guarantees: however it was reached, security is locked,
 * communication is open both ways and faults are recorded.
 */
module DefaultSession {
  import opened Types
  import opened Pending
  import opened Server
  import AccessTable
  import CommControl
  import Security
  import Session

  const SESSION_CONTROL: u8 := 0x10
  const SECURITY_ACCESS: u8 := 0x27
  const COMMUNICATION_CONTROL: u8 := 0x28
  const CONTROL_DTC_SETTING: u8 := 0x85

  /** The server and the two modules whose state a handler or a step can change. */
  datatype System = System(core: Core, security: Security.State, comm: CommControl.State)

  /** How a handler or a step leaves the session, security and communication. */
  datatype Effect = Effect(session: Session.State, security: Security.State, comm: CommControl.State)

  datatype Event =
    | Request(req: frame, functional: bool, run: HandlerRun, after: Effect)
    | Poll(outcome: Outcome, left: Effect)
    | FrameSent
    | Abort
    | Tick

  function EffectOf(y: System): Effect {
    Effect(y.core.session, y.security, y.comm)
  }

  /** In the default session: locked, open both ways, faults recorded. */
  predicate Safe(x: Effect) {
    x.session.active == Session.Default ==>
      x.security.activeLevel == Security.LOCKED_LEVEL && x.comm == CommControl.NORMAL
  }

  /** Whether a request gets as far as its handler. */
  predicate HandlerRuns(setup: Setup, y: System, req: frame)
    requires req != []
  {
    && y.core.pending.slot.Free?
    && FindHandler(setup.services, req[0]).Some?
    && Access(setup, req[0], y.core.session.active, y.security.activeLevel) == Ok
  }

  /** What the handler of DiagnosticSessionControl does: every accepted transition locks. */
  function SessionControl(x: Effect, req: frame): Effect {
    if |req| < 2 || !Session.Granted(x.session, req[1] % 0x80) then x
    else
      var s := Session.AfterTransition(x.session, req[1] % 0x80);
      Effect(s, Security.AfterReset(x.security),
             if s.active == Session.Default then x.comm.(mode := CommControl.EnableRxTx, setting := CommControl.On)
             else x.comm)
  }

  /**
   * The effects a handler may have from x. SecurityAccess may change security in any way,
   * the two communication services communication; all others keep the default session safe.
   */
  predicate HandlerMay(x: Effect, req: frame, after: Effect)
    requires req != []
  {
    && after.comm.initialized == x.comm.initialized
    && if req[0] == SESSION_CONTROL then after == SessionControl(x, req)
       else if req[0] == SECURITY_ACCESS then after.session == x.session && after.comm == x.comm
       else if req[0] == COMMUNICATION_CONTROL || req[0] == CONTROL_DTC_SETTING then
         after.session == x.session && after.security == x.security
       else Safe(x) ==> Safe(after)
  }

  predicate StepMay(x: Effect, after: Effect) {
    after.comm.initialized == x.comm.initialized && (Safe(x) ==> Safe(after))
  }

  /** The handler finds S3 restarted. */
  function Before(y: System): Effect {
    EffectOf(y).(session := Session.Restart(y.core.session))
  }

  predicate Allowed(setup: Setup, y: System, e: Event) {
    match e
    case Request(req, _, _, after) => req != [] && (HandlerRuns(setup, y, req) ==> HandlerMay(Before(y), req, after))
    case Poll(_, left) => StepMay(EffectOf(y), left)
    case _ => true
  }

  predicate RunsStep(cfg: Config, y: System) {
    var slot := y.core.pending.slot;
    slot.Taken? && !slot.owed && slot.total < cfg.capMs && !KeepaliveDue(cfg, y.core.session.s3Timeout, slot)
  }

  function Step(setup: Setup, y: System, e: Event): System
    requires Allowed(setup, y, e)
  {
    match e
    case Request(req, functional, run, after) =>
      var core := Process(setup, y.core, y.security.activeLevel, req, functional, run).core;
      if HandlerRuns(setup, y, req) then System(core.(session := after.session), after.security, after.comm)
      else y.(core := core)
    case Poll(o, left) =>
      var s3 := y.core.session.s3Timeout;
      var x := if RunsStep(setup.cfg, y) then left else EffectOf(y);
      var session := if MakesFrame(setup.cfg, s3, y.core.pending, o) then Session.Restart(x.session) else x.session;
      System(y.core.(pending := AfterPoll(setup.cfg, s3, y.core.pending, o).0, session := session), x.security, x.comm)
    case FrameSent => y.(core := y.core.(pending := AfterFrameSent(y.core.pending).0))
    case Abort => y.(core := y.core.(pending := AfterAbort(y.core.pending).0))
    case Tick =>
      var expires := Session.Expires(y.core.session);
      System(y.core.(pending := TickPending(y.core.pending, expires).0, session := Session.AfterTick(y.core.session)),
             Security.AfterTick(if expires then Security.AfterReset(y.security) else y.security),
             if expires && y.comm.initialized then CommControl.NORMAL else y.comm)
  }

  /** Every event happens in a state that allows it. */
  predicate AllAllowed(setup: Setup, y: System, es: seq<Event>)
    decreases |es|
  {
    es == [] || (Allowed(setup, y, es[0]) && AllAllowed(setup, Step(setup, y, es[0]), es[1..]))
  }

  function After(setup: Setup, y: System, es: seq<Event>): System
    requires AllAllowed(setup, y, es)
    decreases |es|
  {
    if es == [] then y else After(setup, Step(setup, y, es[0]), es[1..])
  }

  // ---- The guarantee ----

  /** With the built-in table the services that could break it have no access in the default session. */
  lemma GatedServices(setup: Setup, y: System, req: frame)
    requires setup.access == [] && req != [] && HandlerRuns(setup, y, req)
    requires req[0] in {SECURITY_ACCESS, COMMUNICATION_CONTROL, CONTROL_DTC_SETTING}
    ensures y.core.session.active != Session.Default
  {
    hide AccessTable.Decision;
    AccessTable.DefaultPolicy(setup.unlisted, req[0], y.core.session.active, y.security.activeLevel);
  }

  /** Every accepted request for a session, the active one included, leaves every level locked and no seed pending. */
  lemma TransitionLocks(x: Effect, req: frame)
    requires x.comm.initialized
    ensures var z := SessionControl(x, req);
      && (|req| >= 2 && Session.Granted(x.session, req[1] % 0x80) ==>
            z.security.activeLevel == Security.LOCKED_LEVEL && !z.security.seedPending &&
            z.security.failedAttempts == x.security.failedAttempts &&
            z.security.lockoutTimer == x.security.lockoutTimer)
      && (z.session.active != x.session.active ==> |req| >= 2 && Session.Granted(x.session, req[1] % 0x80))
      && (Safe(x) ==> Safe(z))
  {}

  lemma RequestKeepsSafe(setup: Setup, y: System, e: Event)
    requires setup.access == [] && e.Request? && Allowed(setup, y, e) && y.comm.initialized && Safe(EffectOf(y))
    ensures Safe(EffectOf(Step(setup, y, e))) && Step(setup, y, e).comm.initialized
  {
    hide AccessTable.Decision, FindHandler;
    assert Safe(Before(y));
    if HandlerRuns(setup, y, e.req) {
      TransitionLocks(Before(y), e.req);
      if e.req[0] in {SECURITY_ACCESS, COMMUNICATION_CONTROL, CONTROL_DTC_SETTING} {
        GatedServices(setup, y, e.req);
      }
    }
  }

  lemma StepKeepsSafe(setup: Setup, y: System, e: Event)
    requires setup.access == [] && Allowed(setup, y, e) && y.comm.initialized && Safe(EffectOf(y))
    ensures Safe(EffectOf(Step(setup, y, e))) && Step(setup, y, e).comm.initialized
  {
    if e.Request? {
      RequestKeepsSafe(setup, y, e);
    }
    hide AccessTable.Decision, FindHandler, Process, AfterPoll;
  }

  /** The stack after start-up. */
  predicate Started(y: System) {
    y.core.session.active == Session.Default && y.security.activeLevel == Security.LOCKED_LEVEL &&
    y.comm == CommControl.NORMAL
  }

  /** In every reachable state whose session is the default one, the ECU is locked, open and recording. */
  lemma {:induction false} AlwaysSafe(setup: Setup, y: System, es: seq<Event>)
    requires setup.access == [] && y.comm.initialized && Safe(EffectOf(y)) && AllAllowed(setup, y, es)
    ensures Safe(EffectOf(After(setup, y, es)))
    decreases |es|
  {
    hide Safe, Step, Allowed;
    if es != [] {
      StepKeepsSafe(setup, y, es[0]);
      AlwaysSafe(setup, Step(setup, y, es[0]), es[1..]);
    }
  }

  /** From start-up on: whoever finds the default session finds it locked, open and recording. */
  lemma SafeFromStart(setup: Setup, y: System, es: seq<Event>)
    requires setup.access == [] && Started(y) && AllAllowed(setup, y, es)
    ensures var z := After(setup, y, es);
      z.core.session.active == Session.Default ==>
        z.security.activeLevel == Security.LOCKED_LEVEL && z.comm == CommControl.NORMAL
  {
    hide After, AllAllowed;
    AlwaysSafe(setup, y, es);
  }
}
