/**
 * The UDS server (core/uds_server.c): dispatch of requests, the pending job and the tick,
 * each method against a function of the old state.
 */
module Server {
  import opened Types
  import opened Pending
  import AccessTable
  import CommControl
  import Security
  import Session

  const MAX_HANDLERS: nat := 19
  const SERVICE_NOT_SUPPORTED: u8 := 0x11
  const BUSY_REPEAT_REQUEST: u8 := 0x21
  const TESTER_PRESENT: u8 := 0x3E
  const SUPPRESS_BIT: u8 := 0x80

  datatype Entry = Entry(sid: u8, suppressSupported: bool)

  /** What a handler does when it runs: defer a job and return defer's answer, or answer itself. */
  datatype HandlerRun = Defers(job: Job) | Answers(status: Status, response: frame)

  datatype PollResult = PollIdle | PollNothing | PollFrame

  /** srv_status_to_nrc */
  function StatusToNrc(status: Status): u8 {
    match status
    case ErrInvalidParam => 0x13
    case ErrServiceNotSupported => 0x11
    case ErrSubFunctionNotSupported => 0x12
    case ErrSessionInvalid => 0x22
    case ErrSessionTransition => 0x22
    case ErrSessionTimeout => 0x7F
    case ErrServiceNotSupportedInSession => 0x7F
    case ErrSecAccessDenied => 0x33
    case ErrSecNotUnlocked => 0x33
    case ErrSecInvalidKey => 0x35
    case ErrSecAttemptExceeded => 0x36
    case ErrSecDelayActive => 0x37
    case ErrResponseTooLong => 0x14
    case ErrSecSeedUnavailable => 0x24
    case ErrRequestSequence => 0x24
    case ErrRequestOutOfRange => 0x31
    case ErrBufferOverflow => 0x13
    case ErrTpOverflow => 0x13
    case ErrDidNotFound => 0x31
    case ErrDidReadFailed => 0x31
    case ErrDidWriteFailed => 0x31
    case ErrRoutineNotFound => 0x31
    case ErrRoutineFailed => 0x22
    case ErrRoutineNotSupportedInSession => 0x7F
    case ErrTransferWrongSeq => 0x73
    case ErrTransferAborted => 0x72
    case ErrUploadDownloadNotAccepted => 0x70
    case ErrTransferSuspended => 0x71
    case ErrPlatform => 0x72
    case ErrTpUnexpectedPdu => 0x73
    case _ => 0x22
  }

  /** Negative responses that a functional request never gets. */
  predicate FunctionallySilent(resp: frame) {
    |resp| == 3 && resp[0] == NEGATIVE_RESPONSE && resp[2] in {0x11, 0x12, 0x31, 0x7E, 0x7F}
  }

  // ---- The meaning of a request ----

  /** The server's configuration, and its state with that of the session it drives. */
  datatype Setup = Setup(cfg: Config, services: seq<Entry>, access: AccessTable.table, unlisted: bool)
  datatype Core = Core(pending: State, session: Session.State, requests: u32)
  datatype Reply = Reply(core: Core, response: frame, events: seq<Event>)

  function Rules(setup: Setup): AccessTable.table {
    if |setup.access| > 0 then setup.access else AccessTable.DEFAULT_TABLE
  }

  function Access(setup: Setup, sid: u8, session: Session.Kind, level: u8): Status {
    AccessTable.Decision(Rules(setup), setup.unlisted, sid, session, level)
  }

  function FindHandler(services: seq<Entry>, sid: u8): Option<Entry>
    decreases |services|
  {
    if services == [] then None
    else if services[0].sid == sid then Some(services[0])
    else FindHandler(services[1..], sid)
  }

  predicate Suppresses(entry: Entry, req: frame) {
    entry.suppressSupported && |req| >= 2 && req[1] >= SUPPRESS_BIT
  }

  function Refuse(c: Core, sid: u8, nrc: u8): Reply {
    Reply(c.(pending := c.pending.(negatives := Inc(c.pending.negatives))), NegativeFrame(sid, nrc), [])
  }

  /** The handler of a request that passed all checks. */
  function RunHandler(setup: Setup, c: Core, entry: Entry, req: frame, functional: bool, h: HandlerRun): Reply
    requires req != [] && c.pending.slot.Free?
  {
    match h
    case Defers(job) =>
      if CanDefer(setup.cfg, Free, job, functional) then
        var (p, events) := AfterDefer(setup.cfg, c.pending, job, functional);
        Reply(c.(pending := p), NegativeFrame(job.sid, RESPONSE_PENDING), events)
      else Refuse(c, req[0], StatusToNrc(DeferStatus(setup.cfg, Free, job, functional)))
    case Answers(status, response) =>
      if status != Ok then Refuse(c, req[0], StatusToNrc(status))
      else Reply(c, if Suppresses(entry, req) then [] else response, [])
  }

  function Dispatch(setup: Setup, c: Core, level: u8, req: frame, functional: bool, h: HandlerRun): Reply
    requires req != [] && c.pending.slot.Free?
  {
    match FindHandler(setup.services, req[0])
    case None => Refuse(c, req[0], SERVICE_NOT_SUPPORTED)
    case Some(entry) =>
      var d := c.(session := Session.Restart(c.session));
      var access := Access(setup, req[0], d.session.active, level);
      if access != Ok then Refuse(d, req[0], StatusToNrc(access))
      else RunHandler(setup, d, entry, req, functional, h)
  }

  /** srv_reject_while_pending */
  function RejectWhilePending(c: Core, req: frame, functional: bool): Reply
    requires req != []
  {
    if req == [TESTER_PRESENT, SUPPRESS_BIT] then Reply(c.(session := Session.Restart(c.session)), [], [])
    else if functional then Reply(c, [], [])
    else Refuse(c, req[0], BUSY_REPEAT_REQUEST)
  }

  /** The answer to a request, before the rule for functional addressing. */
  function Unfiltered(setup: Setup, c: Core, level: u8, req: frame, functional: bool, h: HandlerRun): Reply
    requires req != []
  {
    var d := c.(requests := Inc(c.requests));
    if c.pending.slot.Taken? then RejectWhilePending(d, req, functional)
    else Dispatch(setup, d, level, req, functional, h)
  }

  /** A request of valid length, from outside the job's step. */
  function Process(setup: Setup, c: Core, level: u8, req: frame, functional: bool, h: HandlerRun): Reply
    requires req != []
  {
    var r := Unfiltered(setup, c, level, req, functional, h);
    if functional && FunctionallySilent(r.response) then r.(response := []) else r
  }

  /** The state, and what the job sees, after one tick. */
  function TickPending(s: State, expires: bool): (State, seq<Event>) {
    if expires then AfterAbort(AfterMillisecond(s)) else (AfterMillisecond(s), [])
  }

  // ---- What a request can and cannot do ----

  datatype Request = Request(bytes: frame, functional: bool, level: u8, run: HandlerRun)

  type requestList = rs: seq<Request> | forall r :: r in rs ==> r.bytes != []

  /** Requests one after the other: the state after them, the answers, and what the job sees. */
  function ProcessAll(setup: Setup, c: Core, rs: requestList): (Core, seq<frame>, seq<Event>)
    decreases |rs|
  {
    if rs == [] then (c, [], [])
    else
      var r := Process(setup, c, rs[0].level, rs[0].bytes, rs[0].functional, rs[0].run);
      var (z, answers, events) := ProcessAll(setup, r.core, rs[1..]);
      (z, [r.response] + answers, r.events + events)
  }

  lemma ProcessAllUnfolds(setup: Setup, c: Core, rs: requestList, r: Reply)
    requires rs != [] && r == Process(setup, c, rs[0].level, rs[0].bytes, rs[0].functional, rs[0].run)
    ensures var rest := ProcessAll(setup, r.core, rs[1..]);
      ProcessAll(setup, c, rs) == (rest.0, [r.response] + rest.1, r.events + rest.2)
  {
    hide Process;
  }

  /** TesterPresent that wants no answer. */
  predicate KeepsSession(r: Request) {
    r.bytes == [TESTER_PRESENT, SUPPRESS_BIT]
  }

  predicate IsRefusedBusy(r: Request) {
    !r.functional && !KeepsSession(r)
  }

  function Refusals(rs: requestList): nat
    decreases |rs|
  {
    if rs == [] then 0 else (if IsRefusedBusy(rs[0]) then 1 else 0) + Refusals(rs[1..])
  }

  predicate AnyKeepsSession(rs: requestList) {
    exists r :: r in rs && KeepsSession(r)
  }

  function BusyAnswer(r: Request): frame
    requires r.bytes != []
  {
    if IsRefusedBusy(r) then NegativeFrame(r.bytes[0], BUSY_REPEAT_REQUEST) else []
  }

  function BusyAnswers(rs: requestList): seq<frame> {
    seq(|rs|, i requires 0 <= i < |rs| => BusyAnswer(rs[i]))
  }

  lemma BusyAnswersUnfold(rs: requestList)
    ensures BusyAnswers(rs) == if rs == [] then [] else [BusyAnswer(rs[0])] + BusyAnswers(rs[1..])
  {
    hide BusyAnswer;
  }

  function Wrap32(n: nat): u32 {
    n % 0x1_0000_0000
  }

  function AfterBusy(c: Core, keepsSession: bool, requests: nat, refusals: nat): Core {
    Core(c.pending.(negatives := Wrap32(c.pending.negatives + refusals)),
         if keepsSession then Session.Restart(c.session) else c.session,
         Wrap32(c.requests + requests))
  }

  lemma BusyRequest(setup: Setup, c: Core, r: Request)
    requires r.bytes != [] && c.pending.slot.Taken?
    ensures Process(setup, c, r.level, r.bytes, r.functional, r.run) ==
      Reply(AfterBusy(c, KeepsSession(r), 1, if IsRefusedBusy(r) then 1 else 0), BusyAnswer(r), [])
  {}

  lemma BusyAdds(c: Core, k: bool, l: bool, n: nat, m: nat, p: nat, q: nat)
    ensures AfterBusy(AfterBusy(c, k, n, p), l, m, q) == AfterBusy(c, k || l, n + m, p + q)
  {
    WrapAdds(c.requests + n, m);
    WrapAdds(c.pending.negatives + p, q);
  }

  lemma WrapAdds(n: nat, m: nat)
    ensures Wrap32(Wrap32(n) + m) == Wrap32(n + m)
  {}

  lemma AnyUnfolds(rs: requestList)
    requires rs != []
    ensures AnyKeepsSession(rs) <==> KeepsSession(rs[0]) || AnyKeepsSession(rs[1..])
  {
    hide KeepsSession;
    assert rs == [rs[0]] + rs[1..];
  }

  /**
   * While a job is pending, any run of requests leaves the job, the frame to send and the
   * session alone but for its S3 timer, which a silent TesterPresent restarts: each physical
   * request is refused as busy and counted, everything else gets no answer.
   */
  lemma {:induction false} PendingJobUndisturbed(setup: Setup, c: Core, rs: requestList)
    requires c.pending.slot.Taken?
    ensures ProcessAll(setup, c, rs) == (AfterBusy(c, AnyKeepsSession(rs), |rs|, Refusals(rs)), BusyAnswers(rs), [])
    decreases |rs|
  {
    hide Process, ProcessAll, AfterBusy, AnyKeepsSession, KeepsSession, IsRefusedBusy, BusyAnswer, BusyAnswers;
    BusyAnswersUnfold(rs);
    if rs == [] {
      NoRequests(setup, c);
    } else {
      var n := if IsRefusedBusy(rs[0]) then 1 else 0;
      var d := AfterBusy(c, KeepsSession(rs[0]), 1, n);
      BusyRequest(setup, c, rs[0]);
      ProcessAllUnfolds(setup, c, rs, Reply(d, BusyAnswer(rs[0]), []));
      StillTaken(c, KeepsSession(rs[0]), 1, n);
      PendingJobUndisturbed(setup, d, rs[1..]);
      BusyAdds(c, KeepsSession(rs[0]), AnyKeepsSession(rs[1..]), 1, |rs| - 1, n, Refusals(rs[1..]));
      AnyUnfolds(rs);
      assert [] + ProcessAll(setup, d, rs[1..]).2 == [];
    }
  }

  lemma NoRequests(setup: Setup, c: Core)
    ensures ProcessAll(setup, c, []) == (c, [], []) && AfterBusy(c, false, 0, 0) == c && !AnyKeepsSession([])
  {}

  lemma StillTaken(c: Core, k: bool, n: nat, p: nat)
    ensures AfterBusy(c, k, n, p).pending.slot == c.pending.slot
  {}

  /**
   * A request starts a job exactly when its handler runs and defers one that fits: then
   * the answer is 7F sid 78, whatever the suppress bit says, and in all other cases the
   * slot stays free.
   */
  lemma StartsJobExactlyWhen(setup: Setup, c: Core, level: u8, req: frame, functional: bool, h: HandlerRun)
    requires req != [] && c.pending.slot.Free?
    ensures var r := Process(setup, c, level, req, functional, h);
      && (r.core.pending.slot.Taken? <==>
            FindHandler(setup.services, req[0]).Some? && h.Defers? && CanDefer(setup.cfg, Free, h.job, functional) &&
            Access(setup, req[0], c.session.active, level) == Ok)
      && (r.core.pending.slot.Taken? ==>
            r.response == NegativeFrame(h.job.sid, RESPONSE_PENDING) && r.events == [Accepted(h.job.sid)] &&
            r.core.session == Session.Restart(c.session))
      && (r.core.pending.slot.Free? ==> r.events == [])
  {
    hide Access;
  }

  /**
   * What the tester gets from a handler that answers: silence exactly when a supported
   * suppress bit is set on a success or the answer is one that functional requests never
   * get, else the handler's bytes or its failure, which is also counted.
   */
  lemma AnswerExactly(setup: Setup, c: Core, level: u8, req: frame, functional: bool, status: Status, response: frame)
    requires req != [] && c.pending.slot.Free? && FindHandler(setup.services, req[0]).Some?
    requires Access(setup, req[0], c.session.active, level) == Ok && response != []
    ensures var r := Process(setup, c, level, req, functional, Answers(status, response));
      var wanted := if status == Ok then response else NegativeFrame(req[0], StatusToNrc(status));
      && (r.response == [] <==>
            (status == Ok && Suppresses(FindHandler(setup.services, req[0]).value, req)) ||
            (functional && FunctionallySilent(wanted)))
      && (r.response != [] ==> r.response == wanted)
      && r.core.pending ==
           c.pending.(negatives := if status == Ok then c.pending.negatives else Inc(c.pending.negatives))
  {
    hide Access, FindHandler, StatusToNrc, Suppresses;
  }

  /** No failure is reported with the code that promises a later answer. */
  lemma NrcIsFinal(status: Status)
    ensures StatusToNrc(status) != RESPONSE_PENDING && StatusToNrc(status) != BUSY_REPEAT_REQUEST
  {}

  /** A negative response, 7F sid nrc. */
  predicate IsNegative(f: frame) {
    |f| == 3 && f[0] == NEGATIVE_RESPONSE
  }

  /**
   * Unless a handler writes a negative response of its own, the tester is promised a later
   * answer exactly by the requests that start a job, and told to repeat exactly by those
   * that meet one.
   */
  lemma PromiseExactlyWhen(setup: Setup, c: Core, level: u8, req: frame, functional: bool, h: HandlerRun)
    requires req != [] && (h.Answers? ==> !IsNegative(h.response))
    ensures var r := Process(setup, c, level, req, functional, h);
      && (IsNegative(r.response) && r.response[2] == RESPONSE_PENDING <==>
            c.pending.slot.Free? && r.core.pending.slot.Taken?)
      && (IsNegative(r.response) && r.response[2] == BUSY_REPEAT_REQUEST <==>
            c.pending.slot.Taken? && IsRefusedBusy(Request(req, functional, level, h)))
  {
    hide Access, FindHandler, StatusToNrc, Suppresses, CanDefer, DeferStatus;
    forall status ensures StatusToNrc(status) != RESPONSE_PENDING && StatusToNrc(status) != BUSY_REPEAT_REQUEST {
      NrcIsFinal(status);
    }
  }

  /**
   * What a handler would do matters exactly when no job is pending, the service has a
   * handler and the rules open it.
   */
  lemma HandlerMattersExactlyWhen(setup: Setup, c: Core, level: u8, req: frame, functional: bool)
    requires req != []
    ensures
      (exists h, g :: Process(setup, c, level, req, functional, h) != Process(setup, c, level, req, functional, g))
      <==> c.pending.slot.Free? && FindHandler(setup.services, req[0]).Some? &&
           Access(setup, req[0], c.session.active, level) == Ok
  {
    hide Access, FindHandler;
    var h, g := Answers(Ok, []), Answers(ErrInvalidParam, []);
    if c.pending.slot.Free? && FindHandler(setup.services, req[0]).Some? &&
       Access(setup, req[0], c.session.active, level) == Ok
    {
      assert Process(setup, c, level, req, functional, h).core.pending.negatives == c.pending.negatives;
      assert Process(setup, c, level, req, functional, g).core.pending.negatives == Inc(c.pending.negatives);
    }
  }

  // ---- Each call keeps to the protocol of Pending ----

  ghost predicate Tracks(cfg: Config, s: State, trace: seq<Event>) {
    Inv(cfg, s) && Run(Pending.Idle, trace) == Some(PhaseOf(s))
  }

  lemma PollTracks(cfg: Config, s3: u32, s: State, trace: seq<Event>, o: Outcome)
    requires Tracks(cfg, s, trace)
    ensures Tracks(cfg, AfterPoll(cfg, s3, s, o).0, trace + AfterPoll(cfg, s3, s, o).1)
  {
    hide Run, Inv, PhaseOf, AfterPoll;
    Continues(cfg, s3, s, trace, Poll(o));
  }

  lemma FrameSentTracks(cfg: Config, s: State, trace: seq<Event>)
    requires Tracks(cfg, s, trace)
    ensures Tracks(cfg, AfterFrameSent(s).0, trace + AfterFrameSent(s).1)
  {
    hide Run, Inv, PhaseOf, AfterFrameSent;
    Continues(cfg, 0, s, trace, FrameSent);
  }

  lemma AbortTracks(cfg: Config, s: State, trace: seq<Event>)
    requires Tracks(cfg, s, trace)
    ensures Tracks(cfg, AfterAbort(s).0, trace + AfterAbort(s).1)
  {
    hide Run, Inv, PhaseOf, AfterAbort;
    Continues(cfg, 0, s, trace, Abort);
  }

  lemma MillisecondTracks(cfg: Config, s: State, trace: seq<Event>)
    requires Tracks(cfg, s, trace)
    ensures Tracks(cfg, AfterMillisecond(s), trace)
  {
    hide Run, Inv, PhaseOf, AfterMillisecond;
    Continues(cfg, 0, s, trace, Millisecond);
    assert trace + [] == trace;
  }

  lemma ProcessTracks(setup: Setup, c: Core, level: u8, req: frame, functional: bool, h: HandlerRun, trace: seq<Event>)
    requires req != [] && Tracks(setup.cfg, c.pending, trace)
    ensures var r := Process(setup, c, level, req, functional, h);
      Tracks(setup.cfg, r.core.pending, trace + r.events)
  {
    hide Run, Access, FindHandler;
    assert trace + [] == trace;
    if h.Defers? {
      Continues(setup.cfg, 0, c.pending, trace, Defer(h.job, functional));
    }
  }

  // ---- The C code ----

  class UdsServer {
    const session: Session.Context
    const security: Security.SecurityAccess
    const comm: CommControl.Control
    const cfg: Config
    const services: seq<Entry>
    const access: AccessTable.table
    const unlisted: bool            // the build switch UDS_ACL_ALLOW_UNLISTED_SERVICES

    var requestCount: u32
    var negativeCount: u32
    var rxFunctional: bool
    var tx: frame

    // The pending slot
    var active: bool
    var owed: bool
    var owedIsFinal: bool
    var inStep: bool
    var reentered: bool
    var job: Job
    var sinceFrame: u32
    var total: u32
    var keepaliveCount: u32

    ghost var trace: seq<Event>

    /** uds_server_init, with contexts and a service table that it accepts. */
    constructor (session: Session.Context, security: Security.SecurityAccess, comm: CommControl.Control,
                 cfg: Config, services: seq<Entry>, access: AccessTable.table, unlisted: bool)
      requires |services| <= MAX_HANDLERS
      ensures this.session == session && this.security == security && this.comm == comm
      ensures TheSetup() == Setup(cfg, services, access, unlisted)
      ensures Valid() && !inStep && Slot() == Free && requestCount == negativeCount == 0 && trace == []
      ensures Conforms()
    {
      this.session, this.security, this.comm := session, security, comm;
      this.cfg, this.services, this.access, this.unlisted := cfg, services, access, unlisted;
      requestCount, negativeCount, rxFunctional, tx := 0, 0, false, [];
      active, owed, owedIsFinal, inStep, reentered := false, false, false, false, false;
      job, sinceFrame, total, keepaliveCount := Job(0, 0), 0, 0, 0;
      trace := [];
    }

    ghost predicate Valid()
      reads this
    {
      && (!active ==> !owed && !owedIsFinal && !inStep && !reentered)
      && (reentered ==> inStep || (owed && owedIsFinal))
      && (owedIsFinal ==> owed)
      && (inStep ==> !owed)
    }

    ghost function Slot(): Slot
      reads this
    {
      if active then Taken(job, owed, owedIsFinal, sinceFrame, total, keepaliveCount) else Free
    }

    ghost function PendingState(): State
      reads this
    {
      State(Slot(), tx, negativeCount)
    }

    ghost function View(): Core
      reads this, session
    {
      Core(PendingState(), session.View(), requestCount)
    }

    ghost function TheSetup(): Setup {
      Setup(cfg, services, access, unlisted)
    }

    /** The contexts the server is given must have been set up. */
    ghost predicate Ready()
      reads this, session, security
    {
      Valid() && session.initialized && security.initialized
    }

    /** The events so far follow the protocol, up to the state the slot is in. */
    ghost predicate Conforms()
      reads this
    {
      Tracks(cfg, PendingState(), trace)
    }

    /** memset of the slot */
    method ClearSlot()
      modifies this`active, this`owed, this`owedIsFinal, this`inStep, this`reentered,
               this`job, this`sinceFrame, this`total, this`keepaliveCount
      ensures !active && !owed && !owedIsFinal && !inStep && !reentered
      ensures job == Job(0, 0) && sinceFrame == total == keepaliveCount == 0
    {
      active, owed, owedIsFinal, inStep, reentered := false, false, false, false, false;
      job, sinceFrame, total, keepaliveCount := Job(0, 0), 0, 0, 0;
    }

    /** The slot taken by a job that has just been accepted. */
    method TakeSlot(newJob: Job)
      modifies this`active, this`owed, this`owedIsFinal, this`inStep, this`reentered,
               this`job, this`sinceFrame, this`total, this`keepaliveCount
      ensures Valid() && !inStep && Slot() == Taken(newJob, false, false, 0, 0, 1)
    {
      ClearSlot();
      job := newJob;
      keepaliveCount := 1;
      active := true;
    }

    /** uds_server_defer */
    method Defer(newJob: Job) returns (status: Status, resp: frame)
      requires Valid() && !inStep
      modifies this`active, this`owed, this`owedIsFinal, this`inStep, this`reentered,
               this`job, this`sinceFrame, this`total, this`keepaliveCount, this`trace
      ensures Valid() && !inStep
      ensures status == DeferStatus(cfg, old(Slot()), newJob, rxFunctional)
      ensures PendingState() == AfterDefer(cfg, old(PendingState()), newJob, rxFunctional).0
      ensures trace == old(trace) + AfterDefer(cfg, old(PendingState()), newJob, rxFunctional).1
      ensures resp == if status == Ok then NegativeFrame(newJob.sid, RESPONSE_PENDING) else []
    {
      hide P2Star;
      resp := [];
      if newJob.stepMax >= P2Star(cfg) {
        return ErrGeneric, resp;
      }
      if rxFunctional {
        return ErrConditionsNotMet, resp;
      }
      if active {
        return ErrConditionsNotMet, resp;
      }
      TakeSlot(newJob);
      trace := trace + [Accepted(newJob.sid)];
      status := Ok;
      resp := NegativeFrame(newJob.sid, RESPONSE_PENDING);
    }

    method KeepaliveIsDue() returns (due: bool)
      requires active
      ensures due <==> KeepaliveDue(cfg, session.s3Timeout, Slot())
    {
      var interval := cfg.keepaliveMs;
      if interval == 0 {
        interval := P2Star(cfg) / 2;
      }
      if session.s3Timeout > 0 && interval > session.s3Timeout / 2 {
        interval := session.s3Timeout / 2;
      }
      due := sinceFrame >= interval;
    }

    /** srv_pending_owe_nrc */
    method OweNrc(nrc: u8, final: bool)
      requires active
      modifies this`tx, this`owed, this`owedIsFinal, this`keepaliveCount
      ensures PendingState() == Owe(old(PendingState()), nrc, final)
    {
      tx := NegativeFrame(job.sid, nrc);
      owed := true;
      owedIsFinal := final;
      if !final {
        keepaliveCount := Inc(keepaliveCount);
      }
    }

    /** The job's abort callback. */
    method CallAbort()
      modifies this`trace
      ensures trace == old(trace) + [AbortCalled]
    {
      trace := trace + [AbortCalled];
    }

    /** The job's step callback, behind the re-entrancy guard. */
    method CallStep(o: Outcome)
      requires !inStep
      modifies this`tx, this`inStep, this`reentered, this`trace
      ensures tx == o.response && !inStep && reentered == (old(reentered) || o.callsBack)
      ensures trace == old(trace) + [StepRan(o)]
    {
      tx := [];
      inStep := true;
      tx := o.response;
      reentered := reentered || o.callsBack;    // what ProcessRequest and Poll do while inStep
      trace := trace + [StepRan(o)];
      inStep := false;
    }

    /** srv_pending_run_step; o is what the job's step does. */
    method RunStep(o: Outcome)
      requires Valid() && active && !owed && !inStep
      modifies this`tx, this`negativeCount, this`owed, this`owedIsFinal, this`inStep, this`reentered,
               this`sinceFrame, this`total, this`keepaliveCount, this`trace
      ensures Valid() && active && !inStep
      ensures PendingState() == AfterStep(cfg, session.s3Timeout, old(PendingState()), o).0
      ensures trace == old(trace) + AfterStep(cfg, session.s3Timeout, old(PendingState()), o).1
    {
      hide Settle, Credit;
      CallStep(o);
      sinceFrame := Credit(sinceFrame, job.stepMax);
      total := Credit(total, job.stepMax);
      if reentered {
        CallAbort();
        OweNrc(GENERAL_REJECT, true);
        return;
      }
      SettleStep(o.result, o.nrc);
    }

    /** The switch at the end of srv_pending_run_step. */
    method SettleStep(result: StepResult, stepNrc: u8)
      requires active && !owed && !owedIsFinal
      modifies this`tx, this`negativeCount, this`owed, this`owedIsFinal, this`keepaliveCount, this`trace
      ensures owedIsFinal ==> owed
      ensures PendingState() == Settle(cfg, session.s3Timeout, old(PendingState()), result, stepNrc)
      ensures trace == old(trace) + if result == Unknown then [AbortCalled] else []
    {
      hide Interval;
      match result {
        case InProgress =>
          var due := KeepaliveIsDue();
          if due {
            OweNrc(RESPONSE_PENDING, false);
          }
        case Done =>
          if |tx| == 0 || |tx| > MAX_PAYLOAD {
            OweNrc(GENERAL_REJECT, true);
          } else {
            owed := true;
            owedIsFinal := true;
          }
        case Failed =>
          var nrc := stepNrc;
          if nrc == RESPONSE_PENDING {
            nrc := GENERAL_REJECT;
          }
          negativeCount := Inc(negativeCount);
          OweNrc(nrc, true);
        case Unknown =>
          CallAbort();
          OweNrc(GENERAL_REJECT, true);
      }
    }

    /** The part of uds_server_poll for a job that owes no frame. */
    method AdvanceJob(o: Outcome)
      requires Ready() && active && !owed && !inStep
      modifies this`tx, this`negativeCount, this`owed, this`owedIsFinal, this`inStep, this`reentered,
               this`sinceFrame, this`total, this`keepaliveCount, this`trace, session`s3Timer
      ensures Valid() && active && !inStep
      ensures PendingState() == Advance(cfg, session.s3Timeout, old(PendingState()), o).0
      ensures trace == old(trace) + Advance(cfg, session.s3Timeout, old(PendingState()), o).1
      ensures session.View() == if owed then Session.Restart(old(session.View())) else old(session.View())
    {
      hide Interval, AfterStep;
      var due := KeepaliveIsDue();
      if total >= cfg.capMs {
        CallAbort();
        OweNrc(GENERAL_REJECT, true);
      } else if due {
        OweNrc(RESPONSE_PENDING, false);
      } else {
        RunStep(o);
      }
      if owed {
        var _ := session.ResetS3Timer();
      }
    }

    /** uds_server_poll; o is what the job's step does if it is run. */
    method Poll(o: Outcome) returns (result: PollResult, out: frame)
      requires Ready()
      modifies this`tx, this`negativeCount, this`owed, this`owedIsFinal, this`inStep, this`reentered,
               this`sinceFrame, this`total, this`keepaliveCount, this`trace, session`s3Timer
      ensures Valid() && inStep == old(inStep)
      ensures old(inStep) ==> reentered && result == PollNothing && View() == old(View()) && trace == old(trace)
      ensures !old(inStep) ==>
        var s := old(PendingState());
        PendingState() == AfterPoll(cfg, session.s3Timeout, s, o).0 &&
        trace == old(trace) + AfterPoll(cfg, session.s3Timeout, s, o).1 &&
        session.View() == (if MakesFrame(cfg, session.s3Timeout, s, o) then Session.Restart(old(session.View()))
                           else old(session.View())) &&
        result == (if s.slot.Free? then PollIdle else if Owes(Slot()) then PollFrame else PollNothing)
      ensures out == if result == PollFrame then tx else []
      ensures old(Conforms()) ==> Conforms()
    {
      hide Advance, Tracks;
      ghost var s := PendingState();
      if Tracks(cfg, s, trace) {
        PollTracks(cfg, session.s3Timeout, s, trace, o);
      }
      out := [];
      if !active {
        return PollIdle, out;
      }
      if inStep {
        reentered := true;
        return PollNothing, out;
      }
      if !owed {
        AdvanceJob(o);
      }
      if owed {
        trace := trace + [Offered(tx, owedIsFinal)];
        return PollFrame, tx;
      }
      result := PollNothing;
    }

    /** uds_server_frame_sent */
    method FrameSent()
      requires Valid() && !inStep
      modifies this
      ensures Valid() && !inStep
      ensures PendingState() == AfterFrameSent(old(PendingState())).0 && requestCount == old(requestCount)
      ensures trace == old(trace) + AfterFrameSent(old(PendingState())).1
      ensures old(Conforms()) ==> Conforms()
    {
      hide Tracks;
      ghost var s := PendingState();
      if Tracks(cfg, s, trace) {
        FrameSentTracks(cfg, s, trace);
      }
      if !active || !owed {
        return;
      }
      trace := trace + [Confirmed];
      if owedIsFinal {
        ClearSlot();
      } else {
        owed := false;
        sinceFrame := 0;
      }
    }

    /** uds_server_pending_abort */
    method PendingAbort()
      requires Valid() && !inStep
      modifies this
      ensures Valid() && !inStep
      ensures PendingState() == AfterAbort(old(PendingState())).0 && requestCount == old(requestCount)
      ensures trace == old(trace) + AfterAbort(old(PendingState())).1
      ensures old(Conforms()) ==> Conforms()
    {
      hide Tracks;
      ghost var s := PendingState();
      if Tracks(cfg, s, trace) {
        AbortTracks(cfg, s, trace);
      }
      if !active {
        return;
      }
      if !owedIsFinal {
        CallAbort();
      }
      trace := trace + [Released];
      ClearSlot();
    }

    /** The clocks of a pending job. */
    method CountMillisecond()
      requires Valid() && !inStep
      modifies this`sinceFrame, this`total
      ensures Valid() && PendingState() == AfterMillisecond(old(PendingState()))
      ensures old(Conforms()) ==> Conforms()
    {
      if Tracks(cfg, PendingState(), trace) {
        MillisecondTracks(cfg, PendingState(), trace);
      }
      hide Tracks, Credit;
      if active {
        sinceFrame := Credit(sinceFrame, 1);
        total := Credit(total, 1);
      }
    }

    /** What a tick does when S3 has run out: as for an explicit return to the default session. */
    method EndSession()
      requires Ready() && !inStep
      modifies this, security, comm
      ensures Ready() && !inStep && requestCount == old(requestCount)
      ensures PendingState() == AfterAbort(old(PendingState())).0
      ensures trace == old(trace) + AfterAbort(old(PendingState())).1
      ensures security.View() == Security.AfterReset(old(security.View()))
      ensures comm.View() == if comm.initialized then CommControl.NORMAL else old(comm.View())
      ensures old(Conforms()) ==> Conforms()
    {
      hide Tracks, AfterAbort;
      var _ := security.Reset();
      var _ := comm.RestoreDefaults();
      PendingAbort();
    }

    /** The clocks of the slot and the session; when S3 runs out the rest of the stack follows. */
    method TickClocks() returns (status: Status)
      requires Ready() && !inStep
      modifies this, session`active, session`s3Timer, security, comm
      ensures Ready() && !inStep && requestCount == old(requestCount)
      ensures session.View() == Session.AfterTick(old(session.View()))
      ensures var expires := Session.Expires(old(session.View()));
        PendingState() == TickPending(old(PendingState()), expires).0 &&
        trace == old(trace) + TickPending(old(PendingState()), expires).1 &&
        security.View() == (if expires then Security.AfterReset(old(security.View())) else old(security.View())) &&
        comm.View() == (if expires && comm.initialized then CommControl.NORMAL else old(comm.View())) &&
        status == if expires then ErrSessionTimeout else Ok
      ensures old(Conforms()) ==> Conforms()
    {
      hide Tracks, Valid, AfterAbort, AfterMillisecond;
      hide Security.AfterReset, Session.AfterTick, Session.Expires;
      CountMillisecond();
      status := session.Tick();
      if status == ErrSessionTimeout {
        EndSession();
      }
    }

    /** uds_server_tick_1ms */
    method Tick() returns (status: Status)
      requires Ready() && !inStep
      modifies this, session`active, session`s3Timer, security, comm
      ensures Ready() && !inStep && requestCount == old(requestCount)
      ensures session.View() == Session.AfterTick(old(session.View()))
      ensures var expires := Session.Expires(old(session.View()));
        PendingState() == TickPending(old(PendingState()), expires).0 &&
        trace == old(trace) + TickPending(old(PendingState()), expires).1 &&
        security.View() == Security.AfterTick(
          if expires then Security.AfterReset(old(security.View())) else old(security.View())) &&
        comm.View() == (if expires && comm.initialized then CommControl.NORMAL else old(comm.View())) &&
        status == if expires then ErrSessionTimeout else Ok
      ensures old(Conforms()) ==> Conforms()
    {
      hide Tracks, Valid, TickPending, PendingState;
      hide Security.AfterReset, Security.AfterTick, Session.AfterTick, Session.Expires;
      status := TickClocks();
      if status != Ok {
        var _ := security.Tick();
        return;
      }
      status := security.Tick();
    }

    /** srv_find_handler */
    method Find(sid: u8) returns (entry: Option<Entry>)
      ensures entry == FindHandler(services, sid)
    {
      entry := None;
      var i := 0;
      assert services[0..] == services;
      while i < |services|
        invariant i <= |services| && FindHandler(services, sid) == FindHandler(services[i..], sid)
      {
        if services[i].sid == sid {
          return Some(services[i]);
        }
        i := i + 1;
      }
    }

    /** srv_reject_while_pending */
    method RejectRequest(req: frame) returns (resp: frame)
      requires Ready() && req != [] && active
      modifies this`negativeCount, session`s3Timer
      ensures Valid()
      ensures Reply(View(), resp, []) == RejectWhilePending(old(View()), req, rxFunctional)
    {
      if |req| == 2 && req[0] == TESTER_PRESENT && req[1] == 0x80 {
        var _ := session.ResetS3Timer();
        return [];
      }
      if rxFunctional {
        return [];
      }
      negativeCount := Inc(negativeCount);
      resp := NegativeFrame(req[0], BUSY_REPEAT_REQUEST);
    }

    /** The handler, and what srv_process makes of its result. */
    method Handle(entry: Entry, suppress: bool, req: frame, h: HandlerRun) returns (resp: frame)
      requires Valid() && !inStep && !active && req != [] && suppress == Suppresses(entry, req)
      modifies this
      ensures Valid() && !inStep && rxFunctional == old(rxFunctional)
      ensures var r := RunHandler(TheSetup(), old(View()), entry, req, rxFunctional, h);
        View() == r.core && resp == r.response && trace == old(trace) + r.events
    {
      hide P2Star, NegativeFrame, StatusToNrc, Suppresses, Inc;
      var status: Status;
      match h {
        case Defers(newJob) => status, resp := Defer(newJob);
        case Answers(s, response) => status, resp := s, response;
      }
      if status != Ok {
        negativeCount := Inc(negativeCount);
        return NegativeFrame(req[0], StatusToNrc(status));
      }
      if active {
        return;
      }
      if suppress {
        resp := [];
      }
    }

    /** The check with the table of the configuration, or the built-in one. */
    method CheckAccess(sid: u8) returns (status: Status)
      requires session.initialized && security.initialized
      ensures status == Access(TheSetup(), sid, session.active, security.activeLevel)
    {
      hide AccessTable.Decision;
      var rules := if |access| > 0 then access else AccessTable.DEFAULT_TABLE;
      status := AccessTable.CheckAccessRights(rules, unlisted, sid, session, security);
    }

    /** srv_process after the checks on the slot. */
    method DispatchRequest(req: frame, h: HandlerRun) returns (resp: frame)
      requires Ready() && !inStep && !active && req != []
      modifies this, session`s3Timer
      ensures Valid() && !inStep
      ensures var r := Dispatch(TheSetup(), old(View()), security.activeLevel, req, old(rxFunctional), h);
        View() == r.core && resp == r.response && trace == old(trace) + r.events
    {
      hide Access, RunHandler, FindHandler, StatusToNrc, Inc, NegativeFrame;
      var entry := Find(req[0]);
      if entry == None {
        negativeCount := Inc(negativeCount);
        return NegativeFrame(req[0], SERVICE_NOT_SUPPORTED);
      }
      var _ := session.ResetS3Timer();
      var suppress := false;
      if entry.value.suppressSupported && |req| >= 2 {
        suppress := req[1] >= SUPPRESS_BIT;
      }
      var status := CheckAccess(req[0]);
      if status != Ok {
        negativeCount := Inc(negativeCount);
        return NegativeFrame(req[0], StatusToNrc(status));
      }
      resp := Handle(entry.value, suppress, req, h);
    }

    /** srv_process for a request that it accepts. */
    method AnswerRequest(req: frame, h: HandlerRun) returns (resp: frame)
      requires Ready() && !inStep && req != []
      modifies this, session`s3Timer
      ensures Valid() && !inStep
      ensures var r := Unfiltered(TheSetup(), old(View()), security.activeLevel, req, old(rxFunctional), h);
        View() == r.core && resp == r.response && trace == old(trace) + r.events
    {
      hide Dispatch, RejectWhilePending;
      requestCount := Inc(requestCount);
      if active {
        resp := RejectRequest(req);
      } else {
        resp := DispatchRequest(req, h);
      }
    }

    /** uds_server_process_request_ex; h is what the handler does if it is called. */
    method ProcessRequest(req: frame, functional: bool, h: HandlerRun) returns (status: Status, resp: frame)
      requires Ready()
      modifies this, session`s3Timer
      ensures Valid() && inStep == old(inStep)
      ensures status == if |req| == 0 then ErrInvalidParam
                        else if |req| > MAX_PAYLOAD then ErrBufferOverflow
                        else if old(inStep) then ErrBusy else Ok
      ensures status != Ok ==> View() == old(View()) && trace == old(trace) && resp == []
      ensures status == ErrBusy ==> reentered
      ensures status == Ok ==>
        var r := Process(TheSetup(), old(View()), security.activeLevel, req, functional, h);
        View() == r.core && resp == r.response && trace == old(trace) + r.events
      ensures old(Conforms()) ==> Conforms()
    {
      hide Unfiltered, FunctionallySilent, Tracks;
      if Tracks(cfg, PendingState(), trace) && req != [] {
        ProcessTracks(TheSetup(), View(), security.activeLevel, req, functional, h, trace);
      }
      resp := [];
      rxFunctional := functional;
      if |req| == 0 {
        return ErrInvalidParam, resp;
      }
      if |req| > MAX_PAYLOAD {
        return ErrBufferOverflow, resp;
      }
      if inStep {
        reentered := true;
        return ErrBusy, resp;
      }
      resp := AnswerRequest(req, h);
      status := Ok;
      if functional && FunctionallySilent(resp) {
        resp := [];
      }
    }
  }
}
