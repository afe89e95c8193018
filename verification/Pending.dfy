/**
 * Response-pending jobs (core/uds_server.c): the slot's four operations as functions, the
 * protocol they promise as an automaton over what the outside sees, and the proof that
 * every run follows the protocol.
 */
module Pending {
  import opened Types

  const MAX_PAYLOAD: nat := 4095
  const DEFAULT_P2_STAR_MS: u32 := 5000
  const NEGATIVE_RESPONSE: u8 := 0x7F
  const GENERAL_REJECT: u8 := 0x10
  const RESPONSE_PENDING: u8 := 0x78

  type frame = seq<u8>

  function NegativeFrame(sid: u8, nrc: u8): frame {
    [NEGATIVE_RESPONSE, sid, nrc]
  }

  /** P2* and the two compile-time settings; 0 selects the default of the first two. */
  datatype Config = Config(p2StarMs: u32, keepaliveMs: u32, capMs: u32)

  function P2Star(cfg: Config): u32 {
    if cfg.p2StarMs == 0 then DEFAULT_P2_STAR_MS else cfg.p2StarMs
  }

  /** The time between two pending frames: never more than half of S3. */
  function Interval(cfg: Config, s3: u32): u32 {
    var wanted := if cfg.keepaliveMs == 0 then P2Star(cfg) / 2 else cfg.keepaliveMs;
    if s3 > 0 && wanted > s3 / 2 then s3 / 2 else wanted
  }

  datatype Job = Job(sid: u8, stepMax: u32)

  datatype Slot =
    | Free
    | Taken(job: Job, owed: bool, isFinal: bool, sinceFrame: u32, total: u32, keepalives: u32)

  /** The slot, the frame buffer and the counter of negative responses. */
  datatype State = State(slot: Slot, tx: frame, negatives: u32)

  /** What one call of the job's step did; callsBack: it called into the server. */
  datatype StepResult = InProgress | Done | Failed | Unknown
  datatype Outcome = Outcome(result: StepResult, response: frame, nrc: u8, callsBack: bool)

  /** What happens at the slot, as the service, the transport and the tester see it. */
  datatype Event =
    | Accepted(sid: u8)
    | StepRan(outcome: Outcome)
    | AbortCalled
    | Offered(sent: frame, final: bool)
    | Confirmed
    | Released

  function Inc(n: u32): u32 {
    (n + 1) % 0x1_0000_0000
  }

  /** srv_clock_add: clocks stop at their maximum. */
  function Credit(clock: u32, ms: u32): u32 {
    if clock > U32_MAX - ms then U32_MAX else clock + ms
  }

  // ---- The operations ----

  predicate CanDefer(cfg: Config, slot: Slot, job: Job, functional: bool) {
    job.stepMax < P2Star(cfg) && !functional && slot.Free?
  }

  function DeferStatus(cfg: Config, slot: Slot, job: Job, functional: bool): Status {
    if CanDefer(cfg, slot, job, functional) then Ok
    else if job.stepMax >= P2Star(cfg) then ErrGeneric
    else ErrConditionsNotMet
  }

  function AfterDefer(cfg: Config, s: State, job: Job, functional: bool): (State, seq<Event>) {
    if CanDefer(cfg, s.slot, job, functional)
    then (s.(slot := Taken(job, false, false, 0, 0, 1)), [Accepted(job.sid)])
    else (s, [])
  }

  function Owe(s: State, nrc: u8, final: bool): State
    requires s.slot.Taken?
  {
    s.(tx := NegativeFrame(s.slot.job.sid, nrc),
       slot := s.slot.(owed := true, isFinal := final,
                       keepalives := if final then s.slot.keepalives else Inc(s.slot.keepalives)))
  }

  predicate KeepaliveDue(cfg: Config, s3: u32, slot: Slot)
    requires slot.Taken?
  {
    slot.sinceFrame >= Interval(cfg, s3)
  }

  /** What becomes of the job after a step that kept out of the server; the step filled tx. */
  function Settle(cfg: Config, s3: u32, s: State, result: StepResult, nrc: u8): State
    requires s.slot.Taken?
  {
    match result
    case InProgress => if KeepaliveDue(cfg, s3, s.slot) then Owe(s, RESPONSE_PENDING, false) else s
    case Done =>
      if |s.tx| == 0 || |s.tx| > MAX_PAYLOAD then Owe(s, GENERAL_REJECT, true)
      else s.(slot := s.slot.(owed := true, isFinal := true))
    case Failed =>
      Owe(s.(negatives := Inc(s.negatives)), if nrc == RESPONSE_PENDING then GENERAL_REJECT else nrc, true)
    case Unknown => Owe(s, GENERAL_REJECT, true)
  }

  /** One step, with its declared duration credited to both clocks. */
  function AfterStep(cfg: Config, s3: u32, s: State, o: Outcome): (State, seq<Event>)
    requires s.slot.Taken?
  {
    var k := s.(tx := o.response,
                slot := s.slot.(sinceFrame := Credit(s.slot.sinceFrame, s.slot.job.stepMax),
                                total := Credit(s.slot.total, s.slot.job.stepMax)));
    if o.callsBack then (Owe(k, GENERAL_REJECT, true), [StepRan(o), AbortCalled])
    else (Settle(cfg, s3, k, o.result, o.nrc), if o.result == Unknown then [StepRan(o), AbortCalled] else [StepRan(o)])
  }

  /** Making a frame, or working towards one, when none is owed. */
  function Advance(cfg: Config, s3: u32, s: State, o: Outcome): (State, seq<Event>)
    requires s.slot.Taken?
  {
    if s.slot.total >= cfg.capMs then (Owe(s, GENERAL_REJECT, true), [AbortCalled])
    else if KeepaliveDue(cfg, s3, s.slot) then (Owe(s, RESPONSE_PENDING, false), [])
    else AfterStep(cfg, s3, s, o)
  }

  predicate Owes(slot: Slot) {
    slot.Taken? && slot.owed
  }

  function AfterPoll(cfg: Config, s3: u32, s: State, o: Outcome): (State, seq<Event>) {
    if s.slot.Free? then (s, [])
    else
      var (t, events) := if s.slot.owed then (s, []) else Advance(cfg, s3, s, o);
      (t, if Owes(t.slot) then events + [Offered(t.tx, t.slot.isFinal)] else events)
  }

  /** S3 is restarted by a poll that makes a frame, not by one that repeats it. */
  predicate MakesFrame(cfg: Config, s3: u32, s: State, o: Outcome) {
    !Owes(s.slot) && Owes(AfterPoll(cfg, s3, s, o).0.slot)
  }

  function AfterFrameSent(s: State): (State, seq<Event>) {
    if !Owes(s.slot) then (s, [])
    else if s.slot.isFinal then (s.(slot := Free), [Confirmed])
    else (s.(slot := s.slot.(owed := false, sinceFrame := 0)), [Confirmed])
  }

  function AfterAbort(s: State): (State, seq<Event>) {
    if s.slot.Free? then (s, [])
    else (s.(slot := Free), if s.slot.isFinal then [Released] else [AbortCalled, Released])
  }

  /** One millisecond on both clocks. */
  function AfterMillisecond(s: State): State {
    if s.slot.Free? then s
    else s.(slot := s.slot.(sinceFrame := Credit(s.slot.sinceFrame, 1), total := Credit(s.slot.total, 1)))
  }

  // ---- The protocol ----

  /** Ended: the job has given its answer, or was told to stop; frame is its final frame. */
  datatype Phase =
    | Idle
    | Working(sid: u8)
    | Keepalive(sid: u8)
    | Broken(sid: u8)
    | Ended(frame: frame)

  /** The final frame after a step that finished by itself. */
  function Answer(sid: u8, o: Outcome): frame {
    if o.result == Failed then NegativeFrame(sid, if o.nrc == RESPONSE_PENDING then GENERAL_REJECT else o.nrc)
    else if 0 < |o.response| <= MAX_PAYLOAD then o.response
    else NegativeFrame(sid, GENERAL_REJECT)
  }

  predicate Finishes(o: Outcome) {
    !o.callsBack && (o.result == Done || o.result == Failed)
  }

  function Next(p: Phase, e: Event): Option<Phase> {
    match (p, e)
    case (Idle, Accepted(sid)) => Some(Working(sid))
    case (Working(sid), StepRan(o)) =>
      Some(if Finishes(o) then Ended(Answer(sid, o))
           else if o.callsBack || o.result == Unknown then Broken(sid) else Working(sid))
    case (Working(sid), AbortCalled) => Some(Ended(NegativeFrame(sid, GENERAL_REJECT)))
    case (Broken(sid), AbortCalled) => Some(Ended(NegativeFrame(sid, GENERAL_REJECT)))
    case (Keepalive(sid), AbortCalled) => Some(Ended(NegativeFrame(sid, GENERAL_REJECT)))
    case (Working(sid), Offered(f, false)) =>
      if f == NegativeFrame(sid, RESPONSE_PENDING) then Some(Keepalive(sid)) else None
    case (Keepalive(sid), Offered(f, false)) =>
      if f == NegativeFrame(sid, RESPONSE_PENDING) then Some(p) else None
    case (Keepalive(sid), Confirmed) => Some(Working(sid))
    case (Ended(frame), Offered(f, true)) => if f == frame then Some(p) else None
    case (Ended(_), Confirmed) => Some(Idle)
    case (Ended(_), Released) => Some(Idle)
    case _ => None
  }

  function Run(p: Phase, es: seq<Event>): Option<Phase>
    decreases |es|
  {
    if es == [] then Some(p)
    else match Next(p, es[0])
      case None => None
      case Some(q) => Run(q, es[1..])
  }

  function PhaseOf(s: State): Phase {
    match s.slot
    case Free => Idle
    case Taken(job, owed, isFinal, _, _, _) =>
      if !owed then Working(job.sid) else if isFinal then Ended(s.tx) else Keepalive(job.sid)
  }

  /** What the buffer holds while a frame is owed. */
  predicate Inv(cfg: Config, s: State) {
    s.slot.Taken? ==>
      && s.slot.job.stepMax < P2Star(cfg)
      && (s.slot.isFinal ==> s.slot.owed && 0 < |s.tx| <= MAX_PAYLOAD)
      && (s.slot.owed && !s.slot.isFinal ==> s.tx == NegativeFrame(s.slot.job.sid, RESPONSE_PENDING))
  }

  // ---- Every run follows the protocol ----

  datatype Call =
    | Defer(job: Job, functional: bool)
    | Poll(outcome: Outcome)
    | FrameSent
    | Abort
    | Millisecond

  function Perform(cfg: Config, s3: u32, s: State, c: Call): (State, seq<Event>) {
    match c
    case Defer(job, functional) => AfterDefer(cfg, s, job, functional)
    case Poll(o) => AfterPoll(cfg, s3, s, o)
    case FrameSent => AfterFrameSent(s)
    case Abort => AfterAbort(s)
    case Millisecond => (AfterMillisecond(s), [])
  }

  function PerformAll(cfg: Config, s3: u32, s: State, cs: seq<Call>): (State, seq<Event>)
    decreases |cs|
  {
    if cs == [] then (s, [])
    else
      var (t, es) := Perform(cfg, s3, s, cs[0]);
      var (u, fs) := PerformAll(cfg, s3, t, cs[1..]);
      (u, es + fs)
  }

  lemma {:induction false} RunAppend(p: Phase, es: seq<Event>, fs: seq<Event>)
    ensures Run(p, es + fs) == match Run(p, es) case None => None case Some(q) => Run(q, fs)
    decreases |es|
  {
    if es == [] {
      assert es + fs == fs;
    } else {
      assert (es + fs)[1..] == es[1..] + fs;
      match Next(p, es[0])
      case None =>
      case Some(q) => RunAppend(q, es[1..], fs);
    }
  }

  lemma RunOne(p: Phase, e: Event)
    ensures Run(p, [e]) == Next(p, e)
  {
    assert [e][1..] == [];
  }

  lemma RunTwo(p: Phase, e: Event, f: Event)
    ensures Run(p, [e, f]) == match Next(p, e) case None => None case Some(q) => Next(q, f)
  {
    RunOne(p, e);
    RunOne(if Next(p, e).Some? then Next(p, e).value else p, f);
    RunAppend(p, [e], [f]);
    assert [e] + [f] == [e, f];
  }

  lemma StepFollows(cfg: Config, s3: u32, s: State, o: Outcome)
    requires Inv(cfg, s) && s.slot.Taken? && !s.slot.owed
    ensures var (t, es) := AfterStep(cfg, s3, s, o);
      Inv(cfg, t) && t.slot.Taken? &&
      if t.slot.owed && !t.slot.isFinal then Run(PhaseOf(s), es) == Some(PhaseOf(s))
      else Run(PhaseOf(s), es) == Some(PhaseOf(t))
  {
    hide Run, Interval;
    RunOne(PhaseOf(s), StepRan(o));
    RunTwo(PhaseOf(s), StepRan(o), AbortCalled);
  }

  lemma PollFollows(cfg: Config, s3: u32, s: State, o: Outcome)
    requires Inv(cfg, s)
    ensures var (t, es) := AfterPoll(cfg, s3, s, o);
      Inv(cfg, t) && Run(PhaseOf(s), es) == Some(PhaseOf(t))
  {
    if s.slot.Taken? {
      var (t, es) := if s.slot.owed then (s, []) else Advance(cfg, s3, s, o);
      hide Run, AfterStep, Interval;
      NoEvents(PhaseOf(s));
      RunOne(PhaseOf(s), AbortCalled);
      if !s.slot.owed && s.slot.total < cfg.capMs && !KeepaliveDue(cfg, s3, s.slot) {
        StepFollows(cfg, s3, s, o);
      }
      if t.slot.owed {
        var offer := Offered(t.tx, t.slot.isFinal);
        RunAppend(PhaseOf(s), es, [offer]);
        RunOne(PhaseOf(s), offer);
        RunOne(PhaseOf(t), offer);
      }
    }
  }

  lemma NoEvents(p: Phase)
    ensures Run(p, []) == Some(p)
  {}

  lemma CallFollows(cfg: Config, s3: u32, s: State, c: Call)
    requires Inv(cfg, s)
    ensures var (t, es) := Perform(cfg, s3, s, c);
      Inv(cfg, t) && Run(PhaseOf(s), es) == Some(PhaseOf(t))
  {
    hide Run, AfterPoll;
    NoEvents(PhaseOf(s));
    match c
    case Poll(o) => PollFollows(cfg, s3, s, o);
    case Defer(job, _) => RunOne(PhaseOf(s), Accepted(job.sid));
    case FrameSent => RunOne(PhaseOf(s), Confirmed);
    case Abort =>
      RunOne(PhaseOf(s), Released);
      RunTwo(PhaseOf(s), AbortCalled, Released);
    case Millisecond =>
  }

  /** A trace that has followed the protocol so far still does after any call. */
  lemma Continues(cfg: Config, s3: u32, s: State, trace: seq<Event>, c: Call)
    requires Inv(cfg, s) && Run(Idle, trace) == Some(PhaseOf(s))
    ensures var (t, es) := Perform(cfg, s3, s, c);
      Inv(cfg, t) && Run(Idle, trace + es) == Some(PhaseOf(t))
  {
    hide Run, Perform, Inv, PhaseOf;
    CallFollows(cfg, s3, s, c);
    RunAppend(Idle, trace, Perform(cfg, s3, s, c).1);
  }

  /** Whatever is called in whatever order, the events keep to the protocol. */
  lemma {:induction false} EveryRunFollows(cfg: Config, s3: u32, s: State, cs: seq<Call>)
    requires Inv(cfg, s)
    ensures var (t, es) := PerformAll(cfg, s3, s, cs);
      Inv(cfg, t) && Run(PhaseOf(s), es) == Some(PhaseOf(t))
    decreases |cs|
  {
    hide Run, Perform, Inv, PhaseOf;
    if cs == [] {
      NoEvents(PhaseOf(s));
    } else {
      var (t, es) := Perform(cfg, s3, s, cs[0]);
      CallFollows(cfg, s3, s, cs[0]);
      EveryRunFollows(cfg, s3, t, cs[1..]);
      RunAppend(PhaseOf(s), es, PerformAll(cfg, s3, t, cs[1..]).1);
    }
  }

  // ---- What the protocol means, event by event ----

  /** A trace of the protocol from the start. */
  predicate Follows(es: seq<Event>) {
    Run(Idle, es).Some?
  }

  /** The phase after the first k events. */
  function At(es: seq<Event>, k: nat): Phase
    requires Follows(es) && k <= |es|
  {
    RunAppend(Idle, es[..k], es[k..]);
    assert es[..k] + es[k..] == es;
    Run(Idle, es[..k]).value
  }

  /** From the phase at i the protocol accepts the events from i to j, and is then in the phase at j. */
  lemma Between(es: seq<Event>, i: nat, j: nat)
    requires Follows(es) && i <= j <= |es|
    ensures Run(At(es, i), es[i..j]) == Some(At(es, j))
  {
    hide Run;
    assert es[..i] + es[i..j] == es[..j];
    RunAppend(Idle, es[..i], es[i..j]);
    At1(es, i);
    At1(es, j);
  }

  lemma At1(es: seq<Event>, k: nat)
    requires Follows(es) && k <= |es|
    ensures Run(Idle, es[..k]) == Some(At(es, k))
  {
    hide Run;
    RunAppend(Idle, es[..k], es[k..]);
    assert es[..k] + es[k..] == es;
  }

  lemma StepAt(es: seq<Event>, i: nat)
    requires Follows(es) && i < |es|
    ensures Next(At(es, i), es[i]) == Some(At(es, i + 1))
  {
    hide Run;
    Between(es, i, i + 1);
    assert es[i..i + 1] == [es[i]];
    RunOne(At(es, i), es[i]);
  }

  /** A job whose end is settled only repeats its final frame. */
  lemma {:induction false} EndedStays(p: Phase, es: seq<Event>)
    requires (p.Ended? || p.Idle?) && Run(p, es).Some?
    requires forall e :: e in es ==> !e.Accepted?
    ensures forall e :: e in es ==> e == Confirmed || e == Released || (p.Ended? && e == Offered(p.frame, true))
    decreases |es|
  {
    if es != [] {
      assert es == [es[0]] + es[1..];
      EndedStays(Next(p, es[0]).value, es[1..]);
    }
  }

  /** The job has answered, or was told to stop. */
  predicate Settles(e: Event) {
    e == AbortCalled || (e.StepRan? && Finishes(e.outcome)) || (e.Offered? && e.final)
  }

  /** Once the final frame is confirmed, or the job released, the next event is another acceptance. */
  lemma NothingAfterConfirmation(es: seq<Event>, i: nat, k: nat)
    requires Follows(es) && i < k && k + 1 < |es| && Settles(es[i])
    requires forall l :: i < l <= k ==> !es[l].Accepted?
    requires es[k] == Confirmed || es[k] == Released
    ensures es[k + 1].Accepted?
  {
    hide Run;
    StepAt(es, i);
    Between(es, i + 1, k);
    var later := es[i + 1..k];
    assert forall e :: e in later ==> exists l :: i < l <= k && es[l] == e;
    EndedOrIdle(At(es, i + 1), later);
    StepAt(es, k);
    StepAt(es, k + 1);
  }

  /** A settled job stays settled until another is accepted. */
  lemma {:induction false} EndedOrIdle(p: Phase, es: seq<Event>)
    requires (p.Ended? || p.Idle?) && Run(p, es).Some?
    requires forall e :: e in es ==> !e.Accepted?
    ensures Run(p, es).value.Ended? || Run(p, es).value.Idle?
    decreases |es|
  {
    if es != [] {
      assert es == [es[0]] + es[1..];
      EndedOrIdle(Next(p, es[0]).value, es[1..]);
    }
  }

  /**
   * Once a job's end is settled there is, until another job is accepted, no step, no
   * further abort, no pending frame and no frame but one final one, offered again only
   * while it is not confirmed.
   */
  lemma NothingAfterTheEnd(es: seq<Event>, i: nat, j: nat)
    requires Follows(es) && i < j < |es| && Settles(es[i])
    requires forall k :: i < k <= j ==> !es[k].Accepted?
    ensures es[j] == Confirmed || es[j] == Released || es[j].Offered?
    ensures es[j].Offered? ==> es[j].final && (es[i].Offered? ==> es[j] == es[i])
    ensures forall k :: i < k <= j && es[k].Offered? && es[j].Offered? ==> es[k] == es[j]
    ensures forall k :: i < k < j ==> es[k] != Confirmed && es[k] != Released
  {
    hide Run;
    StepAt(es, i);
    Between(es, i + 1, j + 1);
    var later := es[i + 1..j + 1];
    assert forall e :: e in later ==> exists k :: i < k <= j && es[k] == e;
    EndedStays(At(es, i + 1), later);
    forall k | i < k <= j ensures es[k] in later {
      assert later[k - i - 1] == es[k];
    }
    forall k | i < k < j ensures es[k] != Confirmed && es[k] != Released {
      if es[k] == Confirmed || es[k] == Released {
        NothingAfterConfirmation(es, i, k);
      }
    }
  }

  /** A step runs only when every frame offered so far is confirmed or given up. */
  lemma NoStepWhileOwed(es: seq<Event>, i: nat, j: nat)
    requires Follows(es) && i < j < |es| && es[i].Offered? && es[j].StepRan?
    ensures exists k :: i < k < j && (es[k] == Confirmed || es[k] == Released)
  {
    hide Run;
    StepAt(es, i);
    StepAt(es, j);
    if forall k :: i < k < j ==> es[k] != Confirmed && es[k] != Released {
      Between(es, i + 1, j);
      var later := es[i + 1..j];
      assert forall e :: e in later ==> exists k :: i < k < j && es[k] == e;
      OwedStays(At(es, i + 1), later);
    }
  }

  /** Without a confirmation or a release an offered frame stays owed. */
  lemma {:induction false} OwedStays(p: Phase, es: seq<Event>)
    requires (p.Keepalive? || p.Ended?) && Run(p, es).Some?
    requires forall e :: e in es ==> e != Confirmed && e != Released
    ensures Run(p, es).value.Keepalive? || Run(p, es).value.Ended?
    decreases |es|
  {
    if es != [] {
      assert es[0] in es && forall e :: e in es[1..] ==> e in es;
      OwedStays(Next(p, es[0]).value, es[1..]);
    }
  }

  /** Until it is confirmed, or the job is told to stop, every poll offers the same bytes. */
  lemma SameFrameUntilConfirmed(es: seq<Event>, i: nat, j: nat)
    requires Follows(es) && i < j < |es| && es[i].Offered? && es[j].Offered?
    requires forall k :: i < k < j ==> es[k] != Confirmed && es[k] != Released && es[k] != AbortCalled
    ensures es[i] == es[j]
  {
    hide Run;
    StepAt(es, i);
    StepAt(es, j);
    Between(es, i + 1, j);
    var later := es[i + 1..j];
    assert forall e :: e in later ==> exists k :: i < k < j && es[k] == e;
    SamePhase(At(es, i + 1), later);
  }

  lemma {:induction false} SamePhase(p: Phase, es: seq<Event>)
    requires (p.Keepalive? || p.Ended?) && Run(p, es).Some?
    requires forall e :: e in es ==> e != Confirmed && e != Released && e != AbortCalled
    ensures Run(p, es) == Some(p)
    decreases |es|
  {
    if es != [] {
      assert es[0] in es && forall e :: e in es[1..] ==> e in es;
      SamePhase(p, es[1..]);
    }
  }

  function PhaseSid(p: Phase): Option<u8> {
    match p
    case Working(sid) => Some(sid)
    case Keepalive(sid) => Some(sid)
    case Broken(sid) => Some(sid)
    case _ => None
  }

  /** Every frame that is not final is 7F sid 78, for the job accepted last. */
  lemma {:induction false} PendingFrames(es: seq<Event>, j: nat)
    requires Follows(es) && j <= |es| && PhaseSid(At(es, j)).Some?
    ensures exists i :: 0 <= i < j && es[i] == Accepted(PhaseSid(At(es, j)).value) &&
                        forall k :: i < k < j ==> !es[k].Accepted?
    decreases j
  {
    hide Run;
    if j == 0 {
      At1(es, 0);
      assert es[..0] == [];
      NoEvents(Idle);
    } else {
      StepAt(es, j - 1);
      if !es[j - 1].Accepted? {
        PendingFrames(es, j - 1);
        var i :| 0 <= i < j - 1 && es[i] == Accepted(PhaseSid(At(es, j - 1)).value) &&
                 forall k :: i < k < j - 1 ==> !es[k].Accepted?;
        assert es[i] == Accepted(PhaseSid(At(es, j)).value);
      } else {
        assert es[j - 1] == Accepted(PhaseSid(At(es, j)).value);
      }
    }
  }

  lemma KeepaliveFrame(es: seq<Event>, j: nat)
    requires Follows(es) && j < |es| && es[j].Offered? && !es[j].final
    ensures exists i :: 0 <= i < j && es[i].Accepted? && es[j].sent == NegativeFrame(es[i].sid, RESPONSE_PENDING) &&
                        forall k :: i < k < j ==> !es[k].Accepted?
  {
    hide Run;
    StepAt(es, j);
    PendingFrames(es, j);
    var i :| 0 <= i < j && es[i] == Accepted(PhaseSid(At(es, j)).value) && forall k :: i < k < j ==> !es[k].Accepted?;
    assert es[i].Accepted?;
  }
}
