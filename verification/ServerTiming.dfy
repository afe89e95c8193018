/**
 * The clocks of a pending job: with polls at most d ticks apart and frames confirmed at
 * once, frames are in time, the job ends, and the session stays alive.
 */
module ServerTiming {
  import opened Types
  import opened Pending
  import opened Server
  import AccessTable
  import Session

  /** What happens while the job is pending. */
  datatype Moment =
    | Ticked
    | Polled(outcome: Outcome)
    | Requested(req: frame, functional: bool)

  predicate WellFormed(m: Moment) {
    m.Requested? ==> m.req != []
  }

  type Course = ms: seq<Moment> | forall m :: m in ms ==> WellFormed(m)

  /** One event in the life of a job; once the slot is free the course is over. */
  function Step(cfg: Config, c: Core, m: Moment): Core
    requires WellFormed(m)
  {
    if c.pending.slot.Free? then c
    else match m
      case Ticked => c.(pending := TickPending(c.pending, Session.Expires(c.session)).0,
                        session := Session.AfterTick(c.session))
      case Polled(o) =>
        var s3 := c.session.s3Timeout;
        c.(pending := AfterFrameSent(AfterPoll(cfg, s3, c.pending, o).0).0,
           session := if MakesFrame(cfg, s3, c.pending, o) then Session.Restart(c.session) else c.session)
      case Requested(req, functional) => RejectWhilePending(c, req, functional).core
  }

  function After(cfg: Config, c: Core, ms: Course): Core
    decreases |ms|
  {
    if ms == [] then c else After(cfg, Step(cfg, c, ms[0]), ms[1..])
  }

  /** With gap ticks since the last poll, no two polls are more than d ticks apart. */
  predicate Prompt(ms: Course, gap: nat, d: nat)
    decreases |ms|
  {
    if ms == [] then gap <= d
    else gap <= d && match ms[0]
      case Ticked => Prompt(ms[1..], gap + 1, d)
      case Polled(_) => Prompt(ms[1..], 0, d)
      case Requested(_, _) => Prompt(ms[1..], gap, d)
  }

  function Ticks(ms: Course): nat
    decreases |ms|
  {
    if ms == [] then 0 else (if ms[0].Ticked? then 1 else 0) + Ticks(ms[1..])
  }

  function Max(a: nat, b: nat): nat {
    if a < b then b else a
  }

  /** The highest the frame clock stands after a poll: 1 below the interval. */
  function Rest(cfg: Config, s3: u32): nat {
    var i := Interval(cfg, s3);
    if i == 0 then 0 else i - 1
  }

  /** The job has just been accepted, and the request restarted S3. */
  predicate JustAccepted(cfg: Config, c: Core) {
    && c.pending.slot.Taken? && !c.pending.slot.owed && !c.pending.slot.isFinal
    && c.pending.slot.sinceFrame == 0 && c.pending.slot.total == 0
    && c.session.s3Timer == c.session.s3Timeout > 0 && cfg.capMs > 0
  }

  /** That is how a request that starts a job leaves the server. */
  lemma RequestStartsCourse(setup: Setup, c: Core, level: u8, req: frame, functional: bool, h: HandlerRun)
    requires req != [] && c.pending.slot.Free? && c.session.s3Timeout > 0 && setup.cfg.capMs > 0
    requires Process(setup, c, level, req, functional, h).core.pending.slot.Taken?
    ensures JustAccepted(setup.cfg, Process(setup, c, level, req, functional, h).core)
  {
    hide AccessTable.Decision;
  }

  /** What the clocks show while the job lasts, gap ticks after a poll and t after the start. */
  predicate OnTime(cfg: Config, c: Core, s3: u32, stepMax: u32, gap: nat, t: nat) {
    var slot := c.pending.slot;
    && c.session.s3Timeout == s3
    && (slot.Taken? ==>
         && !slot.owed && !slot.isFinal && slot.job.stepMax == stepMax
         && slot.sinceFrame <= Rest(cfg, s3) + gap
         && slot.total < cfg.capMs + stepMax + gap
         && (slot.total >= t || slot.total == U32_MAX)
         && gap <= t && t - gap < cfg.capMs
         && c.session.s3Timer + slot.sinceFrame >= s3
         && c.session.s3Timer > 0)
  }

  lemma PollOnTime(cfg: Config, c: Core, s3: u32, stepMax: u32, gap: nat, t: nat, o: Outcome)
    requires OnTime(cfg, c, s3, stepMax, gap, t) && s3 > 0
    ensures OnTime(cfg, Step(cfg, c, Polled(o)), s3, stepMax, 0, t)
  {}

  lemma StepOnTime(cfg: Config, c: Core, s3: u32, stepMax: u32, gap: nat, t: nat, m: Moment)
    requires OnTime(cfg, c, s3, stepMax, gap, t) && s3 > 0 && WellFormed(m)
    ensures OnTime(cfg, Step(cfg, c, m), s3, stepMax,
                   match m case Ticked => gap + 1 case Polled(_) => 0 case Requested(_, _) => gap,
                   if m.Ticked? then t + 1 else t)
  {
    if m.Polled? {
      PollOnTime(cfg, c, s3, stepMax, gap, t, m.outcome);
    }
  }

  /** After a prompt course the clocks are on time, for some gap of at most d. */
  lemma {:induction false} CourseOnTime(cfg: Config, c: Core, s3: u32, stepMax: u32, gap: nat, t: nat, ms: Course,
                                        d: nat)
    returns (last: nat)
    requires OnTime(cfg, c, s3, stepMax, gap, t) && s3 > 0 && Prompt(ms, gap, d)
    ensures last <= d && OnTime(cfg, After(cfg, c, ms), s3, stepMax, last, t + Ticks(ms))
    decreases |ms|
  {
    hide OnTime, Step;
    if ms == [] {
      last := gap;
    } else {
      StepOnTime(cfg, c, s3, stepMax, gap, t, ms[0]);
      var gap' := match ms[0] case Ticked => gap + 1 case Polled(_) => 0 case Requested(_, _) => gap;
      var t' := if ms[0].Ticked? then t + 1 else t;
      last := CourseOnTime(cfg, Step(cfg, c, ms[0]), s3, stepMax, gap', t', ms[1..], d);
    }
  }

  lemma AcceptedOnTime(cfg: Config, c: Core)
    requires JustAccepted(cfg, c)
    ensures OnTime(cfg, c, c.session.s3Timeout, c.pending.slot.job.stepMax, 0, 0)
  {}

  /**
   * A frame, pending or final, is owed before the frame clock, with the step credited, has
   * reached the interval plus the larger of d and the step's duration; and a poll that
   * owes none leaves that clock below the interval.
   */
  lemma FrameInTime(cfg: Config, c: Core, ms: Course, d: nat, o: Outcome)
    requires JustAccepted(cfg, c) && Prompt(ms, 0, d)
    ensures var s3, w := c.session.s3Timeout, After(cfg, c, ms).pending;
      var slot := AfterPoll(cfg, s3, w, o).0.slot;
      w.slot.Taken? ==>
        slot.Taken? && !w.slot.owed &&
        if slot.owed then slot.sinceFrame <= Rest(cfg, s3) + Max(d, c.pending.slot.job.stepMax)
        else slot.sinceFrame < Interval(cfg, s3)
  {
    hide After, Prompt, Interval;
    AcceptedOnTime(cfg, c);
    var last := CourseOnTime(cfg, c, c.session.s3Timeout, c.pending.slot.job.stepMax, 0, 0, ms, d);
    if After(cfg, c, ms).pending.slot.Taken? {
      PollClock(cfg, c.session.s3Timeout, After(cfg, c, ms).pending, o);
    }
  }

  lemma PollClock(cfg: Config, s3: u32, s: State, o: Outcome)
    requires s.slot.Taken? && !s.slot.owed
    ensures var slot := AfterPoll(cfg, s3, s, o).0.slot;
      slot.Taken? && slot.total <= s.slot.total + s.slot.job.stepMax &&
      (slot.owed ==> slot.sinceFrame <= Max(s.slot.sinceFrame, Rest(cfg, s3) + s.slot.job.stepMax)) &&
      (!slot.owed ==> slot.sinceFrame < Interval(cfg, s3))
  {
    hide Interval;
  }

  /** The final frame is owed before the total clock, credits included, reaches cap + step + d. */
  lemma FinalInTime(cfg: Config, c: Core, ms: Course, d: nat, o: Outcome)
    requires JustAccepted(cfg, c) && Prompt(ms, 0, d)
    ensures var s3, w := c.session.s3Timeout, After(cfg, c, ms).pending;
      var slot := AfterPoll(cfg, s3, w, o).0.slot;
      w.slot.Taken? ==>
        && (w.slot.total >= cfg.capMs ==> Owes(slot) && slot.isFinal)
        && (slot.total < cfg.capMs + c.pending.slot.job.stepMax + d)
  {
    hide After, Prompt, Interval;
    AcceptedOnTime(cfg, c);
    var last := CourseOnTime(cfg, c, c.session.s3Timeout, c.pending.slot.job.stepMax, 0, 0, ms, d);
    if After(cfg, c, ms).pending.slot.Taken? {
      PollTotal(cfg, c.session.s3Timeout, After(cfg, c, ms).pending, o);
    }
  }

  lemma PollTotal(cfg: Config, s3: u32, s: State, o: Outcome)
    requires s.slot.Taken? && !s.slot.owed
    ensures var slot := AfterPoll(cfg, s3, s, o).0.slot;
      slot.Taken? &&
      (if s.slot.total >= cfg.capMs then slot.owed && slot.isFinal && slot.total == s.slot.total
       else slot.total < cfg.capMs + s.slot.job.stepMax)
  {
    hide Interval;
  }

  /** However its steps behave, a job is over after cap + d milliseconds. */
  lemma JobEndsInTime(cfg: Config, c: Core, ms: Course, d: nat)
    requires JustAccepted(cfg, c) && Prompt(ms, 0, d) && Ticks(ms) >= cfg.capMs + d
    ensures After(cfg, c, ms).pending.slot.Free?
  {
    hide After, Prompt, Ticks, Interval;
    AcceptedOnTime(cfg, c);
    var last := CourseOnTime(cfg, c, c.session.s3Timeout, c.pending.slot.job.stepMax, 0, 0, ms, d);
  }

  /** With polls at most half of S3 apart the session does not time out under the job. */
  lemma SessionOutlivesJob(cfg: Config, c: Core, ms: Course, d: nat)
    requires JustAccepted(cfg, c) && Prompt(ms, 0, d) && d <= c.session.s3Timeout / 2
    ensures After(cfg, c, ms).session.active == c.session.active
  {
    AcceptedOnTime(cfg, c);
    NoExpiry(cfg, c, c.session.s3Timeout, c.pending.slot.job.stepMax, 0, 0, ms, d);
  }

  lemma {:induction false} NoExpiry(cfg: Config, c: Core, s3: u32, stepMax: u32, gap: nat, t: nat, ms: Course, d: nat)
    requires OnTime(cfg, c, s3, stepMax, gap, t) && s3 > 0 && Prompt(ms, gap, d) && d <= s3 / 2
    ensures After(cfg, c, ms).session.active == c.session.active
    decreases |ms|
  {
    if ms != [] {
      StepOnTime(cfg, c, s3, stepMax, gap, t, ms[0]);
      var gap' := match ms[0] case Ticked => gap + 1 case Polled(_) => 0 case Requested(_, _) => gap;
      if ms[0].Ticked? && c.pending.slot.Taken? {
        PromptGap(ms[1..], gap + 1, d);
        NotExpired(cfg, c, s3, stepMax, gap, t, d);
      }
      StepKeepsSession(cfg, c, ms[0]);
      hide OnTime, Step;
      NoExpiry(cfg, Step(cfg, c, ms[0]), s3, stepMax, gap', if ms[0].Ticked? then t + 1 else t, ms[1..], d);
    }
  }

  lemma PromptGap(ms: Course, gap: nat, d: nat)
    requires Prompt(ms, gap, d)
    ensures gap <= d
  {}

  lemma NotExpired(cfg: Config, c: Core, s3: u32, stepMax: u32, gap: nat, t: nat, d: nat)
    requires OnTime(cfg, c, s3, stepMax, gap, t) && c.pending.slot.Taken? && gap + 1 <= d <= s3 / 2
    ensures !Session.Expires(c.session)
  {
    assert Interval(cfg, s3) <= s3 / 2;
  }

  lemma StepKeepsSession(cfg: Config, c: Core, m: Moment)
    requires WellFormed(m) && (m.Ticked? && c.pending.slot.Taken? ==> !Session.Expires(c.session))
    ensures Step(cfg, c, m).session.active == c.session.active
  {}

  // ---- When steps run at all ----

  predicate Steps(es: seq<Event>) {
    exists e :: e in es && e.StepRan?
  }

  /** A poll runs the step exactly when nothing is owed, the cap is not reached and no frame is due. */
  lemma StepRunsExactlyWhen(cfg: Config, s3: u32, s: State, o: Outcome)
    ensures Steps(AfterPoll(cfg, s3, s, o).1) <==>
      s.slot.Taken? && !s.slot.owed && s.slot.total < cfg.capMs && s.slot.sinceFrame < Interval(cfg, s3)
  {
    hide Interval;
    var es := AfterPoll(cfg, s3, s, o).1;
    if s.slot.Taken? && !s.slot.owed && s.slot.total < cfg.capMs && s.slot.sinceFrame < Interval(cfg, s3) {
      assert es[0] == StepRan(o) && es[0] in es;
    }
  }

  /** With an S3 or a default P2* interval of 1 ms the interval is 0, and no step of any job ever runs. */
  lemma NoStepEverRunsWhen(cfg: Config, s3: u32)
    ensures (forall s, o :: !Steps(AfterPoll(cfg, s3, s, o).1)) <==>
      cfg.capMs == 0 || s3 == 1 || (cfg.keepaliveMs == 0 && P2Star(cfg) == 1)
  {
    forall s, o ensures Steps(AfterPoll(cfg, s3, s, o).1) ==> cfg.capMs > 0 && Interval(cfg, s3) > 0 {
      StepRunsExactlyWhen(cfg, s3, s, o);
    }
    var s, o := State(Taken(Job(0, 0), false, false, 0, 0, 1), [], 0), Outcome(InProgress, [], 0, false);
    StepRunsExactlyWhen(cfg, s3, s, o);
  }
}
