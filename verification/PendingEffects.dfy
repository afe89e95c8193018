/**
 * What each call does to the fields of the pending slot (core/uds_server.c), and what the
 * counters of the server have counted after a run.
 */
module PendingEffects {
  import opened Types
  import opened Pending

  /** The interval of keepalive frames: as configured or half of P2*, but at most half of S3. */
  function IntervalMs(cfg: Config, s3: u32): nat {
    var p2 := if cfg.p2StarMs == 0 then 5000 else cfg.p2StarMs;
    var wanted := if cfg.keepaliveMs == 0 then p2 / 2 else cfg.keepaliveMs;
    if s3 == 0 || wanted <= s3 / 2 then wanted else s3 / 2
  }

  /** A clock that has run n ms more, and stops at its maximum. */
  function Later(clock: u32, n: nat): u32 {
    if clock + n <= 0xFFFF_FFFF then clock + n else 0xFFFF_FFFF
  }

  function Plus1(n: u32): u32 {
    if n == 0xFFFF_FFFF then 0 else n + 1
  }

  /** The slot after the final frame f came to be owed, and what is seen of that. */
  predicate EndsWith(t: State, was: State, f: frame)
    requires was.slot.Taken?
  {
    t.slot.Taken? && t.slot.owed && t.slot.isFinal && t.tx == f && t.slot.job == was.slot.job &&
    t.slot.keepalives == was.slot.keepalives
  }

  /** A pending frame came to be owed, and was counted. */
  predicate KeepsWaiting(t: State, was: State)
    requires was.slot.Taken?
  {
    t.slot.Taken? && t.slot.owed && !t.slot.isFinal && t.tx == [0x7F, was.slot.job.sid, 0x78] &&
    t.slot.job == was.slot.job && t.slot.keepalives == Plus1(was.slot.keepalives)
  }

  /**
   * A deferral is refused first for a step that is too slow, then for functional addressing
   * or a slot that is taken; else the slot is taken with both clocks at 0.
   */
  lemma DeferEffect(cfg: Config, s: State, job: Job, functional: bool)
    ensures var status, (t, events) := DeferStatus(cfg, s.slot, job, functional), AfterDefer(cfg, s, job, functional);
      && status == (if job.stepMax >= (if cfg.p2StarMs == 0 then 5000 else cfg.p2StarMs) then ErrGeneric
                    else if functional || s.slot.Taken? then ErrConditionsNotMet
                    else Ok)
      && (status != Ok ==> t == s && events == [])
      && (status == Ok ==> t == s.(slot := Taken(job, false, false, 0, 0, 1)) && events == [Accepted(job.sid)])
  {}

  /** Before any step: the cap ends the job with 7F sid 10, an interval that has passed makes a pending frame. */
  lemma PollBeforeStep(cfg: Config, s3: u32, s: State, o: Outcome)
    requires s.slot.Taken? && !s.slot.owed
    requires s.slot.total >= cfg.capMs || s.slot.sinceFrame >= IntervalMs(cfg, s3)
    ensures var (t, events) := AfterPoll(cfg, s3, s, o);
      && t.negatives == s.negatives
      && (s.slot.total >= cfg.capMs ==>
            EndsWith(t, s, [0x7F, s.slot.job.sid, 0x10]) && events == [AbortCalled, Offered(t.tx, true)])
      && (s.slot.total < cfg.capMs ==> KeepsWaiting(t, s) && events == [Offered(t.tx, false)])
      && t.slot.sinceFrame == s.slot.sinceFrame && t.slot.total == s.slot.total
  {}

  /** The frame that a finished step leaves. */
  function FinalFrame(sid: u8, o: Outcome): frame {
    if o.callsBack || o.result == Unknown then [0x7F, sid, 0x10]
    else if o.result == Failed then [0x7F, sid, if o.nrc == 0x78 then 0x10 else o.nrc]
    else if |o.response| == 0 || |o.response| > 4095 then [0x7F, sid, 0x10]
    else o.response
  }

  /**
   * A step: its declared duration goes on both clocks. Unless it is still in progress it
   * ends the job with its frame; the job is told to stop if it did not end by itself, and a
   * failure is counted. In progress, an interval that has passed makes a pending frame.
   */
  lemma PollWithStep(cfg: Config, s3: u32, s: State, o: Outcome)
    requires s.slot.Taken? && !s.slot.owed
    requires s.slot.total < cfg.capMs && s.slot.sinceFrame < IntervalMs(cfg, s3)
    ensures var (t, events) := AfterPoll(cfg, s3, s, o);
      var m, unfinished := s.slot.job.stepMax, o.result == InProgress && !o.callsBack;
      && t.slot.Taken? && t.slot.sinceFrame == Later(s.slot.sinceFrame, m) && t.slot.total == Later(s.slot.total, m)
      && (!unfinished ==>
            EndsWith(t, s, FinalFrame(s.slot.job.sid, o)) &&
            events == (if o.callsBack || o.result == Unknown then [StepRan(o), AbortCalled] else [StepRan(o)]) +
                      [Offered(t.tx, true)])
      && (unfinished && Later(s.slot.sinceFrame, m) >= IntervalMs(cfg, s3) ==>
            KeepsWaiting(t, s) && events == [StepRan(o), Offered(t.tx, false)])
      && (unfinished && Later(s.slot.sinceFrame, m) < IntervalMs(cfg, s3) ==>
            !t.slot.owed && t.slot.keepalives == s.slot.keepalives && events == [StepRan(o)])
      && t.negatives == if o.result == Failed && !o.callsBack then Plus1(s.negatives) else s.negatives
  {}

  /** The poll that restarts S3 is the one that makes a frame: one that finds none owed and leaves one owed. */
  lemma FrameMadeExactly(cfg: Config, s3: u32, s: State, o: Outcome)
    ensures MakesFrame(cfg, s3, s, o) <==>
      && s.slot.Taken? && !s.slot.owed
      && (s.slot.total >= cfg.capMs || s.slot.sinceFrame >= IntervalMs(cfg, s3) ||
          o.callsBack || o.result != InProgress ||
          Later(s.slot.sinceFrame, s.slot.job.stepMax) >= IntervalMs(cfg, s3))
  {}

  /** A millisecond is on both clocks of a taken slot and nowhere else. */
  lemma MillisecondEffect(s: State)
    ensures AfterMillisecond(s) ==
      if s.slot.Free? then s
      else s.(slot := s.slot.(sinceFrame := Later(s.slot.sinceFrame, 1), total := Later(s.slot.total, 1)))
  {}

  /** A confirmation frees the slot behind a final frame and restarts the frame clock behind any other. */
  lemma FrameSentEffect(s: State)
    ensures var (t, events) := AfterFrameSent(s);
      && (s.slot.Free? || !s.slot.owed ==> t == s && events == [])
      && (s.slot.Taken? && s.slot.owed && s.slot.isFinal ==> t == s.(slot := Free) && events == [Confirmed])
      && (s.slot.Taken? && s.slot.owed && !s.slot.isFinal ==>
            t == s.(slot := Taken(s.slot.job, false, false, 0, s.slot.total, s.slot.keepalives)) &&
            events == [Confirmed])
  {}

  /** An abort frees the slot, and stops the job unless its final frame is there. */
  lemma AbortEffect(s: State)
    ensures var (t, events) := AfterAbort(s);
      && t == s.(slot := Free)
      && events == if s.slot.Free? then [] else if s.slot.isFinal then [Released] else [AbortCalled, Released]
  {}

  // ---- What the counter of negative responses has counted ----

  predicate IsFailure(e: Event) {
    e.StepRan? && e.outcome.result == Failed && !e.outcome.callsBack
  }

  function Failures(es: seq<Event>): nat {
    if es == [] then 0 else Failures(es[..|es| - 1]) + if IsFailure(es[|es| - 1]) then 1 else 0
  }

  lemma {:induction false} FailuresAdd(es: seq<Event>, fs: seq<Event>)
    ensures Failures(es + fs) == Failures(es) + Failures(fs)
    decreases |fs|
  {
    hide IsFailure;
    if fs == [] {
      assert es + fs == es;
    } else {
      assert (es + fs)[..|es + fs| - 1] == es + fs[..|fs| - 1];
      FailuresAdd(es, fs[..|fs| - 1]);
    }
  }

  lemma CallCounts(cfg: Config, s3: u32, s: State, c: Call)
    ensures var (t, events) := Perform(cfg, s3, s, c);
      t.negatives == (s.negatives + Failures(events)) % 0x1_0000_0000
  {
    hide Interval, P2Star, Failures;
    FewEvents(Perform(cfg, s3, s, c).1);
  }

  lemma FewEvents(es: seq<Event>)
    requires |es| <= 3
    ensures Failures(es) == (if |es| > 0 && IsFailure(es[0]) then 1 else 0) +
      (if |es| > 1 && IsFailure(es[1]) then 1 else 0) + (if |es| > 2 && IsFailure(es[2]) then 1 else 0)
  {
    hide IsFailure;
    if |es| > 1 {
      assert es[..|es| - 1][..|es| - 2] == es[..|es| - 2];
    }
  }

  /** Over every run of calls the counter rises by one for each step that failed by itself. */
  lemma {:induction false} NegativesCountFailures(cfg: Config, s3: u32, s: State, cs: seq<Call>)
    ensures var (t, events) := PerformAll(cfg, s3, s, cs);
      t.negatives == (s.negatives + Failures(events)) % 0x1_0000_0000
    decreases |cs|
  {
    hide Perform, Failures;
    if cs == [] {
      NoFailures();
    } else {
      var (t, es) := Perform(cfg, s3, s, cs[0]);
      CallCounts(cfg, s3, s, cs[0]);
      NegativesCountFailures(cfg, s3, t, cs[1..]);
      FailuresAdd(es, PerformAll(cfg, s3, t, cs[1..]).1);
    }
  }

  lemma NoFailures()
    ensures Failures([]) == 0
  {}
}
