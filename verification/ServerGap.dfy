/**
 * The longest time a pending job can leave the tester without a frame, to the millisecond,
 * and when that is longer than P2*.
 */
module ServerGap {
  import opened Arithmetic
  import opened Types
  import opened Pending
  import opened Server
  import opened ServerTiming
  import Session

  function Min(a: nat, b: nat): nat {
    if a < b then a else b
  }

  // ---- Arithmetic of the frame clock ----

  /** n copies of m. */
  function Copies(n: nat, m: nat): nat {
    if n == 0 then 0 else Copies(n - 1, m) + m
  }

  lemma {:induction false} CopiesIsProduct(n: nat, m: nat)
    ensures Copies(n, m) == n * m
  {
    if n > 0 {
      CopiesIsProduct(n - 1, m);
      assert n * m == (n - 1) * m + m;
    }
  }

  lemma {:induction false} CopiesMonotone(n: nat, a: nat, b: nat)
    requires a <= b
    ensures Copies(n, a) <= Copies(n, b)
  {
    if n > 0 {
      CopiesMonotone(n - 1, a, b);
    }
  }

  /** Clock values a poll can find after n steps of m ms, each poll at most d ms after the one before. */
  predicate Climbs(y: nat, n: nat, m: nat, d: nat) {
    Copies(n, m) <= y <= Copies(n, m + d) + d
  }

  /** The highest of them that is at most b. */
  function Reach(b: nat, m: nat, d: nat): (y: nat)
    ensures y <= b
    decreases b
  {
    if m == 0 then if d == 0 then 0 else b
    else if b < m then Min(b, d)
    else Min(b, Reach(b - m, m, d) + m + d)
  }

  /** In closed form, with q whole steps below b. */
  lemma {:induction false} ReachIs(b: nat, m: nat, d: nat)
    requires m > 0
    ensures var q := b / m; Reach(b, m, d) == Min(b, q * m + (q + 1) * d)
    decreases b
  {
    if b < m {
      DivUnique(b, m, 0, b);
    } else {
      QuotientStep(b, m);
      ReachIs(b - m, m, d);
      NextMultiples((b - m) / m, m, d);
    }
  }

  lemma QuotientStep(b: nat, m: nat)
    requires 0 < m <= b
    ensures b / m == (b - m) / m + 1
  {
    var q, r := (b - m) / m, (b - m) % m;
    assert b - m == q * m + r && b == (q + 1) * m + r;
    DivUnique(b, m, q + 1, r);
  }

  lemma NextMultiples(q: nat, m: nat, d: nat)
    ensures (q + 1) * m == q * m + m && (q + 2) * d == (q + 1) * d + d
  {}

  lemma {:induction false} ReachClimbs(b: nat, m: nat, d: nat) returns (n: nat)
    ensures Climbs(Reach(b, m, d), n, m, d)
    decreases b
  {
    if m == 0 {
      n := if d == 0 then 0 else b;
      CopiesIsProduct(n, 0);
      CopiesIsProduct(n, d);
      if d > 0 {
        MulMonotone(1, d, n);
      }
    } else if b < m {
      n := 0;
    } else {
      n := ReachClimbs(b - m, m, d);
      n := n + 1;
    }
  }

  lemma ReachAtLeast(b: nat, m: nat, d: nat)
    ensures Min(b, d) <= Reach(b, m, d)
  {}

  lemma {:induction false} ReachIsHighest(b: nat, m: nat, d: nat, y: nat, n: nat)
    requires y <= b && Climbs(y, n, m, d)
    ensures y <= Reach(b, m, d)
    decreases n
  {
    if n == 0 {
      ReachAtLeast(b, m, d);
    } else if m == 0 {
      CopiesIsProduct(n, d);
    } else {
      var lower := if y - m - d < Copies(n - 1, m) then Copies(n - 1, m) else y - m - d;
      CopiesMonotone(n - 1, m, m + d);
      ReachIsHighest(b - m, m, d, lower, n - 1);
    }
  }

  /** The highest the clock stands after a poll that owes no frame. */
  function Resting(i: nat, cap: nat, m: nat, d: nat): nat {
    var j := Min(i, cap);
    if m < i && j > 0 then Reach(Min(j - 1, i - 1 - m), m, d) + m else 0
  }

  /**
   * The longest gap: either a step starts as late as it can, or a poll comes d ms after
   * one that owed nothing.
   */
  function WorstGap(i: nat, cap: nat, m: nat, d: nat): nat {
    var j := Min(i, cap);
    if j == 0 then d else Max(Reach(j - 1, m, d) + m, Resting(i, cap, m, d) + d)
  }

  /** With an S3 of 1 ms a session outside the default does not outlive a tick, nor does the job. */
  function Survivable(c: Core, d: nat): nat {
    if c.session.s3Timeout == 1 && c.session.active != Session.Default then 0 else d
  }

  /** The longest gap of an accepted job polled at most d ms apart; the clocks stop at 2^32 - 1. */
  function LongestGap(cfg: Config, c: Core, d: nat): nat
    requires c.pending.slot.Taken?
  {
    Min(WorstGap(Interval(cfg, c.session.s3Timeout), cfg.capMs, c.pending.slot.job.stepMax, Survivable(c, d)), U32_MAX)
  }

  /** The frame clock when a poll has made a frame. */
  function FrameClock(cfg: Config, s3: u32, s: State, o: Outcome): u32
    requires MakesFrame(cfg, s3, s, o)
  {
    AfterPoll(cfg, s3, s, o).0.slot.sinceFrame
  }

  // ---- No frame is later ----

  /** x: the clock after the last poll, n: the steps since the last frame, gap: the ticks since the last poll. */
  predicate Bounded(cfg: Config, a: Core, c: Core, d: nat, x: nat, n: nat, gap: nat)
    requires a.pending.slot.Taken?
  {
    var slot, s3, m := c.pending.slot, a.session.s3Timeout, a.pending.slot.job.stepMax;
    && c.session.s3Timeout == s3
    && (slot.Taken? ==>
         && !slot.owed && !slot.isFinal && slot.job.stepMax == m
         && slot.sinceFrame == Min(x + gap, U32_MAX) && slot.sinceFrame <= slot.total
         && c.session.active == a.session.active && c.session.s3Timer <= s3
         && gap <= Survivable(a, d)
         && Copies(n, m) <= x <= Copies(n, m + Survivable(a, d))
         && x <= Resting(Interval(cfg, s3), cfg.capMs, m, Survivable(a, d)))
  }

  lemma AcceptedBounded(cfg: Config, c: Core, d: nat)
    requires JustAccepted(cfg, c)
    ensures Bounded(cfg, c, c, d, 0, 0, 0)
  {
    hide Interval;
  }

  lemma TickBounded(cfg: Config, a: Core, c: Core, d: nat, x: nat, n: nat, gap: nat)
    requires a.pending.slot.Taken? && Bounded(cfg, a, c, d, x, n, gap) && gap + 1 <= d && a.session.s3Timeout > 0
    ensures Bounded(cfg, a, Step(cfg, c, Ticked), d, x, n, gap + 1)
  {
    hide Interval, Copies, Resting;
  }

  /** Where the step can run, the clock is one that steps and ticks lead to. */
  lemma StepClock(cfg: Config, a: Core, c: Core, d: nat, x: nat, n: nat, gap: nat)
    requires a.pending.slot.Taken? && Bounded(cfg, a, c, d, x, n, gap) && c.pending.slot.Taken?
    requires c.pending.slot.total < cfg.capMs && c.pending.slot.sinceFrame < Interval(cfg, a.session.s3Timeout)
    ensures var i, m, e, y := Interval(cfg, a.session.s3Timeout), a.pending.slot.job.stepMax, Survivable(a, d), x + gap;
      && y == c.pending.slot.sinceFrame <= Reach(Min(i, cfg.capMs) - 1, m, e)
      && Copies(n + 1, m) <= y + m <= Copies(n + 1, m + e)
      && (y + m < i ==> y + m <= Resting(i, cfg.capMs, m, e))
  {
    var i, m, e, y := Interval(cfg, a.session.s3Timeout), a.pending.slot.job.stepMax, Survivable(a, d), x + gap;
    hide Interval, Reach;
    ReachIsHighest(Min(i, cfg.capMs) - 1, m, e, y, n);
    if y + m < i {
      ReachIsHighest(Min(Min(i, cfg.capMs) - 1, i - 1 - m), m, e, y, n);
    }
  }

  /** A poll's frame, if it makes one, is in time. */
  lemma FrameBounded(cfg: Config, a: Core, c: Core, d: nat, x: nat, n: nat, gap: nat, o: Outcome)
    requires a.pending.slot.Taken? && Bounded(cfg, a, c, d, x, n, gap)
    requires MakesFrame(cfg, a.session.s3Timeout, c.pending, o)
    ensures FrameClock(cfg, a.session.s3Timeout, c.pending, o) <= LongestGap(cfg, a, d)
  {
    var slot, s3 := c.pending.slot, a.session.s3Timeout;
    if slot.total < cfg.capMs && slot.sinceFrame < Interval(cfg, s3) {
      StepClock(cfg, a, c, d, x, n, gap);
    }
    hide Interval, Copies, Reach, Resting;
  }

  /** What the clock is after a poll. */
  lemma PollBounded(cfg: Config, a: Core, c: Core, d: nat, x: nat, n: nat, gap: nat, o: Outcome)
    returns (x': nat, n': nat)
    requires a.pending.slot.Taken? && Bounded(cfg, a, c, d, x, n, gap)
    ensures Bounded(cfg, a, Step(cfg, c, Polled(o)), d, x', n', 0)
  {
    var slot, s3, m := c.pending.slot, a.session.s3Timeout, a.pending.slot.job.stepMax;
    x', n' := 0, 0;
    if slot.Taken? && slot.total < cfg.capMs && slot.sinceFrame < Interval(cfg, s3) {
      StepClock(cfg, a, c, d, x, n, gap);
      if o.result == InProgress && !o.callsBack && x + gap + m < Interval(cfg, s3) {
        x', n' := x + gap + m, n + 1;
      }
    }
    hide Interval, Copies, Reach, Resting;
    StartBounded(m, Survivable(a, d));
  }

  lemma StartBounded(m: nat, e: nat)
    ensures Copies(0, m) == 0 == Copies(0, m + e)
  {}

  lemma {:induction false} CourseBounded(cfg: Config, a: Core, c: Core, d: nat, x: nat, n: nat, gap: nat, ms: Course)
    returns (x': nat, n': nat, gap': nat)
    requires a.pending.slot.Taken? && a.session.s3Timeout > 0
    requires Bounded(cfg, a, c, d, x, n, gap) && Prompt(ms, gap, d)
    ensures Bounded(cfg, a, After(cfg, c, ms), d, x', n', gap')
    decreases |ms|
  {
    hide Bounded, Step;
    if ms == [] {
      x', n', gap' := x, n, gap;
    } else {
      var next := Step(cfg, c, ms[0]);
      match ms[0]
      case Ticked =>
        PromptGap(ms[1..], gap + 1, d);
        TickBounded(cfg, a, c, d, x, n, gap);
        x', n', gap' := CourseBounded(cfg, a, next, d, x, n, gap + 1, ms[1..]);
      case Polled(o) =>
        var y, k := PollBounded(cfg, a, c, d, x, n, gap, o);
        x', n', gap' := CourseBounded(cfg, a, next, d, y, k, 0, ms[1..]);
      case Requested(_, _) =>
        RequestBounded(cfg, a, c, d, x, n, gap, ms[0]);
        x', n', gap' := CourseBounded(cfg, a, next, d, x, n, gap, ms[1..]);
    }
  }

  lemma RequestBounded(cfg: Config, a: Core, c: Core, d: nat, x: nat, n: nat, gap: nat, e: Moment)
    requires a.pending.slot.Taken? && Bounded(cfg, a, c, d, x, n, gap) && e.Requested? && e.req != []
    ensures Bounded(cfg, a, Step(cfg, c, e), d, x, n, gap)
  {
    hide Interval, Copies, Resting;
  }

  /** Every frame of every course is owed within the longest gap. */
  lemma NoLaterFrame(cfg: Config, c: Core, d: nat, ms: Course, o: Outcome)
    requires JustAccepted(cfg, c) && Prompt(ms, 0, d)
    requires MakesFrame(cfg, c.session.s3Timeout, After(cfg, c, ms).pending, o)
    ensures FrameClock(cfg, c.session.s3Timeout, After(cfg, c, ms).pending, o) <= LongestGap(cfg, c, d)
  {
    hide After, Prompt, Bounded, LongestGap, FrameClock, MakesFrame;
    AcceptedBounded(cfg, c, d);
    var x, n, gap := CourseBounded(cfg, c, c, d, 0, 0, 0, ms);
    FrameBounded(cfg, c, After(cfg, c, ms), d, x, n, gap, o);
  }

  // ---- Some frame is as late ----

  const STAY_ALIVE: frame := [TESTER_PRESENT, SUPPRESS_BIT]

  /** n milliseconds in which the tester keeps the session alive. */
  function Pause(n: nat): Course
  {
    if n == 0 then [] else [Requested(STAY_ALIVE, false), Ticked] + Pause(n - 1)
  }

  function GapAfter(ms: Course, gap: nat): nat
    decreases |ms|
  {
    if ms == [] then gap
    else match ms[0]
      case Ticked => GapAfter(ms[1..], gap + 1)
      case Polled(_) => GapAfter(ms[1..], 0)
      case Requested(_, _) => GapAfter(ms[1..], gap)
  }

  lemma {:induction false} Append(cfg: Config, c: Core, ms: Course, ns: Course, gap: nat, d: nat)
    requires Prompt(ms, gap, d) && Prompt(ns, GapAfter(ms, gap), d)
    ensures After(cfg, c, ms + ns) == After(cfg, After(cfg, c, ms), ns)
    ensures Prompt(ms + ns, gap, d) && GapAfter(ms + ns, gap) == GapAfter(ns, GapAfter(ms, gap))
    decreases |ms|
  {
    hide Step;
    if ms == [] {
      assert ms + ns == ns;
    } else {
      assert (ms + ns)[1..] == ms[1..] + ns;
      var gap' := match ms[0] case Ticked => gap + 1 case Polled(_) => 0 case Requested(_, _) => gap;
      Append(cfg, Step(cfg, c, ms[0]), ms[1..], ns, gap', d);
    }
  }

  /** A job that owes nothing since its acceptance, y ms ago by both clocks, in a session that can be kept alive. */
  predicate Waiting(a: Core, c: Core, y: nat) {
    && a.pending.slot.Taken? && c.pending.slot.Taken?
    && !c.pending.slot.owed && !c.pending.slot.isFinal && c.pending.slot.job == a.pending.slot.job
    && c.pending.slot.sinceFrame == c.pending.slot.total == Min(y, U32_MAX)
    && c.session.s3Timeout == a.session.s3Timeout && c.session.active == a.session.active
    && (a.session.s3Timeout > 1 || a.session.active == Session.Default)
  }

  lemma {:induction false} PauseWaits(cfg: Config, a: Core, c: Core, y: nat, n: nat, gap: nat, d: nat)
    requires Waiting(a, c, y) && gap + n <= d
    ensures Waiting(a, After(cfg, c, Pause(n)), y + n)
    ensures Prompt(Pause(n), gap, d) && GapAfter(Pause(n), gap) == gap + n
    decreases n
  {
    if n > 0 {
      var ms := Pause(n);
      var k := Step(cfg, c, ms[0]);
      PauseStep(cfg, a, c, y);
      assert ms[1..][0] == Ticked && ms[1..][1..] == Pause(n - 1);
      hide Step, Waiting;
      PauseWaits(cfg, a, Step(cfg, k, Ticked), y + 1, n - 1, gap + 1, d);
    }
  }

  lemma PauseStep(cfg: Config, a: Core, c: Core, y: nat)
    requires Waiting(a, c, y)
    ensures Waiting(a, Step(cfg, Step(cfg, c, Requested(STAY_ALIVE, false)), Ticked), y + 1)
  {
    var k := Step(cfg, c, Requested(STAY_ALIVE, false));
    assert k.session == Session.Restart(c.session) && k.pending == c.pending;
  }

  /** A step that goes on, and what the poll leaves. */
  function GoOn(): Outcome {
    Outcome(InProgress, [], 0, false)
  }

  lemma GoOnWaits(cfg: Config, a: Core, c: Core, y: nat)
    requires Waiting(a, c, y) && y < cfg.capMs && y + a.pending.slot.job.stepMax < Interval(cfg, a.session.s3Timeout)
    ensures Waiting(a, Step(cfg, c, Polled(GoOn())), y + a.pending.slot.job.stepMax)
  {
    hide Interval;
  }

  /** Then a poll whose step goes on, and k ms. */
  function ThenPause(ms: Course, k: nat): Course {
    ms + ([Polled(GoOn())] + Pause(k))
  }

  /** A course up to a poll that finds the clock at y, with n steps on the way. */
  function Climb(y: nat, n: nat, m: nat, d: nat): Course
    requires Climbs(y, n, m, d)
    decreases n
  {
    if n == 0 then Pause(y)
    else
      var k := Min(d, y - Copies(n, m));
      ClimbDown(y, n, m, d);
      ThenPause(Climb(y - k - m, n - 1, m, d), k)
  }

  /** One step and one pause less, in numbers. */
  lemma LowerRung(p: nat, q: nat, y: nat, m: nat, d: nat)
    requires p <= q && p + m <= y <= q + m + d + d
    ensures var k := Min(d, y - (p + m)); p + m <= y - k <= q + m + d
  {}

  lemma ClimbDown(y: nat, n: nat, m: nat, d: nat)
    requires Climbs(y, n, m, d) && n > 0
    ensures var k := Min(d, y - Copies(n, m)); y - k >= m && Climbs(y - k - m, n - 1, m, d)
  {
    hide Copies;
    CopiesMonotone(n - 1, m, m + d);
    OneMore(n, m);
    OneMore(n, m + d);
    LowerRung(Copies(n - 1, m), Copies(n - 1, m + d), y, m, d);
  }

  lemma OneMore(n: nat, m: nat)
    requires n > 0
    ensures Copies(n, m) == Copies(n - 1, m) + m
  {}

  /** The course takes the job to a poll that finds the clock at y, with nothing owed so far. */
  predicate Leads(cfg: Config, a: Core, ms: Course, y: nat, d: nat) {
    a.pending.slot.Taken? && Waiting(a, After(cfg, a, ms), y) && Prompt(ms, 0, d) && GapAfter(ms, 0) <= d
  }

  lemma ClimbNone(y: nat, m: nat, d: nat)
    requires Climbs(y, 0, m, d)
    ensures Climb(y, 0, m, d) == Pause(y) && y <= d
  {}

  lemma ClimbOne(y: nat, n: nat, m: nat, d: nat) returns (z: nat, k: nat)
    requires Climbs(y, n, m, d) && n > 0
    ensures k <= d && z + m + k == y && Climbs(z, n - 1, m, d)
    ensures Climb(y, n, m, d) == ThenPause(Climb(z, n - 1, m, d), k)
  {
    hide Copies, Climbs, ThenPause, Pause;
    ClimbDown(y, n, m, d);
    k := Min(d, y - Copies(n, m));
    z := y - k - m;
  }

  lemma PauseLeads(cfg: Config, a: Core, y: nat, d: nat)
    requires a.pending.slot.Taken? && Waiting(a, a, 0) && y <= d
    ensures Leads(cfg, a, Pause(y), y, d)
  {
    hide Waiting, After, Prompt, GapAfter, Pause;
    PauseWaits(cfg, a, a, 0, y, 0, d);
  }

  lemma {:induction false} ClimbLeads(cfg: Config, a: Core, y: nat, n: nat, m: nat, d: nat)
    requires a.pending.slot.Taken? && a.pending.slot.job.stepMax == m && Waiting(a, a, 0) && Climbs(y, n, m, d)
    requires y < Min(Interval(cfg, a.session.s3Timeout), cfg.capMs)
    ensures Leads(cfg, a, Climb(y, n, m, d), y, d)
    decreases n
  {
    hide Interval, Waiting, Leads, Climb, Climbs, ThenPause, Pause;
    if n == 0 {
      ClimbNone(y, m, d);
      PauseLeads(cfg, a, y, d);
    } else {
      var z, k := ClimbOne(y, n, m, d);
      ClimbLeads(cfg, a, z, n - 1, m, d);
      GoOnThenPause(cfg, a, Climb(z, n - 1, m, d), z, k, d);
    }
  }

  /** After a course to a poll, a step that goes on and a pause. */
  lemma GoOnThenPause(cfg: Config, a: Core, ms: Course, y: nat, k: nat, d: nat)
    requires Leads(cfg, a, ms, y, d) && a.pending.slot.Taken? && k <= d
    requires y < cfg.capMs && y + a.pending.slot.job.stepMax < Interval(cfg, a.session.s3Timeout)
    ensures Leads(cfg, a, ThenPause(ms, k), y + a.pending.slot.job.stepMax + k, d)
  {
    var c, m := After(cfg, a, ms), a.pending.slot.job.stepMax;
    var tail: Course := [Polled(GoOn())] + Pause(k);
    hide Waiting, Interval, Step;
    GoOnWaits(cfg, a, c, y);
    PauseWaits(cfg, a, Step(cfg, c, Polled(GoOn())), y + m, k, 0, d);
    assert tail[0] == Polled(GoOn()) && tail[1..] == Pause(k);
    Append(cfg, a, ms, tail, 0, d);
  }

  /** A step that finishes makes a frame at once, its duration credited. */
  lemma FinishNow(cfg: Config, a: Core, c: Core, y: nat)
    requires Waiting(a, c, y) && y < Min(Interval(cfg, a.session.s3Timeout), cfg.capMs)
    ensures var o := Outcome(Done, [0x40], 0, false);
      MakesFrame(cfg, a.session.s3Timeout, c.pending, o) &&
      FrameClock(cfg, a.session.s3Timeout, c.pending, o) == Min(y + a.pending.slot.job.stepMax, U32_MAX)
  {
    hide Interval;
  }

  /** A poll that comes when a frame is due, or the cap reached, makes it without a step. */
  lemma DueNow(cfg: Config, a: Core, c: Core, y: nat, o: Outcome)
    requires Waiting(a, c, y) && y >= Min(Interval(cfg, a.session.s3Timeout), cfg.capMs)
    ensures MakesFrame(cfg, a.session.s3Timeout, c.pending, o)
    ensures FrameClock(cfg, a.session.s3Timeout, c.pending, o) == Min(y, U32_MAX)
  {
    hide Interval;
  }

  /** The longest gap does occur, for every bound d on the distance of polls. */
  lemma GapIsReached(cfg: Config, c: Core, d: nat) returns (ms: Course, o: Outcome)
    requires JustAccepted(cfg, c)
    ensures Prompt(ms, 0, d) && MakesFrame(cfg, c.session.s3Timeout, After(cfg, c, ms).pending, o)
    ensures FrameClock(cfg, c.session.s3Timeout, After(cfg, c, ms).pending, o) == LongestGap(cfg, c, d)
  {
    hide Interval, Waiting, Prompt, After, FrameClock, MakesFrame, Reach, Resting, Climb, Pause;
    var i, m := Interval(cfg, c.session.s3Timeout), c.pending.slot.job.stepMax;
    var j := Min(i, cfg.capMs);
    if c.session.s3Timeout == 1 && c.session.active != Session.Default {
      ms, o := [], GoOn();
      FrameAtOnce(cfg, c);
    } else {
      AcceptedWaits(cfg, c);
      if j == 0 {
        ms, o := Pause(d), GoOn();
        PauseWaits(cfg, c, c, 0, d, 0, d);
        DueNow(cfg, c, After(cfg, c, ms), d, o);
      } else if Reach(j - 1, m, d) + m >= Resting(i, cfg.capMs, m, d) + d {
        ms, o := StepLate(cfg, c, d);
      } else {
        ms, o := RestThenDue(cfg, c, d);
      }
    }
  }

  lemma FrameAtOnce(cfg: Config, c: Core)
    requires JustAccepted(cfg, c) && c.session.s3Timeout == 1
    ensures Interval(cfg, 1) == 0 && (forall d: nat :: Prompt([], 0, d)) && After(cfg, c, []) == c
    ensures MakesFrame(cfg, 1, c.pending, GoOn()) && FrameClock(cfg, 1, c.pending, GoOn()) == 0
  {}

  lemma AcceptedWaits(cfg: Config, c: Core)
    requires JustAccepted(cfg, c) && (c.session.s3Timeout > 1 || c.session.active == Session.Default)
    ensures Waiting(c, c, 0)
  {}

  /** The first way to the longest gap: the step that finishes starts as late as it can. */
  lemma StepLate(cfg: Config, c: Core, d: nat) returns (ms: Course, o: Outcome)
    requires c.pending.slot.Taken? && Waiting(c, c, 0) && Min(Interval(cfg, c.session.s3Timeout), cfg.capMs) > 0
    ensures var j, m := Min(Interval(cfg, c.session.s3Timeout), cfg.capMs), c.pending.slot.job.stepMax;
      && Prompt(ms, 0, d) && MakesFrame(cfg, c.session.s3Timeout, After(cfg, c, ms).pending, o)
      && FrameClock(cfg, c.session.s3Timeout, After(cfg, c, ms).pending, o) == Min(Reach(j - 1, m, d) + m, U32_MAX)
  {
    var j, m := Min(Interval(cfg, c.session.s3Timeout), cfg.capMs), c.pending.slot.job.stepMax;
    var y := Reach(j - 1, m, d);
    var n := ReachClimbs(j - 1, m, d);
    hide Interval, Waiting, Prompt, After, FrameClock, MakesFrame, Reach, Climb, Climbs;
    ms, o := Climb(y, n, m, d), Outcome(Done, [0x40], 0, false);
    ClimbLeads(cfg, c, y, n, m, d);
    FinishNow(cfg, c, After(cfg, c, ms), y);
  }

  /** The second way to the longest gap: a poll that owes nothing, then d ms. */
  lemma RestThenDue(cfg: Config, c: Core, d: nat) returns (ms: Course, o: Outcome)
    requires c.pending.slot.Taken? && Waiting(c, c, 0)
    requires var i, m := Interval(cfg, c.session.s3Timeout), c.pending.slot.job.stepMax; var j := Min(i, cfg.capMs);
      j > 0 && Reach(j - 1, m, d) + m < Resting(i, cfg.capMs, m, d) + d
    ensures var i, m := Interval(cfg, c.session.s3Timeout), c.pending.slot.job.stepMax;
      && Prompt(ms, 0, d) && MakesFrame(cfg, c.session.s3Timeout, After(cfg, c, ms).pending, o)
      && FrameClock(cfg, c.session.s3Timeout, After(cfg, c, ms).pending, o) ==
         Min(Resting(i, cfg.capMs, m, d) + d, U32_MAX)
  {
    var i, m := Interval(cfg, c.session.s3Timeout), c.pending.slot.job.stepMax;
    var j, x := Min(i, cfg.capMs), Resting(i, cfg.capMs, m, d);
    o := GoOn();
    hide Interval, Waiting, Prompt, GapAfter, After, FrameClock, MakesFrame, Climb, Pause, Reach;
    var steps: nat;
    if m < i {
      ms, steps := RestCourse(cfg, c, m, d);
    } else {
      ms, steps := Pause(d), 0;
      PauseWaits(cfg, c, c, 0, d, 0, d);
    }
    if x + d <= j - 1 {
      ReachIsHighest(j - 1, m, d, x + d, steps);
    }
    DueNow(cfg, c, After(cfg, c, ms), x + d, o);
  }

  lemma NextRung(y: nat, n: nat, m: nat, d: nat)
    requires Climbs(y, n, m, d)
    ensures Climbs(y + m + d, n + 1, m, d)
  {}

  lemma RestingIs(i: nat, cap: nat, m: nat, d: nat)
    requires m < i && cap > 0
    ensures Resting(i, cap, m, d) == Reach(Min(Min(i, cap) - 1, i - 1 - m), m, d) + m
  {}

  /** A course that ends d ms after the latest poll that owes nothing. */
  lemma RestCourse(cfg: Config, c: Core, m: nat, d: nat) returns (ms: Course, n: nat)
    requires c.pending.slot.Taken? && c.pending.slot.job.stepMax == m && Waiting(c, c, 0)
    requires m < Interval(cfg, c.session.s3Timeout) && cfg.capMs > 0
    ensures var x := Resting(Interval(cfg, c.session.s3Timeout), cfg.capMs, m, d);
      Leads(cfg, c, ms, x + d, d) && Climbs(x + d, n, m, d)
  {
    hide Interval, Waiting, Leads, Climb, Climbs, ThenPause, Reach, Resting;
    var i := Interval(cfg, c.session.s3Timeout);
    var b := Min(Min(i, cfg.capMs) - 1, i - 1 - m);
    var y := Reach(b, m, d);
    RestingIs(i, cfg.capMs, m, d);
    var k := ReachClimbs(b, m, d);
    ClimbLeads(cfg, c, y, k, m, d);
    NextRung(y, k, m, d);
    GoOnThenPause(cfg, c, Climb(y, k, m, d), y, d, d);
    ms, n := ThenPause(Climb(y, k, m, d), d), k + 1;
  }

  // ---- When the gaps stay within a limit ----

  /** All frames of all courses polled at most d ms apart are owed within the limit. */
  ghost predicate AllWithin(cfg: Config, c: Core, d: nat, limit: nat) {
    forall ms: Course, o :: Prompt(ms, 0, d) && MakesFrame(cfg, c.session.s3Timeout, After(cfg, c, ms).pending, o) ==>
      FrameClock(cfg, c.session.s3Timeout, After(cfg, c, ms).pending, o) <= limit
  }

  lemma WithinExactlyWhen(cfg: Config, c: Core, d: nat, limit: nat)
    requires JustAccepted(cfg, c)
    ensures AllWithin(cfg, c, d, limit) <==> LongestGap(cfg, c, d) <= limit
  {
    hide LongestGap, After, FrameClock, MakesFrame, Prompt;
    var ms, o := GapIsReached(cfg, c, d);
    forall ms: Course, o | Prompt(ms, 0, d) && MakesFrame(cfg, c.session.s3Timeout, After(cfg, c, ms).pending, o)
      ensures FrameClock(cfg, c.session.s3Timeout, After(cfg, c, ms).pending, o) <= LongestGap(cfg, c, d)
    {
      NoLaterFrame(cfg, c, d, ms, o);
    }
  }

  lemma GapFrom(i: nat, cap: nat, m: nat, d: nat, late: nat, rest: nat)
    requires 0 < i <= cap && Reach(i - 1, m, d) == Min(i - 1, late)
    requires if m < i then rest >= m && Reach(i - 1 - m, m, d) == Min(i - 1 - m, rest - m) else rest == 0
    ensures WorstGap(i, cap, m, d) == Max(Min(i - 1, late) + m, Min(i - 1, rest) + d)
  {
    hide Reach;
  }

  lemma RestOf(q: nat, m: nat, d: nat)
    requires q > 0
    ensures q * (m + d) - m == (q - 1) * m + q * d
    ensures q * (m + d) >= m
  {
    MulMonotone(1, q, m + d);
  }

  /** Reach without recursion: q whole steps fit below b. */
  function ClosedReach(b: nat, m: nat, d: nat): nat {
    if m == 0 then if d == 0 then 0 else b
    else
      var q := b / m;
      Min(b, q * m + (q + 1) * d)
  }

  /** The two cases of the longest gap without recursion. */
  function ClosedGap(i: nat, cap: nat, m: nat, d: nat): nat {
    var j := Min(i, cap);
    if j == 0 then d
    else Max(ClosedReach(j - 1, m, d) + m, (if m < i then ClosedReach(Min(j - 1, i - 1 - m), m, d) + m else 0) + d)
  }

  /** The longest gap in closed form, for all settings. */
  lemma WorstGapIs(i: nat, cap: nat, m: nat, d: nat)
    ensures WorstGap(i, cap, m, d) == ClosedGap(i, cap, m, d)
  {
    hide Reach, ClosedReach, WorstGap;
    var j := Min(i, cap);
    if j > 0 {
      ReachIsClosed(j - 1, m, d);
      if m < i {
        ReachIsClosed(Min(j - 1, i - 1 - m), m, d);
      }
    }
    WorstGapUnfolds(i, cap, m, d);
  }

  lemma WorstGapUnfolds(i: nat, cap: nat, m: nat, d: nat)
    ensures var j := Min(i, cap);
      WorstGap(i, cap, m, d) ==
        if j == 0 then d
        else Max(Reach(j - 1, m, d) + m, (if m < i then Reach(Min(j - 1, i - 1 - m), m, d) + m else 0) + d)
  {
    hide Reach;
  }

  lemma ReachIsClosed(b: nat, m: nat, d: nat)
    ensures Reach(b, m, d) == ClosedReach(b, m, d)
  {
    hide Min;
    if m > 0 {
      ReachIs(b, m, d);
    }
  }

  /** If the cap does not come before the first frame, both cases count the q steps that fit below the interval. */
  lemma UncappedGapIs(i: nat, cap: nat, m: nat, d: nat)
    requires 0 < i <= cap && m > 0
    ensures var q := (i - 1) / m;
      WorstGap(i, cap, m, d) == Max(Min(i - 1, q * m + (q + 1) * d) + m, Min(i - 1, q * (m + d)) + d)
  {
    hide Reach, WorstGap;
    var q := (i - 1) / m;
    ReachIs(i - 1, m, d);
    if m < i {
      QuotientStep(i - 1, m);
      ReachIs(i - 1 - m, m, d);
      RestOf(q, m, d);
    } else {
      DivUnique(i - 1, m, 0, i - 1);
    }
    GapFrom(i, cap, m, d, q * m + (q + 1) * d, q * (m + d));
  }

  /** The frames keep within P2* exactly when the longest gap does; clocks that stop at P2* cannot exceed it. */
  lemma P2StarKeptExactlyWhen(cfg: Config, c: Core, d: nat)
    requires JustAccepted(cfg, c)
    ensures AllWithin(cfg, c, d, P2Star(cfg)) <==>
      P2Star(cfg) == U32_MAX ||
      WorstGap(Interval(cfg, c.session.s3Timeout), cfg.capMs, c.pending.slot.job.stepMax, Survivable(c, d)) <=
        P2Star(cfg)
  {
    WithinExactlyWhen(cfg, c, d, P2Star(cfg));
    hide Interval, WorstGap, P2Star, AllWithin;
  }

  /** A step shorter than the interval never holds a frame back by more than the interval twice. */
  lemma ShortStepGap(i: nat, cap: nat, m: nat, d: nat)
    requires m < i && d < i && cap > 0
    ensures WorstGap(i, cap, m, d) <= 2 * i - 2
  {
    hide Reach;
  }

  /** A step of at least the interval holds the frame back by all of itself, after d ms. */
  lemma LongStepGap(i: nat, cap: nat, m: nat, d: nat)
    requires i <= m && d < Min(i, cap)
    ensures WorstGap(i, cap, m, d) == d + m
  {}

  /**
   * With the default keepalive, and polls closer together than the interval, the frames of a
   * job that defer accepted keep within P2* exactly when its step and the distance of polls
   * together do.
   */
  lemma DefaultKeepaliveKeepsP2Star(cfg: Config, c: Core, d: nat)
    requires JustAccepted(cfg, c) && cfg.keepaliveMs == 0 && CanDefer(cfg, Free, c.pending.slot.job, false)
    requires d < Min(Interval(cfg, c.session.s3Timeout), cfg.capMs)
    ensures AllWithin(cfg, c, d, P2Star(cfg)) <==>
      P2Star(cfg) == U32_MAX || d + c.pending.slot.job.stepMax <= P2Star(cfg)
  {
    var i, m := Interval(cfg, c.session.s3Timeout), c.pending.slot.job.stepMax;
    P2StarKeptExactlyWhen(cfg, c, d);
    assert 2 * i <= P2Star(cfg);
    if m < i {
      ShortStepGap(i, cfg.capMs, m, d);
    } else {
      LongStepGap(i, cfg.capMs, m, d);
    }
    hide WorstGap, AllWithin, Interval, P2Star;
  }

  const DEFAULTS := Config(0, 0, 120000)

  /**
   * With the default settings, where P2* is 5000 ms and frames are due every 2500 ms, a job
   * polled every d ms can overrun P2* exactly when its step is allowed more than 5000 - d ms.
   */
  lemma GapCanExceedP2Star(c: Core, d: nat)
    requires JustAccepted(DEFAULTS, c) && c.session.s3Timeout >= 5000 && d < 2500
    requires CanDefer(DEFAULTS, Free, c.pending.slot.job, false)
    ensures !AllWithin(DEFAULTS, c, d, 5000) <==> d + c.pending.slot.job.stepMax > 5000
  {
    assert P2Star(DEFAULTS) == 5000 && Interval(DEFAULTS, c.session.s3Timeout) == 2500;
    hide Interval, P2Star, AllWithin;
    DefaultKeepaliveKeepsP2Star(DEFAULTS, c, d);
  }
}
