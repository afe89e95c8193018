/**
 * What the tester gets from the server (core/uds_server.c), request by request, in terms of
 * the request, the tables and the fields of the state: answers, counters and the S3 timer.
 */
module ServerAnswers {
  import opened Types
  import opened Pending
  import opened Server
  import AccessTable
  import Session

  /** Some entry of the service table is for the service. */
  predicate HasHandler(services: seq<Entry>, sid: u8) {
    exists i :: 0 <= i < |services| && services[i].sid == sid
  }

  lemma {:induction false} FoundExactlyWhen(services: seq<Entry>, sid: u8)
    ensures FindHandler(services, sid).Some? <==> HasHandler(services, sid)
    decreases |services|
  {
    if services != [] && services[0].sid != sid {
      FoundExactlyWhen(services[1..], sid);
      if HasHandler(services, sid) {
        var i :| 0 <= i < |services| && services[i].sid == sid;
        assert services[1..][i - 1].sid == sid;
      }
    }
  }

  // ---- The S3 timer ----

  /** A request keeps the session alive if its service has a handler; while a job runs, only 3E 80 does. */
  predicate KeepsAlive(setup: Setup, c: Core, req: frame)
    requires req != []
  {
    if c.pending.slot.Free? then HasHandler(setup.services, req[0]) else req == [0x3E, 0x80]
  }

  /**
   * Whatever becomes of a request, refused, failed, answered or deferred, the session itself
   * stays as it is, and its timer is full again exactly if the request keeps it alive.
   */
  lemma RequestSession(setup: Setup, c: Core, level: u8, req: frame, functional: bool, h: HandlerRun)
    requires req != []
    ensures var s, t := c.session, Process(setup, c, level, req, functional, h).core.session;
      && t.active == s.active && t.s3Timeout == s.s3Timeout && t.changes == s.changes
      && t.strictProgramming == s.strictProgramming && t.safetyEnabled == s.safetyEnabled
      && t.s3Timer == if KeepsAlive(setup, c, req) then s.s3Timeout else s.s3Timer
  {
    hide Access, FindHandler, HasHandler, StatusToNrc, FunctionallySilent, Suppresses, CanDefer, DeferStatus;
    FoundExactlyWhen(setup.services, req[0]);
  }

  /** While a job runs: 3E 80 gets no answer, nor does a functional request, any other gets 7F sid 21. */
  lemma BusyExactly(setup: Setup, c: Core, level: u8, req: frame, functional: bool, h: HandlerRun)
    requires req != [] && c.pending.slot.Taken?
    ensures var r := Process(setup, c, level, req, functional, h);
      && r.events == [] && r.core.pending.slot == c.pending.slot && r.core.pending.tx == c.pending.tx
      && r.core.requests == (c.requests + 1) % 0x1_0000_0000
      && (if req == [0x3E, 0x80] || functional then r.response == [] && r.core.pending == c.pending
          else r.response == [0x7F, req[0], 0x21] &&
               r.core.pending.negatives == (c.pending.negatives + 1) % 0x1_0000_0000)
  {}

  // ---- Refusals ----

  /** Negative responses that functional addressing suppresses. */
  lemma SilentCodes(sid: u8, nrc: u8)
    ensures FunctionallySilent(NegativeFrame(sid, nrc)) <==>
      nrc == 0x11 || nrc == 0x12 || nrc == 0x31 || nrc == 0x7E || nrc == 0x7F
  {}

  /** A refusal: 7F sid nrc, counted once, and nothing else but the request counter and the timer. */
  predicate IsRefusal(setup: Setup, c: Core, req: frame, functional: bool, nrc: u8, r: Reply)
    requires req != []
  {
    && r.response == (if functional && nrc in {0x11, 0x12, 0x31, 0x7E, 0x7F} then [] else [0x7F, req[0], nrc])
    && r.core.pending == c.pending.(negatives := (c.pending.negatives + 1) % 0x1_0000_0000)
    && r.core.requests == (c.requests + 1) % 0x1_0000_0000
    && r.events == []
  }

  /** A step that cannot promise its frames within P2*, 5000 ms if not configured. */
  predicate TooSlow(setup: Setup, job: Job) {
    job.stepMax >= if setup.cfg.p2StarMs == 0 then 5000 else setup.cfg.p2StarMs
  }

  /**
   * The server's own refusals, in the order of its checks: 11 without a handler, 33 or 7F
   * without access, 22 for a job that cannot be deferred.
   */
  lemma RefusedExactly(setup: Setup, c: Core, level: u8, req: frame, functional: bool, h: HandlerRun)
    requires req != [] && c.pending.slot.Free?
    ensures var r := Process(setup, c, level, req, functional, h);
      var access := Access(setup, req[0], c.session.active, level);
      && (!HasHandler(setup.services, req[0]) ==> IsRefusal(setup, c, req, functional, 0x11, r))
      && (HasHandler(setup.services, req[0]) && access == ErrSecAccessDenied ==>
            IsRefusal(setup, c, req, functional, 0x33, r))
      && (HasHandler(setup.services, req[0]) && access != Ok && access != ErrSecAccessDenied ==>
            IsRefusal(setup, c, req, functional, 0x7F, r))
      && (HasHandler(setup.services, req[0]) && access == Ok && h.Defers? && (functional || TooSlow(setup, h.job)) ==>
            IsRefusal(setup, c, req, functional, 0x22, r))
  {
    hide FindHandler, HasHandler, AccessTable.Decision, FunctionallySilent, Suppresses;
    FoundExactlyWhen(setup.services, req[0]);
    AccessTable.DecisionStatus(Rules(setup), setup.unlisted, req[0], c.session.active, level);
    SilentCodes(req[0], 0x11);
    SilentCodes(req[0], 0x33);
    SilentCodes(req[0], 0x7F);
    SilentCodes(req[0], 0x22);
  }

  // ---- Answers of handlers ----

  /** The entry that serves a service is the first one for it. */
  lemma {:induction false} FirstEntryServes(services: seq<Entry>, sid: u8, i: nat)
    requires i < |services| && services[i].sid == sid && forall k :: 0 <= k < i ==> services[k].sid != sid
    ensures FindHandler(services, sid) == Some(services[i])
    decreases i
  {
    if i > 0 {
      FirstEntryServes(services[1..], sid, i - 1);
    }
  }

  /** A physical request whose handler defers a job: 7F sid 78, and a slot with both clocks at 0. */
  lemma DeferredExactly(setup: Setup, c: Core, level: u8, req: frame, job: Job)
    requires req != [] && c.pending.slot.Free? && HasHandler(setup.services, req[0]) && !TooSlow(setup, job)
    requires Access(setup, req[0], c.session.active, level) == Ok
    ensures var r := Process(setup, c, level, req, false, Defers(job));
      && r.response == [0x7F, job.sid, 0x78]
      && r.core.pending == c.pending.(slot := Taken(job, false, false, 0, 0, 1))
      && r.core.requests == (c.requests + 1) % 0x1_0000_0000
      && r.events == [Accepted(job.sid)]
  {
    hide FindHandler, HasHandler, Access;
    FoundExactlyWhen(setup.services, req[0]);
  }

  /** Bit 7 of the second byte asks for silence, where the service supports that. */
  predicate AsksForSilence(entry: Entry, req: frame) {
    entry.suppressSupported && |req| > 1 && req[1] / 128 == 1
  }

  /**
   * A handler that answers: its bytes, or silence if the request asked for it or is
   * functional and they are a negative response that functional requests do not get.
   */
  lemma AnsweredExactly(setup: Setup, c: Core, level: u8, req: frame, functional: bool, i: nat, response: frame)
    requires req != [] && c.pending.slot.Free? && Access(setup, req[0], c.session.active, level) == Ok
    requires i < |setup.services| && setup.services[i].sid == req[0]
    requires forall k :: 0 <= k < i ==> setup.services[k].sid != req[0]
    ensures var r := Process(setup, c, level, req, functional, Answers(Ok, response));
      && r.response == (if AsksForSilence(setup.services[i], req) then []
                        else if functional && |response| == 3 && response[0] == 0x7F &&
                                response[2] in {0x11, 0x12, 0x31, 0x7E, 0x7F} then []
                        else response)
      && r.core.pending == c.pending && r.core.requests == (c.requests + 1) % 0x1_0000_0000 && r.events == []
  {
    hide FindHandler, Access;
    FirstEntryServes(setup.services, req[0], i);
  }

  /** A handler that fails: a refusal with the code of its status, whatever it wrote. */
  lemma FailedExactly(setup: Setup, c: Core, level: u8, req: frame, functional: bool, status: Status, response: frame)
    requires req != [] && c.pending.slot.Free? && Access(setup, req[0], c.session.active, level) == Ok
    requires HasHandler(setup.services, req[0]) && status != Ok
    ensures IsRefusal(setup, c, req, functional, StatusToNrc(status),
                      Process(setup, c, level, req, functional, Answers(status, response)))
  {
    hide FindHandler, HasHandler, Access, StatusToNrc, FunctionallySilent;
    FoundExactlyWhen(setup.services, req[0]);
    SilentCodes(req[0], StatusToNrc(status));
  }

  // ---- Negative response codes ----

  lemma LowCodes(s: Status)
    ensures StatusToNrc(s) == 0x11 <==> s == ErrServiceNotSupported
    ensures StatusToNrc(s) == 0x12 <==> s == ErrSubFunctionNotSupported
    ensures StatusToNrc(s) == 0x13 <==> s in {ErrInvalidParam, ErrBufferOverflow, ErrTpOverflow}
    ensures StatusToNrc(s) == 0x14 <==> s == ErrResponseTooLong
    ensures StatusToNrc(s) == 0x24 <==> s in {ErrSecSeedUnavailable, ErrRequestSequence}
    ensures StatusToNrc(s) == 0x31 <==>
      s in {ErrRequestOutOfRange, ErrDidNotFound, ErrDidReadFailed, ErrDidWriteFailed, ErrRoutineNotFound}
  {}

  lemma SecurityCodes(s: Status)
    ensures StatusToNrc(s) == 0x33 <==> s in {ErrSecAccessDenied, ErrSecNotUnlocked}
    ensures StatusToNrc(s) == 0x35 <==> s == ErrSecInvalidKey
    ensures StatusToNrc(s) == 0x36 <==> s == ErrSecAttemptExceeded
    ensures StatusToNrc(s) == 0x37 <==> s == ErrSecDelayActive
  {}

  lemma HighCodes(s: Status)
    ensures StatusToNrc(s) == 0x70 <==> s == ErrUploadDownloadNotAccepted
    ensures StatusToNrc(s) == 0x71 <==> s == ErrTransferSuspended
    ensures StatusToNrc(s) == 0x72 <==> s in {ErrTransferAborted, ErrPlatform}
    ensures StatusToNrc(s) == 0x73 <==> s in {ErrTransferWrongSeq, ErrTpUnexpectedPdu}
    ensures StatusToNrc(s) == 0x7F <==>
      s in {ErrSessionTimeout, ErrServiceNotSupportedInSession, ErrRoutineNotSupportedInSession}
    ensures StatusToNrc(s) in
      {0x11, 0x12, 0x13, 0x14, 0x22, 0x24, 0x31, 0x33, 0x35, 0x36, 0x37, 0x70, 0x71, 0x72, 0x73, 0x7F}
  {}

  /** The code of every failure, as ISO 14229-1 Annex A names them; 22 stands for all not listed. */
  lemma CodeOfStatus(s: Status)
    ensures StatusToNrc(s) == 0x11 <==> s == ErrServiceNotSupported
    ensures StatusToNrc(s) == 0x12 <==> s == ErrSubFunctionNotSupported
    ensures StatusToNrc(s) == 0x13 <==> s in {ErrInvalidParam, ErrBufferOverflow, ErrTpOverflow}
    ensures StatusToNrc(s) == 0x14 <==> s == ErrResponseTooLong
    ensures StatusToNrc(s) == 0x24 <==> s in {ErrSecSeedUnavailable, ErrRequestSequence}
    ensures StatusToNrc(s) == 0x31 <==>
      s in {ErrRequestOutOfRange, ErrDidNotFound, ErrDidReadFailed, ErrDidWriteFailed, ErrRoutineNotFound}
    ensures StatusToNrc(s) == 0x33 <==> s in {ErrSecAccessDenied, ErrSecNotUnlocked}
    ensures StatusToNrc(s) == 0x35 <==> s == ErrSecInvalidKey
    ensures StatusToNrc(s) == 0x36 <==> s == ErrSecAttemptExceeded
    ensures StatusToNrc(s) == 0x37 <==> s == ErrSecDelayActive
    ensures StatusToNrc(s) == 0x70 <==> s == ErrUploadDownloadNotAccepted
    ensures StatusToNrc(s) == 0x71 <==> s == ErrTransferSuspended
    ensures StatusToNrc(s) == 0x72 <==> s in {ErrTransferAborted, ErrPlatform}
    ensures StatusToNrc(s) == 0x73 <==> s in {ErrTransferWrongSeq, ErrTpUnexpectedPdu}
    ensures StatusToNrc(s) == 0x7F <==>
      s in {ErrSessionTimeout, ErrServiceNotSupportedInSession, ErrRoutineNotSupportedInSession}
    ensures StatusToNrc(s) in
      {0x11, 0x12, 0x13, 0x14, 0x22, 0x24, 0x31, 0x33, 0x35, 0x36, 0x37, 0x70, 0x71, 0x72, 0x73, 0x7F}
  {
    hide StatusToNrc;
    LowCodes(s);
    SecurityCodes(s);
    HighCodes(s);
  }

  /** A failure that a functional request does not hear about. */
  lemma SilentFailure(sid: u8, s: Status)
    ensures FunctionallySilent(NegativeFrame(sid, StatusToNrc(s))) <==>
      s in {ErrServiceNotSupported, ErrSubFunctionNotSupported, ErrRequestOutOfRange, ErrDidNotFound, ErrDidReadFailed,
            ErrDidWriteFailed, ErrRoutineNotFound, ErrSessionTimeout, ErrServiceNotSupportedInSession,
            ErrRoutineNotSupportedInSession}
  {
    hide StatusToNrc, FunctionallySilent;
    SilentCodes(sid, StatusToNrc(s));
    CodeOfStatus(s);
  }
}
