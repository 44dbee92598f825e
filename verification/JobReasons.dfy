/**
 Why a job ended as it did: which step of the worker asked for the outcome the
 store recorded (apps/agent/cmd/ivrm-operation-worker/main.go).
 */
module JobReasons {
  import opened Wrappers
  import opened LifecycleReports
  import opened JobProtocol
  import opened JobOutcomes

  /** In `s` the worker takes `step` and asks for this outcome of its job. */
  predicate Reason(s: Sys, step: Step, j: JobId, next: Status, code: Option<string>) {
    && step.ByWorker? && !s.worker.Idle? && s.worker.job == j
    && match step.w
       case Resume =>
         && s.worker.Claimed? && s.worker.status == Running && j !in s.requests && j !in s.results
         && next == Failed && code == Some("recovery_state_missing")
       case CheckResidue =>
         && s.worker.Publishing? && (j in s.requests || j in s.results)
         && next == Failed && code == Some("executor_timeout")
       case Link => s.worker.Linking? && j in s.requests && next == Failed && code == Some("executor_timeout")
       case PublishFails => s.worker.Linking? && next == Failed && code == Some("executor_timeout")
       case ReadFails => s.worker.Waiting? && next == Failed && code == Some("executor_timeout")
       case TimeOut => s.worker.Waiting? && next == Failed && code == Some("executor_timeout")
       case ReadResult =>
         && s.worker.Waiting? && j in s.results && s.results[j].job == j && s.results[j].action == s.worker.action
         && if s.results[j].report.ok then next == Succeeded && code.None?
            else next == Failed && code == s.results[j].report.errorCode && code.Some?
       case _ => false
  }

  lemma {:induction false} JudgePasses(report: Report, action: Action, done: set<Performance>, j: JobId)
    requires Backed(done, j, action, report)
    requires forall p | p in done :: Performable(p.action, p.trace, p.report)
    ensures !report.ok ==> report.errorCode.Some? && Judge(action, report) == Ask(Failed, report.errorCode)
    ensures report.ok ==> report.errorCode.None? && Judge(action, report) == Ask(Succeeded, None)
  {
    hide MatchesErrorCode;
    CodesAreWellFormed("executor_internal_error");
    if report != INTERNAL_ERROR {
      var p :| p in done && p.job == j && p.action == action && p.report == report;
      assert Performable(p.action, p.trace, p.report);
      hide ActionMeans, Gentle;
      if !report.ok { CodesAreWellFormed(report.errorCode.value); }
    }
  }

  /** In an orderly state a result file names its own job, with the action its worker waits for. */
  lemma {:induction false} OwnResult(s: Sys)
    requires ActionsOk(s) && ReportsOk(s) && s.worker.Waiting? && s.worker.job in s.results
    ensures var f := s.results[s.worker.job];
            && f.job == s.worker.job && f.action == s.worker.action && Backed(s.performed, f.job, f.action, f.report)
  {
    hide Backed, Performable, Count;
    assert Asked(s, s.worker.job, s.results[s.worker.job].action);
  }

  /** What a worker's step asks for, if it is an outcome, is what `Reason` says, and every reason is asked for. */
  lemma {:induction false} DecideReasons(s: Sys, w: WorkerStep, next: Status, code: Option<string>)
    requires ActionsOk(s) && ReportsOk(s) && WorkerEnabled(s.worker, s.results, w) && !s.worker.Idle?
    requires next != Running
    ensures Decide(s.worker, s.requests, s.results, w) == Ask(next, code) <==>
            Reason(s, ByWorker(w), s.worker.job, next, code)
  {
    hide Judge, ReportsOk, WorkerKnown, RequestsAsked, RootAsked, ResultsAsked, PerformancesAsked;
    match w
    case ReadResult =>
      var f := s.results[s.worker.job];
      OwnResult(s);
      assert forall p | p in s.performed :: Performable(p.action, p.trace, p.report) by { PerformedWell(s); }
      JudgePasses(f.report, f.action, s.performed, f.job);
      hide Backed, Performable;
    case _ =>
  }

  lemma {:induction false} PerformedWell(s: Sys)
    requires ActionsOk(s)
    ensures forall p | p in s.performed :: Performable(p.action, p.trace, p.report)
  {
    hide Performable, Count;
  }

  lemma {:induction false} RespondMails(s: Sys, d: Decision)
    ensures Respond(s, d).mail ==
            s.mail + if d.Ask? && !s.worker.Idle? then {Request(s.worker, d.next, s.nextId, d.code)} else {}
  {
    hide Awaiting, Request;
  }

  /** The mail after a worker's step: what was there, and what the step asked for. */
  lemma {:induction false} MailAfter(s: Sys, w: WorkerStep)
    requires WorkerEnabled(s.worker, s.results, w)
    ensures var d, t := Decide(s.worker, s.requests, s.results, w), TakeWorker(s, w);
            t.mail == s.mail + if d.Ask? && !s.worker.Idle? then {Request(s.worker, d.next, s.nextId, d.code)} else {}
  {
    hide Decide, WorkerEnabled, TouchRequests, Request, Respond;
    TouchKeeps(s, w);
    RespondMails(TouchRequests(s, w), Decide(s.worker, s.requests, s.results, w));
  }

  /**
   In every run each step of the worker mails the outcome it has a reason for and no other: for a result file that
   of the file, with the very code the executor reported.
   */
  lemma {:induction false} WorkerMails(steps: seq<Step>, w: WorkerStep, next: Status, code: Option<string>)
    requires Playable(steps + [ByWorker(w)]) && next != Running
    ensures var s, t := Play(steps), Play(steps + [ByWorker(w)]);
            (exists m :: m in t.mail && m !in s.mail && m.next == next && m.code == code) <==>
            !s.worker.Idle? && Reason(s, ByWorker(w), s.worker.job, next, code)
    ensures var s, t := Play(steps), Play(steps + [ByWorker(w)]);
            forall m | m in t.mail && m !in s.mail ::
              m.job == s.worker.job && (m.next != Running ==> m.expected == Running)
  {
    hide Play, Playable, Decide, Reason, TakeWorker, WorkerEnabled, ActionsOk, ReportsOk, JobsTruthful, MailTruthful,
         PublishOk, ExecuteOk;
    var s := Before(steps, ByWorker(w));
    HistoryAlways(steps);
    CountsAlways(steps, 0);
    MailAfter(s, w);
    var d, t := Decide(s.worker, s.requests, s.results, w), TakeWorker(s, w);
    if !s.worker.Idle? {
      DecideReasons(s, w, next, code);
      if d == Ask(next, code) {
        var m := Request(s.worker, d.next, s.nextId, d.code);
        assert m in t.mail && m !in s.mail;
      }
    }
  }

  /**
   In every run a result file the worker reads is its own job's, with that job's action, and what the worker mails is
   what the file says: success, or failure with the code of the file.
   */
  lemma {:induction false} ResultPassedOn(steps: seq<Step>)
    requires Playable(steps + [ByWorker(ReadResult)])
    ensures var s, t := Play(steps), Play(steps + [ByWorker(ReadResult)]);
            && s.worker.Waiting? && s.worker.job in s.results
            && var j, f := s.worker.job, s.results[s.worker.job];
            && f.job == j && f.action == s.worker.action
            && t.mail == s.mail + {if f.report.ok then Message(s.nextId, j, Running, Succeeded, None)
                                   else Message(s.nextId, j, Running, Failed, f.report.errorCode)}
            && (!f.report.ok ==> f.report.errorCode.Some? &&
                                 f.report.errorCode.value in FAILURE_CODES + {"executor_internal_error"})
  {
    hide Play, Playable, Judge, TakeWorker, WorkerKnown, RequestsAsked, RootAsked, ResultsAsked, PerformancesAsked,
         JobsTruthful, MailTruthful, Backed, Performable;
    var s := Before(steps, ByWorker(ReadResult));
    HistoryAlways(steps);
    MailAfter(s, ReadResult);
    OwnResult(s);
    PerformedWell(s);
    var f := s.results[s.worker.job];
    JudgePasses(f.report, f.action, s.performed, f.job);
    ReportedCode(s.performed, f.job, f.action, f.report);
  }

  lemma {:induction false} ReportedCode(done: set<Performance>, j: JobId, a: Action, report: Report)
    requires Backed(done, j, a, report)
    requires forall p | p in done :: Performable(p.action, p.trace, p.report)
    ensures !report.ok ==>
              report.errorCode.Some? && report.errorCode.value in FAILURE_CODES + {"executor_internal_error"}
  {
    hide ActionMeans, Gentle;
  }

  lemma {:induction false} Before(steps: seq<Step>, step: Step) returns (s: Sys)
    requires Playable(steps + [step])
    ensures Playable(steps) && s == Play(steps) && Enabled(s, step) && Play(steps + [step]) == Take(s, step)
  {
    assert (steps + [step])[..|steps|] == steps;
    s := Play(steps);
  }

  // ---- From the record back to the reason

  /** Step `k` of the run asked for this outcome of the job. */
  ghost predicate AskedAt(steps: seq<Step>, k: int, j: JobId, next: Status, code: Option<string>) {
    0 <= k < |steps| && Playable(steps[..k]) && Reason(Play(steps[..k]), steps[k], j, next, code)
  }

  ghost predicate Explained(steps: seq<Step>, j: JobId, next: Status, code: Option<string>) {
    next in {Succeeded, Failed} ==> exists k :: AskedAt(steps, k, j, next, code)
  }

  ghost predicate AllExplained(steps: seq<Step>)
    requires Playable(steps)
  {
    && (forall m | m in Play(steps).mail :: Explained(steps, m.job, m.next, m.code))
    && (forall j | j in Play(steps).store ::
          Explained(steps, j, Play(steps).store[j].status, Play(steps).store[j].errorCode))
  }

  lemma {:induction false} ExplainedLater(steps: seq<Step>, step: Step, j: JobId, next: Status, code: Option<string>)
    requires Explained(steps, j, next, code)
    ensures Explained(steps + [step], j, next, code)
  {
    hide Reason, Playable, Play;
    if next in {Succeeded, Failed} {
      var k :| AskedAt(steps, k, j, next, code);
      assert (steps + [step])[..k] == steps[..k] && (steps + [step])[k] == steps[k];
      assert AskedAt(steps + [step], k, j, next, code);
    }
  }

  lemma {:induction false} ExplainedNow(steps: seq<Step>, step: Step, j: JobId, next: Status, code: Option<string>)
    requires Playable(steps) && Reason(Play(steps), step, j, next, code)
    ensures Explained(steps + [step], j, next, code)
  {
    hide Reason, Playable, Play;
    assert (steps + [step])[..|steps|] == steps && (steps + [step])[|steps|] == step;
    assert AskedAt(steps + [step], |steps|, j, next, code);
  }

  /** The record of `j` in `t` is that in `s`, or what a request in the mail asks for, or no outcome. */
  ghost predicate Recorded(s: Sys, t: Sys, j: JobId) {
    j in t.store ==>
      || t.store[j].status !in {Succeeded, Failed}
      || (j in s.store && s.store[j] == t.store[j])
      || exists m :: m in s.mail && m.job == j && m.next == t.store[j].status && m.code == t.store[j].errorCode
  }

  lemma {:induction false} RecordedByStore(s: Sys, step: StoreStep, j: JobId)
    requires StoreEnabled(s, step)
    ensures Recorded(s, TakeStore(s, step), j)
  {
  }

  lemma {:induction false} RecordedBySwap(s: Sys, m: Message, j: JobId)
    requires m in s.mail
    ensures Recorded(s, CompareAndSet(s, m), j)
  {
    hide Bump;
  }

  lemma {:induction false} RecordedByNetwork(s: Sys, step: NetworkStep, j: JobId)
    requires NetworkEnabled(s, step)
    ensures Recorded(s, TakeNetwork(s, step), j)
  {
    hide CompareAndSet, Awaits, Swaps, Recorded;
    match step
    case Claim(_, _) => RecordedByClaim(s, step, j);
    case Deliver(m, _) =>
      RecordedBySwap(s, m, j);
      SameRecords(s, CompareAndSet(s, m), TakeNetwork(s, step), j);
    case Lose(_) => SameRecords(s, s, TakeNetwork(s, step), j);
  }

  lemma {:induction false} RecordedByClaim(s: Sys, step: NetworkStep, j: JobId)
    requires NetworkEnabled(s, step) && step.Claim?
    ensures Recorded(s, TakeNetwork(s, step), j)
  {
  }

  lemma {:induction false} SameRecords(s: Sys, t: Sys, u: Sys, j: JobId)
    requires t.store == u.store && (Recorded(s, t, j) || t.store == s.store)
    ensures Recorded(s, u, j)
  {
  }

  /** Jobs only get the status and code of a request in the mail, or one that is neither success nor failure. */
  lemma {:induction false} RecordedBy(s: Sys, step: Step, j: JobId)
    requires Enabled(s, step)
    ensures Recorded(s, Take(s, step), j)
  {
    hide TakeStore, TakeNetwork, TakeWorker, TakeRoot, StoreEnabled, NetworkEnabled, WorkerEnabled, RootEnabled,
         Recorded;
    match step
    case ByStore(st) => RecordedByStore(s, st, j);
    case ByNetwork(n) => RecordedByNetwork(s, n, j);
    case ByWorker(w) =>
      WorkerKeeps(s, w);
      SameRecords(s, s, Take(s, step), j);
    case ByRoot(r) =>
      StoreByRoot(s, r);
      SameRecords(s, s, Take(s, step), j);
  }

  /** New mail comes from the worker alone. */
  lemma {:induction false} MailOnlyFromWorker(s: Sys, step: Step)
    requires Enabled(s, step) && !step.ByWorker?
    ensures Take(s, step).mail <= s.mail
  {
    match step
    case ByStore(_) =>
    case ByNetwork(n) => MailShrinks(s, n); hide TakeNetwork, NetworkEnabled;
    case ByRoot(r) => StoreByRoot(s, r); hide TakeRoot, RootEnabled;
  }

  lemma {:induction false} MailExplained(steps: seq<Step>, step: Step, m: Message)
    requires Playable(steps + [step]) && Playable(steps) && AllExplained(steps)
    requires m in Play(steps + [step]).mail
    ensures Explained(steps + [step], m.job, m.next, m.code)
  {
    hide Play, Playable, Reason, Explained, Take;
    var s := Before(steps, step);
    if m in s.mail {
      ExplainedLater(steps, step, m.job, m.next, m.code);
    } else if step.ByWorker? {
      if m.next == Running { NotAnOutcome(steps + [step], m.job, m.code); }
      else {
        WorkerMails(steps, step.w, m.next, m.code);
        ExplainedNow(steps, step, m.job, m.next, m.code);
      }
    } else {
      MailOnlyFromWorker(s, step);
    }
  }

  lemma {:induction false} NotAnOutcome(steps: seq<Step>, j: JobId, code: Option<string>)
    ensures forall next | next !in {Succeeded, Failed} :: Explained(steps, j, next, code)
  {
  }

  lemma {:induction false} JobExplained(steps: seq<Step>, step: Step, j: JobId)
    requires Playable(steps + [step]) && Playable(steps) && AllExplained(steps)
    requires j in Play(steps + [step]).store
    ensures var job := Play(steps + [step]).store[j]; Explained(steps + [step], j, job.status, job.errorCode)
  {
    hide Play, Playable, Reason, Explained, Take, Enabled;
    var s := Before(steps, step);
    var job := Play(steps + [step]).store[j];
    RecordedBy(s, step, j);
    if job.status !in {Succeeded, Failed} {
      NotAnOutcome(steps + [step], j, job.errorCode);
    } else if j in s.store && s.store[j].status == job.status && s.store[j].errorCode == job.errorCode {
      ExplainedLater(steps, step, j, job.status, job.errorCode);
    } else {
      var m :| m in s.mail && m.job == j && m.next == job.status && m.code == job.errorCode;
      ExplainedLater(steps, step, m.job, m.next, m.code);
    }
  }

  lemma {:induction false} AlwaysExplained(steps: seq<Step>)
    requires Playable(steps)
    ensures AllExplained(steps)
    decreases |steps|
  {
    if steps != [] {
      hide Play, Playable, Explained;
      var before, step := steps[..|steps| - 1], steps[|steps| - 1];
      assert steps == before + [step];
      var s := Before(before, step);
      AlwaysExplained(before);
      forall m | m in Play(steps).mail ensures Explained(steps, m.job, m.next, m.code) {
        MailExplained(before, step, m);
      }
      forall j | j in Play(steps).store
        ensures Explained(steps, j, Play(steps).store[j].status, Play(steps).store[j].errorCode)
      {
        JobExplained(before, step, j);
      }
    }
  }

  /**
   In every run a job recorded as succeeded or failed was so because of one step of the worker: reading a result file
   of that job, and then with its outcome and code; finding neither request nor result on resuming, and then as
   "recovery_state_missing"; or a file left over, a file that could not be written or read, or a wait that timed out,
   and then as "executor_timeout".
   */
  lemma {:induction false} EndedForAReason(steps: seq<Step>, j: JobId)
    requires Playable(steps)
    requires var s := Play(steps); j in s.store && s.store[j].status in {Succeeded, Failed}
    ensures exists k :: AskedAt(steps, k, j, Play(steps).store[j].status, Play(steps).store[j].errorCode)
  {
    AlwaysExplained(steps);
    hide Play, Playable, AskedAt;
    assert Explained(steps, j, Play(steps).store[j].status, Play(steps).store[j].errorCode);
  }
}
