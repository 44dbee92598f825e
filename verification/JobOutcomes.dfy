/**
 What a recorded outcome of a job means: a success stands for an action the
 executor carried through for that very job, a failure for a code the executor
 reported or one of the worker's own.
 */
module JobOutcomes {
  import opened Wrappers
  import opened LifecycleReports
  import opened JobProtocol

  // ---- What no step undoes

  predicate Known(s: Sys, j: JobId, a: Action) { j in s.store && s.store[j].action == a }

  /** The request was published for a job with this action. */
  predicate Asked(s: Sys, j: JobId, a: Action) { Known(s, j, a) && Count(s.published, j) >= 1 }

  /** Jobs keep their actions; publications and performances are never undone. */
  ghost predicate Grows(s: Sys, t: Sys) {
    && (forall j | j in s.store :: j in t.store && t.store[j].action == s.store[j].action)
    && (forall j :: Count(s.published, j) <= Count(t.published, j))
    && s.performed <= t.performed
  }

  lemma {:induction false} GrowsByStore(s: Sys, step: StoreStep)
    requires StoreEnabled(s, step)
    ensures Grows(s, TakeStore(s, step))
  {
    hide Count;
  }

  lemma {:induction false} GrowsByRoot(s: Sys, step: RootStep)
    requires RootEnabled(s.root, s.requests, step)
    ensures Grows(s, TakeRoot(s, step))
  {
    hide Count, Bump, Performable, Holds;
  }

  lemma {:induction false} GrowsBySwap(s: Sys, m: Message)
    ensures var t := CompareAndSet(s, m);
            forall j | j in s.store :: j in t.store && t.store[j].action == s.store[j].action
  {
    hide Bump;
  }

  lemma {:induction false} GrowsByNetwork(s: Sys, step: NetworkStep)
    requires NetworkEnabled(s, step)
    ensures Grows(s, TakeNetwork(s, step))
  {
    NetworkKeeps(s, step);
    match step
    case Deliver(m, _) =>
      GrowsBySwap(s, m);
      hide Count, CompareAndSet, Awaits, Swaps;
    case _ => hide Count;
  }

  lemma {:induction false} GrowsByWorker(s: Sys, step: WorkerStep)
    requires WorkerEnabled(s.worker, s.results, step)
    ensures Grows(s, TakeWorker(s, step))
  {
    hide TakeWorker, WorkerEnabled, TouchRequests, Count;
    WorkerKeeps(s, step);
    forall j ensures Count(s.published, j) <= Count(TakeWorker(s, step).published, j) { PublicationCount(s, step, j); }
  }

  lemma {:induction false} GrowsByStep(s: Sys, step: Step)
    requires Enabled(s, step)
    ensures Grows(s, Take(s, step))
  {
    hide Grows, TakeStore, StoreEnabled, TakeNetwork, NetworkEnabled, TakeWorker, WorkerEnabled, TakeRoot, RootEnabled;
    match step
    case ByStore(st) => GrowsByStore(s, st);
    case ByNetwork(n) => GrowsByNetwork(s, n);
    case ByWorker(w) => GrowsByWorker(s, w);
    case ByRoot(r) => GrowsByRoot(s, r);
  }

  /** In every run nothing recorded before is undone later. */
  lemma {:induction false} GrowsAlways(steps: seq<Step>, k: nat)
    requires Playable(steps) && k <= |steps| && Playable(steps[..k])
    ensures Grows(Play(steps[..k]), Play(steps))
    decreases |steps|
  {
    if k == |steps| {
      assert steps[..k] == steps;
    } else {
      var before, step := steps[..|steps| - 1], steps[|steps| - 1];
      assert before[..k] == steps[..k];
      GrowsAlways(before, k);
      GrowsByStep(Play(before), step);
      GrowsOn(Play(steps[..k]), Play(before), Play(steps));
      hide Grows;
    }
  }

  lemma {:induction false} GrowsOn(s: Sys, t: Sys, u: Sys)
    requires Grows(s, t) && Grows(t, u)
    ensures Grows(s, u)
  {
    hide Count;
  }

  // ---- Every file and every performance carries its job's own action

  ghost predicate WorkerKnown(s: Sys) { !s.worker.Idle? ==> Known(s, s.worker.job, s.worker.action) }

  ghost predicate RequestsAsked(s: Sys) { forall j | j in s.requests :: Asked(s, j, s.requests[j]) }

  ghost predicate RootAsked(s: Sys) {
    s.root.Accepted? || s.root.Acting? || s.root.Reporting? ==> Asked(s, s.root.job, s.root.action)
  }

  ghost predicate ResultsAsked(s: Sys) {
    forall j | j in s.results :: s.results[j].job == j && Asked(s, j, s.results[j].action)
  }

  ghost predicate PerformancesAsked(s: Sys) {
    forall p | p in s.performed :: Asked(s, p.job, p.action) && Performable(p.action, p.trace, p.report)
  }

  ghost predicate ActionsOk(s: Sys) {
    WorkerKnown(s) && RequestsAsked(s) && RootAsked(s) && ResultsAsked(s) && PerformancesAsked(s)
  }

  lemma {:induction false} ActionsByStore(s: Sys, step: StoreStep)
    requires ActionsOk(s) && StoreEnabled(s, step)
    ensures ActionsOk(TakeStore(s, step))
  {
    hide Count, Performable;
  }

  lemma {:induction false} ActionsByNetwork(s: Sys, step: NetworkStep)
    requires ActionsOk(s) && NetworkEnabled(s, step)
    ensures ActionsOk(TakeNetwork(s, step))
  {
    GrowsByNetwork(s, step);
    NetworkKeeps(s, step);
    WorkerByNetwork(s, step);
    hide Count, Performable, TakeNetwork, NetworkEnabled;
  }

  lemma {:induction false} WorkerByNetwork(s: Sys, step: NetworkStep)
    requires WorkerKnown(s) && NetworkEnabled(s, step)
    ensures WorkerKnown(TakeNetwork(s, step))
  {
    hide Bump, Count, Swaps;
    match step
    case Claim(_, _) =>
    case Deliver(m, delivered) =>
      GrowsByNetwork(s, step);
      assert CompareAndSet(s, m).worker == s.worker;
    case Lose(_) =>
  }

  lemma {:induction false} WorkerByWorker(s: Sys, step: WorkerStep)
    requires WorkerKnown(s) && WorkerEnabled(s.worker, s.results, step)
    ensures WorkerKnown(TakeWorker(s, step))
  {
    DecideFacts(s.worker, s.requests, s.results, step);
    hide Decide, WorkerEnabled, RequestsAfter, Publishes, Bump;
  }

  lemma {:induction false} RequestsByWorker(s: Sys, step: WorkerStep)
    requires WorkerKnown(s) && RequestsAsked(s) && WorkerEnabled(s.worker, s.results, step)
    ensures RequestsAsked(TakeWorker(s, step))
  {
    hide TakeWorker, WorkerEnabled, Count, Bump;
    WorkerKeeps(s, step);
    var t := TakeWorker(s, step);
    forall j | j in t.requests ensures Asked(t, j, t.requests[j]) {
      RequestsGrow(s, step, j);
      PublicationCount(s, step, j);
      BumpCounts(s.published, j, j);
    }
  }

  lemma {:induction false} ActionsByWorker(s: Sys, step: WorkerStep)
    requires ActionsOk(s) && WorkerEnabled(s.worker, s.results, step)
    ensures ActionsOk(TakeWorker(s, step))
  {
    hide TakeWorker, WorkerEnabled, TouchRequests, Count, Performable, WorkerKnown, RequestsAsked;
    GrowsByWorker(s, step);
    WorkerKeeps(s, step);
    WorkerByWorker(s, step);
    RequestsByWorker(s, step);
  }

  lemma {:induction false} ActionsByRoot(s: Sys, step: RootStep)
    requires ActionsOk(s) && RootEnabled(s.root, s.requests, step)
    ensures ActionsOk(TakeRoot(s, step))
  {
    hide Count, Performable, Holds, Bump;
  }

  // ---- Every report stands for a performance or an exception

  ghost predicate Backed(done: set<Performance>, j: JobId, a: Action, report: Report) {
    report == INTERNAL_ERROR || exists p | p in done :: p.job == j && p.action == a && p.report == report
  }

  ghost predicate ReportsOk(s: Sys) {
    && (s.root.Reporting? ==> Backed(s.performed, s.root.job, s.root.action, s.root.report))
    && forall j | j in s.results :: Backed(s.performed, j, s.results[j].action, s.results[j].report)
  }

  lemma {:induction false} ReportsByRoot(s: Sys, step: RootStep)
    requires ReportsOk(s) && ResultsAsked(s) && RootEnabled(s.root, s.requests, step)
    ensures ReportsOk(TakeRoot(s, step))
  {
    hide Count, Performable, Holds, Bump;
    match step
    case Finish(trace, report) =>
      assert Performance(s.root.job, s.root.action, trace, report) in TakeRoot(s, step).performed;
    case _ =>
  }

  lemma {:induction false} ReportsKept(s: Sys, t: Sys)
    requires ReportsOk(s) && t.root == s.root && t.results == s.results && t.performed == s.performed
    ensures ReportsOk(t)
  {
    hide Backed;
  }

  lemma {:induction false} ReportsByStore(s: Sys, step: StoreStep)
    requires ReportsOk(s) && StoreEnabled(s, step)
    ensures ReportsOk(TakeStore(s, step))
  {
    hide Backed;
  }

  lemma {:induction false} ReportsByStep(s: Sys, step: Step)
    requires ReportsOk(s) && ActionsOk(s) && Enabled(s, step)
    ensures ReportsOk(Take(s, step))
  {
    hide TakeStore, TakeNetwork, TakeWorker, TakeRoot, StoreEnabled, NetworkEnabled, WorkerEnabled, RootEnabled,
         ReportsOk, WorkerKnown, RequestsAsked, RootAsked, ResultsAsked, PerformancesAsked;
    match step
    case ByStore(st) => ReportsByStore(s, st);
    case ByNetwork(n) => NetworkKeeps(s, n); ReportsKept(s, TakeNetwork(s, n));
    case ByWorker(w) => WorkerKeeps(s, w); ReportsKept(s, TakeWorker(s, w));
    case ByRoot(r) => ReportsByRoot(s, r);
  }

  // ---- Every outcome stands for a report

  /** The codes a job can fail with although no performance reported them. */
  const OWN_CODES := {"executor_timeout", "recovery_state_missing", "executor_internal_error"}

  /** A success needs a successful performance; a failure needs a reported code or one of the worker's own. */
  ghost predicate Truthful(done: set<Performance>, j: JobId, a: Action, next: Status, code: Option<string>) {
    && (next.Succeeded? ==> exists p | p in done :: p.job == j && p.action == a && p.report.ok)
    && (next.Failed? ==>
          code.Some? && (code.value in OWN_CODES ||
                         exists p | p in done ::
                           p.job == j && p.action == a && !p.report.ok && p.report.errorCode == code))
  }

  ghost predicate MailTruthful(s: Sys) {
    forall m | m in s.mail :: m.job in s.store && Truthful(s.performed, m.job, s.store[m.job].action, m.next, m.code)
  }

  ghost predicate JobsTruthful(s: Sys) {
    forall j | j in s.store :: Truthful(s.performed, j, s.store[j].action, s.store[j].status, s.store[j].errorCode)
  }

  lemma {:induction false} CodesAreWellFormed(code: string)
    requires code in FAILURE_CODES || code == "executor_internal_error"
    ensures MatchesErrorCode(code)
  {
  }

  /** On a backed report the worker never falls back to its codes for unreadable results. */
  lemma {:induction false} JudgeTruthful(done: set<Performance>, j: JobId, a: Action, report: Report)
    requires Backed(done, j, a, report)
    requires forall p | p in done :: Performable(p.action, p.trace, p.report)
    ensures var d := Judge(a, report); d.Ask? && Truthful(done, j, a, d.next, d.code)
  {
    hide MatchesErrorCode;
    CodesAreWellFormed("executor_internal_error");
    if report != INTERNAL_ERROR {
      var p :| p in done && p.job == j && p.action == a && p.report == report;
      assert Performable(p.action, p.trace, p.report);
      if !report.ok { CodesAreWellFormed(report.errorCode.value); }
    }
  }

  lemma {:induction false} DecideTruthful(s: Sys, step: WorkerStep)
    requires ActionsOk(s) && ReportsOk(s) && WorkerEnabled(s.worker, s.results, step)
    ensures var d := Decide(s.worker, s.requests, s.results, step);
            d.Ask? && !s.worker.Idle? ==> Truthful(s.performed, s.worker.job, s.worker.action, d.next, d.code)
  {
    hide Judge, Performable, Backed;
    match step
    case ReadResult =>
      JudgeTruthful(s.performed, s.worker.job, s.results[s.worker.job].action, s.results[s.worker.job].report);
    case _ =>
  }

  lemma {:induction false} TruthfulGrows(done: set<Performance>, more: set<Performance>, j: JobId, a: Action,
                                         next: Status, code: Option<string>)
    requires Truthful(done, j, a, next, code) && done <= more
    ensures Truthful(more, j, a, next, code)
  {
  }

  lemma {:induction false} MailTruthfulGrows(s: Sys, t: Sys)
    requires MailTruthful(s) && Grows(s, t) && t.mail <= s.mail
    ensures MailTruthful(t)
  {
    hide Truthful;
    forall m | m in t.mail
      ensures m.job in t.store && Truthful(t.performed, m.job, t.store[m.job].action, m.next, m.code)
    {
      TruthfulGrows(s.performed, t.performed, m.job, s.store[m.job].action, m.next, m.code);
    }
  }

  lemma {:induction false} JobsTruthfulGrow(s: Sys, t: Sys)
    requires JobsTruthful(s) && Grows(s, t) && t.store == s.store
    ensures JobsTruthful(t)
  {
    hide Truthful;
    forall j | j in t.store
      ensures Truthful(t.performed, j, t.store[j].action, t.store[j].status, t.store[j].errorCode)
    {
      TruthfulGrows(s.performed, t.performed, j, s.store[j].action, s.store[j].status, s.store[j].errorCode);
    }
  }

  lemma {:induction false} OutcomesByStore(s: Sys, step: StoreStep)
    requires MailTruthful(s) && JobsTruthful(s) && StoreEnabled(s, step)
    ensures MailTruthful(TakeStore(s, step)) && JobsTruthful(TakeStore(s, step))
  {
    GrowsByStore(s, step);
    MailTruthfulGrows(s, TakeStore(s, step));
    hide MailTruthful, Grows;
  }

  lemma {:induction false} OutcomesByNetwork(s: Sys, step: NetworkStep)
    requires MailTruthful(s) && JobsTruthful(s) && NetworkEnabled(s, step)
    ensures MailTruthful(TakeNetwork(s, step)) && JobsTruthful(TakeNetwork(s, step))
  {
    hide MailTruthful, JobsTruthful, Grows, TakeNetwork, NetworkEnabled;
    GrowsByNetwork(s, step);
    MailShrinks(s, step);
    MailTruthfulGrows(s, TakeNetwork(s, step));
    JobsByNetwork(s, step);
  }

  /** The store only takes requests out of the mail. */
  lemma {:induction false} MailShrinks(s: Sys, step: NetworkStep)
    requires NetworkEnabled(s, step)
    ensures TakeNetwork(s, step).mail <= s.mail
  {
    match step
    case Deliver(m, _) =>
      SwapKeeps(s, m);
      hide CompareAndSet, Swaps, Awaits;
    case _ =>
  }

  lemma {:induction false} JobsBySwap(s: Sys, m: Message)
    requires MailTruthful(s) && JobsTruthful(s) && m in s.mail
    ensures JobsTruthful(CompareAndSet(s, m))
  {
    hide Bump, Truthful;
  }

  lemma {:induction false} JobsByNetwork(s: Sys, step: NetworkStep)
    requires MailTruthful(s) && JobsTruthful(s) && NetworkEnabled(s, step)
    ensures JobsTruthful(TakeNetwork(s, step))
  {
    match step
    case Claim(_, _) => hide MailTruthful;
    case Deliver(m, _) =>
      JobsBySwap(s, m);
      hide MailTruthful, CompareAndSet, Awaits, Swaps, Truthful;
    case Lose(_) => hide MailTruthful, Truthful;
  }

  lemma {:induction false} OutcomesByWorker(s: Sys, step: WorkerStep)
    requires ActionsOk(s) && ReportsOk(s) && MailTruthful(s) && JobsTruthful(s)
    requires WorkerEnabled(s.worker, s.results, step)
    ensures MailTruthful(TakeWorker(s, step)) && JobsTruthful(TakeWorker(s, step))
  {
    DecideTruthful(s, step);
    GrowsByWorker(s, step);
    WorkerKeeps(s, step);
    var t := TakeWorker(s, step);
    JobsTruthfulGrow(s, t);
    hide Truthful, Decide, WorkerEnabled, RequestsAfter, Publishes, Bump, JobsTruthful, Grows, ReportsOk,
         RequestsAsked, RootAsked, ResultsAsked, PerformancesAsked;
  }

  lemma {:induction false} StoreByRoot(s: Sys, step: RootStep)
    requires RootEnabled(s.root, s.requests, step)
    ensures TakeRoot(s, step).store == s.store && TakeRoot(s, step).mail == s.mail
  {
    hide Count, Bump, Performable, Holds;
  }

  lemma {:induction false} OutcomesByRoot(s: Sys, step: RootStep)
    requires MailTruthful(s) && JobsTruthful(s) && RootEnabled(s.root, s.requests, step)
    ensures MailTruthful(TakeRoot(s, step)) && JobsTruthful(TakeRoot(s, step))
  {
    GrowsByRoot(s, step);
    var t := TakeRoot(s, step);
    StoreByRoot(s, step);
    MailTruthfulGrows(s, t);
    JobsTruthfulGrow(s, t);
    hide MailTruthful, JobsTruthful, Grows, TakeRoot;
  }

  ghost predicate HistoryOk(s: Sys) { ActionsOk(s) && ReportsOk(s) && MailTruthful(s) && JobsTruthful(s) }

  lemma {:induction false} HistoryByStep(s: Sys, step: Step)
    requires HistoryOk(s) && Enabled(s, step)
    ensures HistoryOk(Take(s, step))
  {
    hide ActionsOk, ReportsOk, MailTruthful, JobsTruthful, StoreEnabled, NetworkEnabled, WorkerEnabled, RootEnabled,
         TakeStore, TakeNetwork, TakeWorker, TakeRoot;
    ReportsByStep(s, step);
    match step
    case ByStore(st) => ActionsByStore(s, st); OutcomesByStore(s, st);
    case ByNetwork(n) => ActionsByNetwork(s, n); OutcomesByNetwork(s, n);
    case ByWorker(w) => ActionsByWorker(s, w); OutcomesByWorker(s, w);
    case ByRoot(r) => ActionsByRoot(s, r); OutcomesByRoot(s, r);
  }

  lemma {:induction false} HistoryAlways(steps: seq<Step>)
    requires Playable(steps)
    ensures HistoryOk(Play(steps))
    decreases |steps|
  {
    if steps != [] {
      var before, step := steps[..|steps| - 1], steps[|steps| - 1];
      HistoryAlways(before);
      HistoryByStep(Play(before), step);
    }
  }

  // ---- The outcomes

  /**
     In every run a job recorded as succeeded was carried through by the executor: same job, same action,
     after its one publication, ending with the observation the action is for.
   */
  lemma {:induction false} SucceededMeansDone(steps: seq<Step>, j: JobId)
    requires Playable(steps)
    requires var s := Play(steps); j in s.store && s.store[j].status == Succeeded
    ensures var s := Play(steps);
            && Count(s.published, j) == 1
            && exists p | p in s.performed ::
                 p.job == j && p.action == s.store[j].action && p.report.ok && Achieved(p.action, p.trace)
  {
    HistoryAlways(steps);
    CountsAlways(steps, j);
    var s := Play(steps);
    var p :| p in s.performed && p.job == j && p.action == s.store[j].action && p.report.ok;
    hide Playable, Play, WorkerKnown, RequestsAsked, RootAsked, ResultsAsked, ReportsOk, MailTruthful, JobsTruthful,
         MailOk, ExecuteOk, Achieved;
    assert Asked(s, p.job, p.action) && Performable(p.action, p.trace, p.report);
  }

  /** A failed job names a code a performance of it reported, or one of three the bridge itself produces. */
  lemma {:induction false} FailedMeansReported(steps: seq<Step>, j: JobId)
    requires Playable(steps)
    requires var s := Play(steps); j in s.store && s.store[j].status == Failed
    ensures var s := Play(steps);
            && s.store[j].errorCode.Some?
            && s.store[j].errorCode.value in FAILURE_CODES + OWN_CODES
            && (s.store[j].errorCode.value in FAILURE_CODES ==>
                  exists p | p in s.performed ::
                    && p.job == j && p.action == s.store[j].action && p.report.errorCode == s.store[j].errorCode
                    && FailureMeans(p.action, p.trace, s.store[j].errorCode.value))
  {
    HistoryAlways(steps);
    var s := Play(steps);
    var code := s.store[j].errorCode;
    hide Playable, Play, WorkerKnown, RequestsAsked, RootAsked, ResultsAsked, ReportsOk, MailTruthful, Achieved;
    assert Truthful(s.performed, j, s.store[j].action, Failed, code);
    if code.value !in OWN_CODES {
      var p :| p in s.performed && p.job == j && p.action == s.store[j].action
               && !p.report.ok && p.report.errorCode == code;
      assert Performable(p.action, p.trace, p.report);
      FailureExplained(p.action, p.trace, p.report);
      hide FailureMeans, ActionMeans, Gentle;
    }
  }

  /** Succeeded, failed, expired and cancelled jobs. */
  predicate Terminal(s: Sys, j: JobId) { j in s.store && s.store[j].status in {Succeeded, Failed, Expired, Cancelled} }

  predicate SameRecord(s: Sys, t: Sys, j: JobId) { j in s.store && j in t.store && t.store[j] == s.store[j] }

  lemma {:induction false} TerminalByStore(s: Sys, step: StoreStep, j: JobId)
    requires StoreEnabled(s, step) && Terminal(s, j)
    ensures SameRecord(s, TakeStore(s, step), j)
  {
  }

  lemma {:induction false} TerminalBySwap(s: Sys, m: Message, j: JobId)
    requires MailOk(s) && m in s.mail && Terminal(s, j)
    ensures SameRecord(s, CompareAndSet(s, m), j)
  {
    assert if m.next == Running then m.expected == Leased else m.expected == Running && m.next in {Succeeded, Failed};
    hide Bump, MailOk;
  }

  lemma {:induction false} TerminalByNetwork(s: Sys, step: NetworkStep, j: JobId)
    requires MailOk(s) && NetworkEnabled(s, step) && Terminal(s, j)
    ensures SameRecord(s, TakeNetwork(s, step), j)
  {
    match step
    case Claim(_, _) => hide MailOk;
    case Deliver(m, _) =>
      TerminalBySwap(s, m, j);
      hide MailOk, CompareAndSet, Awaits, Swaps, Terminal;
    case Lose(_) => hide MailOk;
  }

  /** The store never leaves a terminal status, whatever arrives late. */
  lemma {:induction false} TerminalStays(s: Sys, step: Step, j: JobId)
    requires MailOk(s) && Enabled(s, step) && Terminal(s, j)
    ensures SameRecord(s, Take(s, step), j)
  {
    hide MailOk, TakeStore, TakeNetwork, TakeRoot, TakeWorker, StoreEnabled, NetworkEnabled, RootEnabled, WorkerEnabled;
    match step
    case ByStore(st) => TerminalByStore(s, st, j);
    case ByNetwork(n) => TerminalByNetwork(s, n, j);
    case ByWorker(w) => WorkerKeeps(s, w);
    case ByRoot(r) => StoreByRoot(s, r);
  }

  /** In every run the record of a job that has reached a terminal status is final. */
  lemma {:induction false} TerminalForever(steps: seq<Step>, k: nat, j: JobId)
    requires Playable(steps) && k <= |steps| && Playable(steps[..k])
    requires Terminal(Play(steps[..k]), j)
    ensures SameRecord(Play(steps[..k]), Play(steps), j)
    decreases |steps|
  {
    if k == |steps| {
      assert steps[..k] == steps;
    } else {
      var before, step := steps[..|steps| - 1], steps[|steps| - 1];
      assert before[..k] == steps[..k];
      TerminalForever(before, k, j);
      CountsAlways(before, j);
      TerminalStays(Play(before), step, j);
    }
  }

  /** In every run whatever the executor has performed was asked for: the request had been published by then. */
  lemma {:induction false} PerformedMeansAsked(steps: seq<Step>, p: Performance)
    requires Playable(steps) && p in Play(steps).performed
    ensures var s := Play(steps);
            && p.job in s.store && s.store[p.job].action == p.action
            && Count(s.published, p.job) == 1
            && Performable(p.action, p.trace, p.report)
  {
    HistoryAlways(steps);
    CountsAlways(steps, p.job);
    hide Playable, Play, WorkerKnown, RequestsAsked, RootAsked, ResultsAsked, ReportsOk, MailTruthful, JobsTruthful,
         MailOk, ExecuteOk, Performable;
  }

  /** The trace and report of an action that finds what it is for. */
  function AtOnce(a: Action): (seq<Event>, Report) {
    var stopped, healthy := Inspected("exited", "none"), Inspected("running", "healthy");
    (if a.StopBackend? then [stopped] else if a.StartBackend? then [healthy] else [stopped, healthy],
     Report(true, ExpectedPhase(a), None))
  }

  lemma {:induction false} AtOncePerformable(a: Action)
    ensures Performable(a, AtOnce(a).0, AtOnce(a).1)
  {
    var (trace, report) := AtOnce(a);
    var stopped, passed := Outcome(true, "stopped"), Outcome(true, "health_gate_passed");
    match a
    case StartBackend => assert StartMeans(trace, passed) && report == ReportOf(passed, "health_gate_passed");
    case StopBackend => assert StopMeans(trace, stopped) && report == ReportOf(stopped, "stopped");
    case RestartBackend => assert RestartMeans(trace, 1, passed) && report == ReportOf(passed, "health_gate_passed");
  }

  /** The executor carries the action out and writes its report. */
  lemma {:induction false} Carried(a: Action) returns (steps: seq<Step>)
    ensures Playable(steps)
    ensures var s := Play(steps);
            && s.worker == Waiting(0, a) && s.store == map[0 := Job(a, Running, None)] && s.mail == {}
            && 0 in s.results && s.results[0] == ResultFile(0, a, AtOnce(a).1) && s.root == Unlinking(0)
            && Count(s.begun, 0) == 1 && Count(s.crashes, 0) == 0
  {
    steps := FirstExecution(a);
    var finish := ByRoot(Finish(AtOnce(a).0, AtOnce(a).1));
    AtOncePerformable(a);
    Extend(steps, finish);
    steps := steps + [finish];
    Extend(steps, ByRoot(WriteReport));
    steps := steps + [ByRoot(WriteReport)];
  }

  /** The worker reads the report and asks for success. */
  lemma {:induction false} Judged(a: Action) returns (steps: seq<Step>, id: nat)
    ensures Playable(steps)
    ensures var s := Play(steps);
            && s.worker == Finishing(0, a, id, None) && s.mail == {Message(id, 0, Running, Succeeded, None)}
            && s.store == map[0 := Job(a, Running, None)] && s.root == Unlinking(0)
            && Count(s.begun, 0) == 1 && Count(s.crashes, 0) == 0
  {
    hide Playable, Play, Count, Bump, Holds;
    steps := Carried(a);
    id := Play(steps).nextId;
    Extend(steps, ByWorker(ReadResult));
    steps := steps + [ByWorker(ReadResult)];
  }

  /** The store grants a success it has been asked for, and the worker hears of it. */
  lemma {:induction false} GrantStep(s: Sys, a: Action, id: nat)
    requires s.store == map[0 := Job(a, Running, None)] && s.mail == {Message(id, 0, Running, Succeeded, None)}
    requires s.worker == Finishing(0, a, id, None)
    ensures var t := TakeNetwork(s, Deliver(Message(id, 0, Running, Succeeded, None), true));
            t == s.(store := map[0 := Job(a, Succeeded, None)], mail := {}, worker := Finishing(0, a, id, Some(true)))
  {
    var m := Message(id, 0, Running, Succeeded, None);
    assert CompareAndSet(s, m) == s.(store := map[0 := Job(a, Succeeded, None)]);
    assert s.mail - {m} == {};
    hide CompareAndSet, Bump;
  }

  /** The store grants it. */
  lemma {:induction false} Granted(a: Action) returns (steps: seq<Step>)
    ensures Playable(steps)
    ensures var s := Play(steps);
            && s.store == map[0 := Job(a, Succeeded, None)] && s.mail == {} && s.root == Unlinking(0)
            && s.worker.Finishing? && s.worker.job == 0 && s.worker.reply == Some(true)
            && Count(s.begun, 0) == 1 && Count(s.crashes, 0) == 0
  {
    hide Playable, Play, Count, Bump, Holds;
    var id: nat;
    steps, id := Judged(a);
    var grant := Deliver(Message(id, 0, Running, Succeeded, None), true);
    GrantStep(Play(steps), a, id);
    Extend(steps, ByNetwork(grant));
    hide TakeNetwork;
    steps := steps + [ByNetwork(grant)];
  }

  /** For every action some run ends with the job recorded as succeeded, nothing left to do and no request behind. */
  lemma {:induction false} SuccessReachable(a: Action) returns (steps: seq<Step>)
    ensures Playable(steps)
    ensures var s := Play(steps);
            && s.store == map[0 := Job(a, Succeeded, None)] && s.worker.Idle? && s.root.Resting?
            && s.mail == {} && 0 !in s.requests && Count(s.begun, 0) == 1 && Count(s.crashes, 0) == 0
  {
    hide Playable, Play, Count, Bump, Holds;
    steps := Granted(a);
    Extend(steps, ByWorker(TakeReply));
    steps := steps + [ByWorker(TakeReply)];
    assert Play(steps).worker == Idle && Play(steps).root == Unlinking(0);
    Extend(steps, ByRoot(Unlink));
    steps := steps + [ByRoot(Unlink)];
  }
}
