/**
 What the worker (apps/agent/cmd/ivrm-operation-worker/main.go), the executor
 (deploy/oci/ivrm-mc-main-lifecycle.py) and the job store do next, from where they
 are; and that neither of the two programs ever gets stuck.
 */
module JobFlow {
  import opened Wrappers
  import opened LifecycleReports
  import opened JobProtocol
  import opened JobOutcomes
  import opened JobReasons

  // ---- The worker

  /** The worker only holds jobs it may start or resume. */
  predicate ClaimOk(s: Sys) { s.worker.Claimed? ==> s.worker.status in {Leased, Running} }

  lemma {:induction false} ClaimByStep(s: Sys, step: Step)
    requires ClaimOk(s) && Enabled(s, step)
    ensures ClaimOk(Take(s, step))
  {
    hide TakeStore, TakeNetwork, TakeWorker, TakeRoot, StoreEnabled, NetworkEnabled, WorkerEnabled, RootEnabled;
    match step
    case ByStore(st) => WorkerByStore(s, st);
    case ByNetwork(n) => ClaimByNetwork(s, n);
    case ByWorker(w) => ClaimByWorker(s, w);
    case ByRoot(r) => WorkerByRoot(s, r);
  }

  lemma {:induction false} WorkerByStore(s: Sys, step: StoreStep)
    requires StoreEnabled(s, step)
    ensures TakeStore(s, step).worker == s.worker
  {
  }

  lemma {:induction false} ClaimByNetwork(s: Sys, n: NetworkStep)
    requires ClaimOk(s) && NetworkEnabled(s, n)
    ensures ClaimOk(TakeNetwork(s, n))
  {
    hide CompareAndSet, Swaps, Awaits;
    if n.Deliver? { SwapKeeps(s, n.m); }
  }

  lemma {:induction false} ClaimByWorker(s: Sys, w: WorkerStep)
    requires WorkerEnabled(s.worker, s.results, w)
    ensures ClaimOk(s) ==> ClaimOk(TakeWorker(s, w))
  {
    hide Decide, WorkerEnabled, TouchRequests, Request;
    DecideFacts(s.worker, s.requests, s.results, w);
    TouchKeeps(s, w);
  }

  lemma {:induction false} WorkerByRoot(s: Sys, r: RootStep)
    requires RootEnabled(s.root, s.requests, r)
    ensures TakeRoot(s, r).worker == s.worker
  {
    hide Performable, Bump, Holds;
  }

  lemma {:induction false} ClaimAlways(steps: seq<Step>)
    requires Playable(steps)
    ensures ClaimOk(Play(steps))
    decreases |steps|
  {
    if steps != [] {
      var before, step := steps[..|steps| - 1], steps[|steps| - 1];
      ClaimAlways(before);
      ClaimByStep(Play(before), step);
    }
  }

  /** The worker asks for the failure of its job and waits for the answer. */
  function Failing(s: Sys, code: string): Sys
    requires !s.worker.Idle?
  {
    s.(worker := Finishing(s.worker.job, s.worker.action, s.nextId, None), nextId := s.nextId + 1,
       mail := s.mail + {Message(s.nextId, s.worker.job, Running, Failed, Some(code))})
  }

  /**
   What the worker does next unless it stops: a leased job it asks to run; a running one it waits for if a request or
   result is there, and fails otherwise; once permitted it publishes if nothing is left over; and after an outcome the
   store has accepted it takes the request away.
   */
  predicate WorkerGoesOn(s: Sys, w: WorkerStep, t: Sys)
    requires !s.worker.Idle?
  {
    var j, a, id := s.worker.job, s.worker.action, s.nextId;
    match s.worker
    case Claimed(_, _, Leased) =>
      t == s.(worker := AwaitRunning(j, a, id, None), nextId := id + 1,
              mail := s.mail + {Message(id, j, Leased, Running, None)})
    case Claimed(_, _, _) =>
      t == if j in s.requests || j in s.results then s.(worker := Waiting(j, a))
           else Failing(s, "recovery_state_missing")
    case AwaitRunning(_, _, _, reply) => t == s.(worker := if reply == Some(true) then Publishing(j, a) else Idle)
    case Publishing(_, _) =>
      t == if j in s.requests || j in s.results then Failing(s, "executor_timeout") else s.(worker := Linking(j, a))
    case Linking(_, _) =>
      if w.Link? && j !in s.requests then
        t == s.(worker := Waiting(j, a), requests := s.requests[j := a],
                published := s.published[j := Count(s.published, j) + 1])
      else t == Failing(s, "executor_timeout")
    case Waiting(_, _) =>
      if w.ReadResult? then t.worker == Finishing(j, a, id, None) && t.requests == s.requests
      else t == Failing(s, "executor_timeout").(requests := if w.TimeOut? then s.requests - {j} else s.requests)
    case Finishing(_, _, _, reply) =>
      t == s.(worker := Idle, requests := if reply == Some(true) then s.requests - {j} else s.requests)
  }

  lemma {:induction false} StepGoesOn(s: Sys, w: WorkerStep)
    requires WorkerEnabled(s.worker, s.results, w) && w != WorkerStops && ClaimOk(s)
    ensures !s.worker.Idle? && WorkerGoesOn(s, w, TakeWorker(s, w))
  {
    hide *;
    BusyWhenEnabled(s.worker, s.results, w);
    if s.worker.Waiting? { WaitingGoesOn(s, w); }
    else if s.worker.Linking? || s.worker.Publishing? { PublishingGoesOn(s, w); }
    else { OtherGoesOn(s, w); }
  }

  lemma {:induction false} BusyWhenEnabled(w: Worker, results: map<JobId, ResultFile>, step: WorkerStep)
    requires WorkerEnabled(w, results, step) && step != WorkerStops
    ensures !w.Idle?
  {
  }

  lemma {:induction false} WaitingGoesOn(s: Sys, w: WorkerStep)
    requires WorkerEnabled(s.worker, s.results, w) && w != WorkerStops && s.worker.Waiting?
    ensures WorkerGoesOn(s, w, TakeWorker(s, w))
  {
    hide Judge;
    if w.ReadResult? { JudgeAsks(s.worker.action, s.results[s.worker.job].report); }
  }

  lemma {:induction false} PublishingGoesOn(s: Sys, w: WorkerStep)
    requires WorkerEnabled(s.worker, s.results, w) && w != WorkerStops && (s.worker.Linking? || s.worker.Publishing?)
    ensures WorkerGoesOn(s, w, TakeWorker(s, w))
  {
    hide Judge;
  }

  lemma {:induction false} OtherGoesOn(s: Sys, w: WorkerStep)
    requires WorkerEnabled(s.worker, s.results, w) && w != WorkerStops && ClaimOk(s)
    requires s.worker.Claimed? || s.worker.AwaitRunning? || s.worker.Finishing?
    ensures WorkerGoesOn(s, w, TakeWorker(s, w))
  {
    hide Judge;
  }

  lemma {:induction false} JudgeAsks(action: Action, report: Report)
    ensures Judge(action, report).Ask? && Judge(action, report).next in {Succeeded, Failed}
  {
  }

  lemma {:induction false} WorkerFlow(steps: seq<Step>, w: WorkerStep)
    requires Playable(steps + [ByWorker(w)]) && w != WorkerStops
    ensures !Play(steps).worker.Idle? && WorkerGoesOn(Play(steps), w, Play(steps + [ByWorker(w)]))
  {
    hide Play, Playable, WorkerGoesOn, TakeWorker, WorkerEnabled;
    var s := Before(steps, ByWorker(w));
    ClaimAlways(steps);
    StepGoesOn(s, w);
  }

  /** In every reachable state a worker that holds a job can go on. */
  lemma {:induction false} WorkerNeverStuck(steps: seq<Step>) returns (w: WorkerStep)
    requires Playable(steps) && !Play(steps).worker.Idle?
    ensures w != WorkerStops && Playable(steps + [ByWorker(w)])
  {
    ClaimAlways(steps);
    w := match Play(steps).worker
      case Claimed(_, _, status) => if status == Leased then SendRunning else Resume
      case AwaitRunning(_, _, _, reply) => if reply == Some(true) then TakeReply else GiveUp
      case Publishing(_, _) => CheckResidue
      case Linking(_, _) => Link
      case Waiting(_, _) => TimeOut
      case Finishing(_, _, _, reply) => if reply == Some(true) then TakeReply else GiveUp;
    Extend(steps, ByWorker(w));
  }

  /** One to 120 small letters, digits, dots, underscores, colons and hyphens. */
  predicate WellFormedCode(code: string) {
    1 <= |code| <= 120 && forall c | c in code :: 'a' <= c <= 'z' || '0' <= c <= '9' || c in {'.', '_', ':', '-'}
  }

  lemma {:induction false} CodeMatches(code: string)
    ensures WellFormedCode(code) <==> MatchesErrorCode(code)
  {
    if MatchesErrorCode(code) {
      forall c | c in code ensures SafeChar(c) {}
    }
    if WellFormedCode(code) {
      forall i | 0 <= i < |code| ensures SafeChar(code[i]) { assert code[i] in code; }
    }
  }

  /** What the worker asks for on reading a result file, whatever is in it. */
  function Verdict(w: Worker, f: ResultFile): (Status, Option<string>)
    requires w.Waiting?
  {
    if f.job != w.job || f.action != w.action then (Failed, Some("executor_timeout"))
    else if !f.report.ok then
      (Failed, if f.report.errorCode.Some? && WellFormedCode(f.report.errorCode.value) then f.report.errorCode
               else Some("executor_failed"))
    else if f.report.phase != (if w.action.StopBackend? then "stopped" else "health_gate_passed") then
      (Failed, Some("executor_result_invalid"))
    else (Succeeded, None)
  }

  lemma {:induction false} AnyResult(s: Sys)
    requires s.worker.Waiting? && s.worker.job in s.results
    ensures var (next, code) := Verdict(s.worker, s.results[s.worker.job]);
            TakeWorker(s, ReadResult).mail == s.mail + {Message(s.nextId, s.worker.job, Running, next, code)}
  {
    var report := s.results[s.worker.job].report;
    if report.errorCode.Some? { CodeMatches(report.errorCode.value); }
    hide MatchesErrorCode, WellFormedCode;
    MailAfter(s, ReadResult);
    hide TakeWorker;
  }

  // ---- The executor

  const CRASHED := Report(false, "execution_failed", Some("executor_internal_error"))

  /** What the executor does next unless it crashes or cleans old results up. */
  ghost predicate RootGoesOn(s: Sys, t: Sys) {
    match s.root
    case Resting =>
      exists j | j in s.requests ::
        t == s.(root := Accepted(j, s.requests[j])) || t == s.(requests := s.requests - {j})
    case Accepted(j, a) => t == s.(root := Acting(j, a), begun := s.begun[j := Count(s.begun, j) + 1])
    case Acting(j, a) =>
      || t == s.(root := Reporting(j, a, CRASHED))
      || exists p :: Performed(s, t, j, a, p)
    case Reporting(j, a, report) =>
      || t == s.(root := Unlinking(j), results := s.results[j := ResultFile(j, a, report)])
      || t == s.(root := Reporting(j, a, CRASHED))
      || t == s.(root := Unlinking(j))
    case Unlinking(j) => t == s.(root := Resting, requests := s.requests - {j})
  }

  ghost predicate Performed(s: Sys, t: Sys, j: JobId, a: Action, p: Performance) {
    && p.job == j && p.action == a && Performable(a, p.trace, p.report)
    && t == s.(root := Reporting(j, a, p.report), performed := s.performed + {p})
  }

  lemma {:induction false} RootFlow(steps: seq<Step>, r: RootStep)
    requires Playable(steps + [ByRoot(r)]) && !r.RootCrashes? && !r.CleanResult?
    ensures RootGoesOn(Play(steps), Play(steps + [ByRoot(r)]))
  {
    hide Play, Playable, Performable;
    var s := Before(steps, ByRoot(r));
    if r.Finish? {
      assert Performed(s, TakeRoot(s, r), s.root.job, s.root.action,
                       Performance(s.root.job, s.root.action, r.trace, r.report));
    }
  }

  /** In every reachable state an executor that has a request, or work in hand, can go on. */
  lemma {:induction false} RootNeverStuck(steps: seq<Step>, j: JobId) returns (r: RootStep)
    requires Playable(steps) && (Play(steps).root.Resting? ==> j in Play(steps).requests)
    ensures !r.RootCrashes? && !r.CleanResult? && Playable(steps + [ByRoot(r)])
  {
    var s := Play(steps);
    match s.root
    case Resting => r := Accept(j);
    case Accepted(_, _) => r := Begin;
    case Acting(_, _) => r := Raise;
    case Reporting(_, _, _) => r := WriteReport;
    case Unlinking(_) => r := Unlink;
    hide Performable;
    Extend(steps, ByRoot(r));
  }

  // ---- The store

  /** The changes of status the store may make on its own or in answer to a claim. */
  const FREE_CHANGES := {
    (Queued, Leased), (Queued, Cancelled), (Leased, Queued), (Queued, Expired), (Leased, Expired), (Running, Expired)}

  ghost predicate MayBecome(s: Sys, j: JobId, next: Status) {
    exists step :: Enabled(s, step) && j in Take(s, step).store && Take(s, step).store[j].status == next
  }

  lemma {:induction false} FreeChange(s: Sys, j: JobId, next: Status) returns (step: Step)
    requires j in s.store && (s.store[j].status, next) in FREE_CHANGES
    ensures Enabled(s, step) && j in Take(s, step).store && Take(s, step).store[j].status == next
  {
    step := match next
      case Leased => ByNetwork(Claim(j, false))
      case Cancelled => ByStore(Cancel(j))
      case Queued => ByStore(Requeue(j))
      case _ => ByStore(Expire(j));
  }

  lemma {:induction false} AskedChange(s: Sys, m: Message) returns (step: Step)
    requires m in s.mail && m.job in s.store && s.store[m.job].status == m.expected
    ensures Enabled(s, step) && m.job in Take(s, step).store && Take(s, step).store[m.job].status == m.next
  {
    step := ByNetwork(Deliver(m, false));
  }

  /** The job keeps its status, changes it freely, or as a request in the mail asks. */
  ghost predicate Moves(s: Sys, t: Sys, j: JobId) {
    && j in s.store && j in t.store
    && (|| t.store[j].status == s.store[j].status
        || (s.store[j].status, t.store[j].status) in FREE_CHANGES
        || exists m | m in s.mail :: m.job == j && m.expected == s.store[j].status && m.next == t.store[j].status)
  }

  lemma {:induction false} MovesByStore(s: Sys, step: StoreStep, j: JobId)
    requires StoreEnabled(s, step) && j in s.store
    ensures Moves(s, TakeStore(s, step), j)
  {
  }

  lemma {:induction false} MovesByClaim(s: Sys, step: NetworkStep, j: JobId)
    requires NetworkEnabled(s, step) && step.Claim? && j in s.store
    ensures Moves(s, TakeNetwork(s, step), j)
  {
  }

  lemma {:induction false} MovesBySwap(s: Sys, m: Message, j: JobId)
    requires m in s.mail && j in s.store
    ensures Moves(s, CompareAndSet(s, m), j)
  {
    hide Bump;
  }

  lemma {:induction false} SameMoves(s: Sys, t: Sys, u: Sys, j: JobId)
    requires j in s.store && t.store == u.store && (Moves(s, t, j) || t.store == s.store)
    ensures Moves(s, u, j)
  {
  }

  lemma {:induction false} MovesByNetwork(s: Sys, step: NetworkStep, j: JobId)
    requires NetworkEnabled(s, step) && j in s.store
    ensures Moves(s, TakeNetwork(s, step), j)
  {
    hide CompareAndSet, Awaits, Swaps, Moves;
    match step
    case Claim(_, _) => MovesByClaim(s, step, j);
    case Deliver(m, _) =>
      MovesBySwap(s, m, j);
      SameMoves(s, CompareAndSet(s, m), TakeNetwork(s, step), j);
    case Lose(_) => SameMoves(s, s, TakeNetwork(s, step), j);
  }

  /**
   One step changes the status of a job exactly along the edges of this diagram: freely from queued to leased,
   cancelled or expired, from leased back to queued or to expired, and from running to expired; and otherwise as a
   request in the mail asks, from the status it expects.
   */
  lemma {:induction false} StatusChanges(s: Sys, j: JobId, next: Status)
    requires j in s.store && next != s.store[j].status
    ensures MayBecome(s, j, next) <==>
            || (s.store[j].status, next) in FREE_CHANGES
            || exists m | m in s.mail :: m.job == j && m.expected == s.store[j].status && m.next == next
  {
    hide Enabled, Take;
    if MayBecome(s, j, next) {
      var step :| Enabled(s, step) && j in Take(s, step).store && Take(s, step).store[j].status == next;
      MovesByStep(s, step, j);
    }
    if (s.store[j].status, next) in FREE_CHANGES {
      var step := FreeChange(s, j, next);
    }
    if m :| m in s.mail && m.job == j && m.expected == s.store[j].status && m.next == next {
      var step := AskedChange(s, m);
    }
  }

  lemma {:induction false} MovesByStep(s: Sys, step: Step, j: JobId)
    requires Enabled(s, step) && j in s.store
    ensures Moves(s, Take(s, step), j)
  {
    hide TakeStore, TakeNetwork, TakeWorker, TakeRoot, StoreEnabled, NetworkEnabled, WorkerEnabled, RootEnabled, Moves;
    match step
    case ByStore(st) => MovesByStore(s, st, j);
    case ByNetwork(n) => MovesByNetwork(s, n, j);
    case ByWorker(w) =>
      WorkerKeeps(s, w);
      SameMoves(s, s, Take(s, step), j);
    case ByRoot(r) =>
      StoreByRoot(s, r);
      SameMoves(s, s, Take(s, step), j);
  }

  /**
   A claim of an idle worker gets exactly queued, leased and running jobs; all but the running ones it gets as leased.
   The answer may get lost, and the job is leased all the same.
   */
  lemma {:induction false} ClaimMeaning(s: Sys, j: JobId, status: Status)
    requires s.worker.Idle? && j in s.store
    ensures (exists step :: Enabled(s, step) && Take(s, step).worker == Claimed(j, s.store[j].action, status)) <==>
            || (s.store[j].status in {Queued, Leased} && status == Leased)
            || (s.store[j].status == Running && status == Running)
    ensures s.store[j].status == Queued ==>
              exists step ::
                Enabled(s, step) && Take(s, step) == s.(store := s.store[j := s.store[j].(status := Leased)])
  {
    hide Take, Enabled;
    ClaimTaken(s, j);
    forall step | Enabled(s, step) && Take(s, step).worker == Claimed(j, s.store[j].action, status)
      ensures step == ByNetwork(Claim(j, true))
    {
      OnlyClaims(s, step);
    }
  }

  lemma {:induction false} ClaimTaken(s: Sys, j: JobId)
    requires s.worker.Idle? && j in s.store
    ensures Enabled(s, ByNetwork(Claim(j, true))) <==> s.store[j].status in {Queued, Leased, Running}
    ensures Enabled(s, ByNetwork(Claim(j, true))) ==>
              Take(s, ByNetwork(Claim(j, true))).worker ==
              Claimed(j, s.store[j].action, if s.store[j].status == Running then Running else Leased)
    ensures s.store[j].status == Queued ==>
              Enabled(s, ByNetwork(Claim(j, false))) &&
              Take(s, ByNetwork(Claim(j, false))) == s.(store := s.store[j := s.store[j].(status := Leased)])
  {
  }

  /** Only a claim that is answered gives an idle worker a job. */
  lemma {:induction false} OnlyClaims(s: Sys, step: Step)
    requires s.worker.Idle? && Enabled(s, step) && Take(s, step).worker.Claimed?
    ensures step.ByNetwork? && step.n.Claim? && step.n.delivered && step.n.job == Take(s, step).worker.job
  {
    hide TakeStore, TakeNetwork, TakeWorker, TakeRoot, StoreEnabled, NetworkEnabled, WorkerEnabled, RootEnabled;
    match step
    case ByStore(st) => WorkerByStore(s, st);
    case ByNetwork(n) => OnlyAnsweredClaims(s, n);
    case ByWorker(w) => StaysIdle(s, w);
    case ByRoot(r) => WorkerByRoot(s, r);
  }

  lemma {:induction false} OnlyAnsweredClaims(s: Sys, n: NetworkStep)
    requires s.worker.Idle? && NetworkEnabled(s, n)
    ensures TakeNetwork(s, n).worker.Claimed? ==>
              n.Claim? && n.delivered && n.job == TakeNetwork(s, n).worker.job
  {
    hide CompareAndSet, Swaps;
    if n.Deliver? { SwapKeeps(s, n.m); }
  }

  lemma {:induction false} StaysIdle(s: Sys, w: WorkerStep)
    requires s.worker.Idle? && WorkerEnabled(s.worker, s.results, w)
    ensures TakeWorker(s, w).worker.Idle?
  {
  }

  /** While the executor rests an old result may be cleaned up, with nothing else changed. */
  lemma {:induction false} ResultMayGo(s: Sys, j: JobId)
    requires s.root.Resting?
    ensures exists step :: Enabled(s, step) && Take(s, step) == s.(results := s.results - {j})
  {
    assert Enabled(s, ByRoot(CleanResult(j)));
    assert Take(s, ByRoot(CleanResult(j))) == s.(results := s.results - {j});
  }

  /** Any request in the mail may get lost, with nothing else changed. */
  lemma {:induction false} MailMayBeLost(s: Sys, m: Message)
    requires m in s.mail
    ensures exists step :: Enabled(s, step) && Take(s, step) == s.(mail := s.mail - {m})
  {
    assert Enabled(s, ByNetwork(Lose(m)));
    assert Take(s, ByNetwork(Lose(m))) == s.(mail := s.mail - {m});
  }

  /** Whatever the worker waits for, it hears the answer to it, if the answer arrives at all. */
  lemma {:induction false} AnswerHeard(s: Sys, m: Message)
    requires m in s.mail && (s.worker.AwaitRunning? || s.worker.Finishing?)
    requires s.worker.id == m.id && s.worker.reply.None?
    ensures var accepted := m.job in s.store && s.store[m.job].status == m.expected;
            && TakeNetwork(s, Deliver(m, true)).worker == s.worker.(reply := Some(accepted))
            && TakeNetwork(s, Deliver(m, false)).worker == s.worker
  {
    SwapKeeps(s, m);
    hide CompareAndSet;
  }
}
