/**
 The operation-job protocol: a worker (apps/agent/cmd/ivrm-operation-worker/main.go),
 a job store that only compares and sets
 (supabase/migrations/202609010001_mc_main_lifecycle_bridge.sql and
 202609010002_mc_main_transition_bridge.sql) and a root executor
 (deploy/oci/ivrm-mc-main-lifecycle.py) that meet in exclusive files. Either side
 may crash between any two steps, and any request or reply may be lost or late.
 */
module JobProtocol {
  import opened Wrappers
  import opened LifecycleReports

  type JobId = int

  datatype Status = Queued | Leased | Running | Succeeded | Failed | Expired | Cancelled

  datatype Job = Job(action: Action, status: Status, errorCode: Option<string>)

  /** A transition request on its way to the store; `code` is the error code of a failure. */
  datatype Message = Message(id: nat, job: JobId, expected: Status, next: Status, code: Option<string>)

  datatype ResultFile = ResultFile(job: JobId, action: Action, report: Report)

  /** An action the executor carried through, with all it observed. */
  datatype Performance = Performance(job: JobId, action: Action, trace: seq<Event>, report: Report)

  datatype Worker =
    | Idle
    | Claimed(job: JobId, action: Action, status: Status)
    | AwaitRunning(job: JobId, action: Action, id: nat, reply: Option<bool>)
    | Publishing(job: JobId, action: Action)
    | Linking(job: JobId, action: Action)
    | Waiting(job: JobId, action: Action)
    | Finishing(job: JobId, action: Action, id: nat, reply: Option<bool>)

  datatype Root =
    | Resting
    | Accepted(job: JobId, action: Action)
    | Acting(job: JobId, action: Action)
    | Reporting(job: JobId, action: Action, report: Report)
    | Unlinking(job: JobId)

  /** The whole system; the last five fields only record what has happened. */
  datatype Sys = Sys(
    store: map<JobId, Job>, worker: Worker, nextId: nat, mail: set<Message>,
    requests: map<JobId, Action>, results: map<JobId, ResultFile>, root: Root,
    started: map<JobId, nat>, published: map<JobId, nat>, begun: map<JobId, nat>, crashes: map<JobId, nat>,
    performed: set<Performance>)

  const INITIAL := Sys(map[], Idle, 0, {}, map[], map[], Resting, map[], map[], map[], map[], {})

  function Count(m: map<JobId, nat>, j: JobId): nat { if j in m then m[j] else 0 }

  function Bump(m: map<JobId, nat>, j: JobId): map<JobId, nat> { m[j := Count(m, j) + 1] }

  predicate SafeChar(c: char) { 'a' <= c <= 'z' || '0' <= c <= '9' || c in {'.', '_', ':', '-'} }

  predicate MatchesErrorCode(code: string) { 1 <= |code| <= 120 && forall i | 0 <= i < |code| :: SafeChar(code[i]) }

  const INTERNAL_ERROR := Report(false, "execution_failed", Some("executor_internal_error"))

  // ---- Steps

  /** The store on its own: new jobs, cancellation, lapsed leases. */
  datatype StoreStep =
    | Enqueue(job: JobId, action: Action) | Cancel(job: JobId) | Expire(job: JobId) | Requeue(job: JobId)

  /** The store served a request; the answer may not reach the worker, or the request may be lost. */
  datatype NetworkStep = Claim(job: JobId, delivered: bool) | Deliver(m: Message, delivered: bool) | Lose(m: Message)

  datatype WorkerStep =
    | SendRunning | Resume | TakeReply | GiveUp | CheckResidue | Link | PublishFails
    | ReadResult | ReadFails | TimeOut | WorkerStops

  datatype RootStep =
    | Accept(job: JobId) | Reject(job: JobId) | Begin | Finish(trace: seq<Event>, report: Report) | Raise
    | WriteReport | WriteRaises | WriteAbandoned | Unlink | RootCrashes | CleanResult(job: JobId)

  datatype Step = ByStore(st: StoreStep) | ByNetwork(n: NetworkStep) | ByWorker(w: WorkerStep) | ByRoot(r: RootStep)

  predicate StoreEnabled(s: Sys, step: StoreStep) {
    match step
    case Enqueue(j, _) => j !in s.store
    case Cancel(j) => j in s.store && s.store[j].status == Queued
    case Expire(j) => j in s.store && s.store[j].status in {Queued, Leased, Running}
    case Requeue(j) => j in s.store && s.store[j].status == Leased
  }

  predicate NetworkEnabled(s: Sys, step: NetworkStep) {
    match step
    case Claim(j, delivered) =>
      j in s.store && s.store[j].status in {Queued, Leased, Running} && (delivered ==> s.worker.Idle?)
    case Deliver(m, _) => m in s.mail
    case Lose(m) => m in s.mail
  }

  predicate WorkerEnabled(w: Worker, results: map<JobId, ResultFile>, step: WorkerStep) {
    match step
    case SendRunning => w.Claimed? && w.status == Leased
    case Resume => w.Claimed? && w.status == Running
    case TakeReply => (w.AwaitRunning? || w.Finishing?) && w.reply == Some(true)
    case GiveUp => (w.AwaitRunning? || w.Finishing?) && w.reply != Some(true)
    case CheckResidue => w.Publishing?
    case Link => w.Linking?
    case PublishFails => w.Linking?
    case ReadResult => w.Waiting? && w.job in results
    case ReadFails => w.Waiting?
    case TimeOut => w.Waiting?
    case WorkerStops => true
  }

  ghost predicate RootEnabled(r: Root, requests: map<JobId, Action>, step: RootStep) {
    match step
    case Accept(j) => r.Resting? && j in requests
    case Reject(j) => r.Resting? && j in requests
    case Begin => r.Accepted?
    case Finish(trace, report) => r.Acting? && Performable(r.action, trace, report)
    case Raise => r.Acting?
    case WriteReport => r.Reporting?
    case WriteRaises => r.Reporting?
    case WriteAbandoned => r.Reporting?
    case Unlink => r.Unlinking?
    case RootCrashes => true
    case CleanResult(j) => r.Resting?
  }

  ghost predicate Enabled(s: Sys, step: Step) {
    match step
    case ByStore(st) => StoreEnabled(s, st)
    case ByNetwork(n) => NetworkEnabled(s, n)
    case ByWorker(w) => WorkerEnabled(s.worker, s.results, w)
    case ByRoot(r) => RootEnabled(s.root, s.requests, r)
  }

  /** What a worker step leads to: another local state, or a transition request to wait for. */
  datatype Decision = Become(w: Worker) | Ask(next: Status, code: Option<string>)

  function Fail(code: string): Decision { Ask(Failed, Some(code)) }

  /** The worker acts on a result that names its job and action. */
  function Judge(action: Action, report: Report): Decision {
    if !report.ok then
      Fail(if report.errorCode.Some? && MatchesErrorCode(report.errorCode.value) then report.errorCode.value
           else "executor_failed")
    else if report.phase != ExpectedPhase(action) then Fail("executor_result_invalid")
    else Ask(Succeeded, None)
  }

  function Decide(w: Worker, requests: map<JobId, Action>, results: map<JobId, ResultFile>, step: WorkerStep): Decision
    requires WorkerEnabled(w, results, step)
  {
    match step
    case SendRunning => Ask(Running, None)
    case Resume =>
      if w.job in requests || w.job in results then Become(Waiting(w.job, w.action)) else Fail("recovery_state_missing")
    case TakeReply => Become(if w.AwaitRunning? then Publishing(w.job, w.action) else Idle)
    case GiveUp => Become(Idle)
    case CheckResidue =>
      if w.job in requests || w.job in results then Fail("executor_timeout") else Become(Linking(w.job, w.action))
    case Link => if w.job in requests then Fail("executor_timeout") else Become(Waiting(w.job, w.action))
    case ReadResult =>
      if results[w.job].job == w.job && results[w.job].action == w.action then Judge(w.action, results[w.job].report)
      else Fail("executor_timeout")
    case PublishFails => Fail("executor_timeout")
    case ReadFails => Fail("executor_timeout")
    case TimeOut => Fail("executor_timeout")
    case WorkerStops => Become(Idle)
  }

  /** The exclusive link succeeds only where no request file is. */
  predicate Publishes(w: Worker, requests: map<JobId, Action>, step: WorkerStep) {
    step.Link? && w.Linking? && w.job !in requests
  }

  /** The worker removes the request when the wait times out and after an accepted terminal transition. */
  function RequestsAfter(w: Worker, requests: map<JobId, Action>, step: WorkerStep): map<JobId, Action> {
    if Publishes(w, requests, step) then requests[w.job := w.action]
    else if (step.TimeOut? && w.Waiting?) || (step.TakeReply? && w.Finishing?) then requests - {w.job}
    else requests
  }

  function SetStatus(s: Sys, j: JobId, status: Status): Sys
    requires j in s.store
  {
    s.(store := s.store[j := s.store[j].(status := status)])
  }

  /** The store compares the expected status and, if it still holds, sets the next. */
  predicate Swaps(s: Sys, m: Message) { m.job in s.store && s.store[m.job].status == m.expected }

  function CompareAndSet(s: Sys, m: Message): Sys {
    if Swaps(s, m) then
      s.(store := s.store[m.job := Job(s.store[m.job].action, m.next, m.code)],
         started := if m.next == Running then Bump(s.started, m.job) else s.started)
    else s
  }

  predicate Awaits(w: Worker, m: Message) { (w.AwaitRunning? || w.Finishing?) && w.id == m.id && w.reply.None? }

  function TakeStore(s: Sys, step: StoreStep): Sys
    requires StoreEnabled(s, step)
  {
    match step
    case Enqueue(j, a) => s.(store := s.store[j := Job(a, Queued, None)])
    case Cancel(j) => SetStatus(s, j, Cancelled)
    case Expire(j) => SetStatus(s, j, Expired)
    case Requeue(j) => SetStatus(s, j, Queued)
  }

  function TakeNetwork(s: Sys, step: NetworkStep): Sys
    requires NetworkEnabled(s, step)
  {
    match step
    case Claim(j, delivered) =>
      var t := if s.store[j].status == Queued then SetStatus(s, j, Leased) else s;
      if delivered then t.(worker := Claimed(j, t.store[j].action, t.store[j].status)) else t
    case Deliver(m, delivered) =>
      var t := CompareAndSet(s, m).(mail := s.mail - {m});
      if delivered && Awaits(s.worker, m) then t.(worker := s.worker.(reply := Some(Swaps(s, m)))) else t
    case Lose(m) => s.(mail := s.mail - {m})
  }

  /** The request file after a worker step, and how often one was published. */
  function TouchRequests(s: Sys, step: WorkerStep): Sys {
    s.(requests := RequestsAfter(s.worker, s.requests, step),
       published := if Publishes(s.worker, s.requests, step) then Bump(s.published, s.worker.job) else s.published)
  }

  /** The worker waits for the reply to transition request `id`. */
  function Awaiting(w: Worker, next: Status, id: nat): Worker
    requires !w.Idle?
  {
    if next == Running then AwaitRunning(w.job, w.action, id, None) else Finishing(w.job, w.action, id, None)
  }

  function Request(w: Worker, next: Status, id: nat, code: Option<string>): Message
    requires !w.Idle?
  {
    Message(id, w.job, if next == Running then Leased else Running, next, code)
  }

  function Send(s: Sys, next: Status, code: Option<string>): Sys
    requires !s.worker.Idle?
  {
    s.(worker := Awaiting(s.worker, next, s.nextId),
       nextId := s.nextId + 1,
       mail := s.mail + {Request(s.worker, next, s.nextId, code)})
  }

  function Respond(s: Sys, d: Decision): Sys {
    match d
    case Become(w) => s.(worker := w)
    case Ask(next, code) => if s.worker.Idle? then s else Send(s, next, code)
  }

  function TakeWorker(s: Sys, step: WorkerStep): Sys
    requires WorkerEnabled(s.worker, s.results, step)
  {
    Respond(TouchRequests(s, step), Decide(s.worker, s.requests, s.results, step))
  }

  function TakeRoot(s: Sys, step: RootStep): Sys
    requires RootEnabled(s.root, s.requests, step)
  {
    match step
    case Accept(j) => s.(root := Accepted(j, s.requests[j]))
    case Reject(j) => s.(requests := s.requests - {j})
    case Begin => s.(root := Acting(s.root.job, s.root.action), begun := Bump(s.begun, s.root.job))
    case Finish(trace, report) =>
      s.(root := Reporting(s.root.job, s.root.action, report),
         performed := s.performed + {Performance(s.root.job, s.root.action, trace, report)})
    case Raise => s.(root := Reporting(s.root.job, s.root.action, INTERNAL_ERROR))
    case WriteReport =>
      s.(root := Unlinking(s.root.job),
         results := s.results[s.root.job := ResultFile(s.root.job, s.root.action, s.root.report)])
    case WriteRaises => s.(root := s.root.(report := INTERNAL_ERROR))
    case WriteAbandoned => s.(root := Unlinking(s.root.job))
    case Unlink => s.(root := Resting, requests := s.requests - {s.root.job})
    case RootCrashes =>
      s.(root := Resting, crashes := if Holds(s.root) then Bump(s.crashes, s.root.job) else s.crashes)
    case CleanResult(j) => s.(results := s.results - {j})
  }

  function Take(s: Sys, step: Step): Sys
    requires Enabled(s, step)
  {
    match step
    case ByStore(st) => TakeStore(s, st)
    case ByNetwork(n) => TakeNetwork(s, n)
    case ByWorker(w) => TakeWorker(s, w)
    case ByRoot(r) => TakeRoot(s, r)
  }

  /** The executor has begun the action and not yet removed the request. */
  predicate Holds(r: Root) { r.Acting? || r.Reporting? || r.Unlinking? }

  // ---- Runs

  ghost predicate Playable(steps: seq<Step>)
    decreases |steps|, 0
  {
    steps == [] ||
    (Playable(steps[..|steps| - 1]) && Enabled(Play(steps[..|steps| - 1]), steps[|steps| - 1]))
  }

  /** The state a run reaches; the states on the way are those of its prefixes. */
  function Play(steps: seq<Step>): Sys
    requires Playable(steps)
    decreases |steps|, 1
  {
    if steps == [] then INITIAL else Take(Play(steps[..|steps| - 1]), steps[|steps| - 1])
  }

  // ---- At most one publication

  /** The worker holds an accepted leased-to-running transition it has not yet used. */
  predicate HasPermit(w: Worker, j: JobId) {
    && !w.Idle? && w.job == j
    && (w.Publishing? || w.Linking? || (w.AwaitRunning? && w.reply == Some(true)))
  }

  predicate Permitted(s: Sys, j: JobId) { HasPermit(s.worker, j) }

  predicate PublishOk(s: Sys, j: JobId) {
    && Count(s.started, j) <= 1
    && (Count(s.started, j) == 1 ==> j in s.store && s.store[j].status in {Running, Succeeded, Failed, Expired})
    && Count(s.published, j) + (if Permitted(s, j) then 1 else 0) <= Count(s.started, j)
  }

  /** What each party says about its request identifiers. */
  ghost predicate MailOk(s: Sys) {
    && (forall m | m in s.mail :: m.id < s.nextId)
    && (forall m | m in s.mail ::
          if m.next == Running then m.expected == Leased else m.expected == Running && m.next in {Succeeded, Failed})
    && (s.worker.AwaitRunning? || s.worker.Finishing? ==>
          s.worker.id < s.nextId &&
          forall m | m in s.mail && m.id == s.worker.id ::
            m.job == s.worker.job && (m.next == Running <==> s.worker.AwaitRunning?))
  }

  lemma {:induction false} SwapKeeps(s: Sys, m: Message)
    ensures var t := CompareAndSet(s, m); t == s.(store := t.store, started := t.started)
  {
    hide Bump, Swaps;
  }

  /** Mail that shrinks, and a worker that at most learns a reply, stay in order. */
  lemma {:induction false} MailShrunk(s: Sys, t: Sys)
    requires MailOk(s) && t.mail <= s.mail && t.nextId == s.nextId
    requires t.worker == s.worker || t.worker.Claimed? ||
             ((s.worker.AwaitRunning? || s.worker.Finishing?) && exists r :: t.worker == s.worker.(reply := r))
    ensures MailOk(t)
  {
  }

  lemma {:induction false} MailByNetwork(s: Sys, step: NetworkStep)
    requires MailOk(s) && NetworkEnabled(s, step)
    ensures MailOk(TakeNetwork(s, step))
  {
    hide MailOk;
    match step
    case Claim(_, _) => MailShrunk(s, TakeNetwork(s, step));
    case Deliver(m, _) =>
      SwapKeeps(s, m);
      hide CompareAndSet, Swaps;
      MailShrunk(s, TakeNetwork(s, step));
    case Lose(_) => MailShrunk(s, TakeNetwork(s, step));
  }

  /** A worker step changes no more than the worker, its mail, its identifiers and its request file. */
  predicate OnlyWorker(s: Sys, t: Sys) {
    t == s.(worker := t.worker, nextId := t.nextId, mail := t.mail, requests := t.requests, published := t.published)
  }

  lemma {:induction false} RespondKeeps(s: Sys, d: Decision)
    ensures var t := Respond(s, d); t == s.(worker := t.worker, nextId := t.nextId, mail := t.mail)
  {
    match d
    case Become(_) =>
    case Ask(next, code) =>
      if !s.worker.Idle? { SendKeeps(s, next, code); }
      hide Send;
  }

  lemma {:induction false} SendKeeps(s: Sys, next: Status, code: Option<string>)
    requires !s.worker.Idle?
    ensures var t := Send(s, next, code); t == s.(worker := t.worker, nextId := t.nextId, mail := t.mail)
  {
    hide Awaiting, Request;
  }

  lemma {:induction false} DecideFacts(w: Worker, requests: map<JobId, Action>, results: map<JobId, ResultFile>,
                                       step: WorkerStep)
    requires WorkerEnabled(w, results, step)
    ensures var d := Decide(w, requests, results, step);
            && (d.Ask? ==> !w.Idle? && (d.next == Succeeded || d.next == Failed || (d.next == Running && d.code.None?)))
            && (d.Ask? ==> !Publishes(w, requests, step))
            && (d.Become? && !d.w.Idle? ==> !w.Idle? && d.w.job == w.job && d.w.action == w.action)
            && (d.Become? ==> d.w.Idle? || d.w.Publishing? || d.w.Linking? || d.w.Waiting?)
            && (d.Become? && d.w.Publishing? ==> w.AwaitRunning? && w.reply == Some(true))
            && (d.Become? && d.w.Linking? ==> w.Publishing?)
            && (Publishes(w, requests, step) ==> d == Become(Waiting(w.job, w.action)))
  {
    hide MatchesErrorCode;
  }

  lemma {:induction false} TouchKeeps(s: Sys, step: WorkerStep)
    ensures var t := TouchRequests(s, step); t == s.(requests := t.requests, published := t.published)
  {
    hide RequestsAfter, Publishes, Bump;
  }

  lemma {:induction false} MailBySend(s: Sys, next: Status, code: Option<string>)
    requires MailOk(s) && !s.worker.Idle? && next in {Running, Succeeded, Failed}
    ensures MailOk(Send(s, next, code))
  {
  }

  lemma {:induction false} MailByWorker(s: Sys, step: WorkerStep)
    requires MailOk(s) && WorkerEnabled(s.worker, s.results, step)
    ensures MailOk(TakeWorker(s, step))
  {
    DecideFacts(s.worker, s.requests, s.results, step);
    TouchKeeps(s, step);
    hide Decide, WorkerEnabled, TouchRequests, Send, Publishes;
    var u := TouchRequests(s, step);
    match Decide(s.worker, s.requests, s.results, step)
    case Become(_) =>
    case Ask(next, code) => MailBySend(u, next, code);
  }

  lemma {:induction false} MailByRoot(s: Sys, step: RootStep)
    requires MailOk(s) && RootEnabled(s.root, s.requests, step)
    ensures MailOk(TakeRoot(s, step))
  {
    hide Bump, Performable;
  }

  lemma {:induction false} MailByStore(s: Sys, step: StoreStep)
    requires MailOk(s) && StoreEnabled(s, step)
    ensures MailOk(TakeStore(s, step))
  {
  }

  lemma {:induction false} PublishByStore(s: Sys, step: StoreStep, j: JobId)
    requires PublishOk(s, j) && StoreEnabled(s, step)
    ensures PublishOk(TakeStore(s, step), j)
  {
  }

  lemma {:induction false} PublishByNetwork(s: Sys, step: NetworkStep, j: JobId)
    requires MailOk(s) && PublishOk(s, j) && NetworkEnabled(s, step)
    ensures PublishOk(TakeNetwork(s, step), j)
  {
    match step
    case Deliver(m, delivered) => PublishByDelivery(s, m, delivered, j);
    case _ =>
  }

  lemma {:induction false} BumpCounts(m: map<JobId, nat>, i: JobId, j: JobId)
    ensures Count(Bump(m, i), j) == Count(m, j) + (if i == j then 1 else 0)
  {
  }

  lemma {:induction false} PermittedByDelivery(s: Sys, m: Message, delivered: bool, j: JobId)
    requires MailOk(s) && m in s.mail
    ensures Permitted(TakeNetwork(s, Deliver(m, delivered)), j) ==>
              Permitted(s, j) || (m.job == j && m.next == Running && Swaps(s, m))
  {
    assert Awaits(s.worker, m) ==> m.job == s.worker.job && (m.next == Running <==> s.worker.AwaitRunning?);
    SwapKeeps(s, m);
    hide MailOk, CompareAndSet, Swaps;
  }

  lemma {:induction false} PublishByDelivery(s: Sys, m: Message, delivered: bool, j: JobId)
    requires MailOk(s) && PublishOk(s, j) && m in s.mail
    ensures PublishOk(TakeNetwork(s, Deliver(m, delivered)), j)
  {
    PermittedByDelivery(s, m, delivered, j);
    PublishBySwap(s, m, j);
    hide MailOk, Bump, Permitted, Awaits, CompareAndSet, Count;
  }

  lemma {:induction false} PublishBySwap(s: Sys, m: Message, j: JobId)
    requires MailOk(s) && m in s.mail
    requires Count(s.started, j) == 1 ==> j in s.store && s.store[j].status in {Running, Succeeded, Failed, Expired}
    requires Count(s.started, j) <= 1
    ensures var t := CompareAndSet(s, m);
            && Count(t.started, j) == Count(s.started, j)
              + (if Swaps(s, m) && m.next == Running && m.job == j then 1 else 0)
            && Count(t.started, j) <= 1
            && (Count(t.started, j) == 1 ==> j in t.store && t.store[j].status in {Running, Succeeded, Failed, Expired})
  {
    assert if m.next == Running then m.expected == Leased else m.expected == Running && m.next in {Succeeded, Failed};
    BumpCounts(s.started, m.job, j);
    hide MailOk, Bump;
  }

  lemma {:induction false} WorkerKeeps(s: Sys, step: WorkerStep)
    requires WorkerEnabled(s.worker, s.results, step)
    ensures var t, u := TakeWorker(s, step), TouchRequests(s, step);
            OnlyWorker(s, t) && t.requests == u.requests && t.published == u.published
  {
    RespondKeeps(TouchRequests(s, step), Decide(s.worker, s.requests, s.results, step));
    hide Decide, WorkerEnabled, RequestsAfter, Publishes, Bump, Respond;
  }

  lemma {:induction false} DecidePermits(w: Worker, requests: map<JobId, Action>, results: map<JobId, ResultFile>,
                                         step: WorkerStep, j: JobId)
    requires WorkerEnabled(w, results, step)
    ensures var d := Decide(w, requests, results, step);
            d.Become? && HasPermit(d.w, j) ==> HasPermit(w, j) && !Publishes(w, requests, step)
    ensures Publishes(w, requests, step) ==> HasPermit(w, w.job)
  {
    DecideFacts(w, requests, results, step);
    hide Decide, WorkerEnabled;
  }

  lemma {:induction false} RespondPermits(s: Sys, d: Decision, j: JobId)
    ensures d.Become? ==> Respond(s, d).worker == d.w
    ensures d.Ask? && !s.worker.Idle? ==> !HasPermit(Respond(s, d).worker, j)
    ensures d.Ask? && s.worker.Idle? ==> Respond(s, d).worker == s.worker
  {
    hide Request;
  }

  lemma {:induction false} PermittedByWorker(s: Sys, step: WorkerStep, j: JobId)
    requires WorkerEnabled(s.worker, s.results, step)
    ensures Permitted(TakeWorker(s, step), j) ==> Permitted(s, j) && !Publishes(s.worker, s.requests, step)
    ensures Publishes(s.worker, s.requests, step) ==> Permitted(s, s.worker.job)
  {
    hide Decide, WorkerEnabled, TouchRequests, Publishes, Respond;
    DecidePermits(s.worker, s.requests, s.results, step, j);
    DecideFacts(s.worker, s.requests, s.results, step);
    TouchKeeps(s, step);
    RespondPermits(TouchRequests(s, step), Decide(s.worker, s.requests, s.results, step), j);
  }

  lemma {:induction false} PublishByWorker(s: Sys, step: WorkerStep, j: JobId)
    requires PublishOk(s, j) && WorkerEnabled(s.worker, s.results, step)
    ensures PublishOk(TakeWorker(s, step), j)
  {
    hide TakeWorker, TouchRequests, WorkerEnabled, Count;
    PermittedByWorker(s, step, j);
    WorkerKeeps(s, step);
    PublicationCount(s, step, j);
  }

  lemma {:induction false} PublicationCount(s: Sys, step: WorkerStep, j: JobId)
    ensures Count(TouchRequests(s, step).published, j) ==
              Count(s.published, j) + (if Publishes(s.worker, s.requests, step) && s.worker.job == j then 1 else 0)
  {
    if Publishes(s.worker, s.requests, step) { BumpCounts(s.published, s.worker.job, j); }
    hide Bump, RequestsAfter;
  }

  lemma {:induction false} PublishByRoot(s: Sys, step: RootStep, j: JobId)
    requires PublishOk(s, j) && RootEnabled(s.root, s.requests, step)
    ensures PublishOk(TakeRoot(s, step), j)
  {
    hide Performable, Bump;
  }

  // ---- Executions

  /** A request for `j` the executor could still begin. */
  predicate Pending(s: Sys, j: JobId) {
    (s.root.Accepted? && s.root.job == j) || (j in s.requests && !(Holds(s.root) && s.root.job == j))
  }

  predicate ExecuteOk(s: Sys, j: JobId) {
    Count(s.begun, j) + (if Pending(s, j) then 1 else 0) <= Count(s.published, j) + Count(s.crashes, j)
  }

  lemma {:induction false} RequestsGrow(s: Sys, step: WorkerStep, j: JobId)
    ensures var t := TouchRequests(s, step);
            && Count(s.published, j) <= Count(t.published, j)
            && (j in t.requests && j !in s.requests ==> Count(t.published, j) == Count(s.published, j) + 1)
  {
    if Publishes(s.worker, s.requests, step) { BumpCounts(s.published, s.worker.job, j); }
    hide Bump;
  }

  lemma {:induction false} ExecuteByWorker(s: Sys, step: WorkerStep, j: JobId)
    requires ExecuteOk(s, j) && WorkerEnabled(s.worker, s.results, step)
    ensures ExecuteOk(TakeWorker(s, step), j)
  {
    hide TakeWorker, TouchRequests, WorkerEnabled, Count, Holds;
    RequestsGrow(s, step, j);
    WorkerKeeps(s, step);
  }

  lemma {:induction false} ExecuteByRoot(s: Sys, step: RootStep, j: JobId)
    requires ExecuteOk(s, j) && RootEnabled(s.root, s.requests, step)
    ensures ExecuteOk(TakeRoot(s, step), j)
  {
    hide Performable;
  }

  /** The store's answers touch no file and nothing the executor has done. */
  predicate OnlyStore(s: Sys, t: Sys) {
    t == s.(store := t.store, started := t.started, worker := t.worker, mail := t.mail)
  }

  lemma {:induction false} NetworkKeeps(s: Sys, step: NetworkStep)
    requires NetworkEnabled(s, step)
    ensures OnlyStore(s, TakeNetwork(s, step))
  {
    hide Bump, Awaits, Swaps;
    match step
    case Claim(_, _) =>
    case Deliver(m, delivered) =>
      assert OnlyStore(s, CompareAndSet(s, m));
    case Lose(_) =>
  }

  lemma {:induction false} ExecuteByNetwork(s: Sys, step: NetworkStep, j: JobId)
    requires ExecuteOk(s, j) && NetworkEnabled(s, step)
    ensures ExecuteOk(TakeNetwork(s, step), j)
  {
    hide Count, TakeNetwork, NetworkEnabled, Holds;
    NetworkKeeps(s, step);
  }

  lemma {:induction false} ExecuteByStore(s: Sys, step: StoreStep, j: JobId)
    requires ExecuteOk(s, j) && StoreEnabled(s, step)
    ensures ExecuteOk(TakeStore(s, step), j)
  {
    hide Count;
  }

  /** Publications and executions of `j` stay bounded, whatever happens next. */
  ghost predicate CountsOk(s: Sys, j: JobId) { MailOk(s) && PublishOk(s, j) && ExecuteOk(s, j) }

  lemma {:induction false} CountsByStep(s: Sys, step: Step, j: JobId)
    requires CountsOk(s, j) && Enabled(s, step)
    ensures CountsOk(Take(s, step), j)
  {
    hide MailOk, PublishOk, ExecuteOk, StoreEnabled, NetworkEnabled, WorkerEnabled, RootEnabled,
         TakeStore, TakeNetwork, TakeWorker, TakeRoot;
    match step
    case ByStore(st) => MailByStore(s, st); PublishByStore(s, st, j); ExecuteByStore(s, st, j);
    case ByNetwork(n) => MailByNetwork(s, n); PublishByNetwork(s, n, j); ExecuteByNetwork(s, n, j);
    case ByWorker(w) => MailByWorker(s, w); PublishByWorker(s, w, j); ExecuteByWorker(s, w, j);
    case ByRoot(r) => MailByRoot(s, r); PublishByRoot(s, r, j); ExecuteByRoot(s, r, j);
  }

  lemma {:induction false} CountsAlways(steps: seq<Step>, j: JobId)
    requires Playable(steps)
    ensures CountsOk(Play(steps), j)
    decreases |steps|
  {
    if steps != [] {
      var before, step := steps[..|steps| - 1], steps[|steps| - 1];
      CountsAlways(before, j);
      CountsByStep(Play(before), step, j);
    }
  }

  /**
     In every run a job's request file is published at most once, and its action begins at most once more
     than the executor crashes between beginning it and removing its request.
   */
  lemma {:induction false} AtMostOnce(steps: seq<Step>, j: JobId)
    requires Playable(steps)
    ensures Count(Play(steps).published, j) <= 1
    ensures Count(Play(steps).begun, j) <= 1 + Count(Play(steps).crashes, j)
    ensures Count(Play(steps).crashes, j) == 0 ==> Count(Play(steps).begun, j) <= 1
  {
    CountsAlways(steps, j);
  }

  // ---- The bound on executions is reached

  lemma {:induction false} Extend(steps: seq<Step>, step: Step)
    requires Playable(steps) && Enabled(Play(steps), step)
    ensures Playable(steps + [step]) && Play(steps + [step]) == Take(Play(steps), step)
  {
    assert (steps + [step])[..|steps|] == steps;
  }

  /** The request of job 0 is still there while its executor acts for the (n+1)-st time. */
  predicate ActingAgain(s: Sys, a: Action, n: nat) {
    && s.root == Acting(0, a) && 0 in s.requests && s.requests[0] == a
    && Count(s.published, 0) == 1 && Count(s.begun, 0) == n + 1 && Count(s.crashes, 0) == n
  }

  /** A job on its way to the worker, up to its request to run it. */
  lemma {:induction false} Leasing(a: Action) returns (steps: seq<Step>)
    ensures Playable(steps)
    ensures Play(steps) == INITIAL.(store := map[0 := Job(a, Leased, None)], worker := AwaitRunning(0, a, 0, None),
                                    nextId := 1,
                                    mail := {Message(0, 0, Leased, Running, None)})
  {
    var queued := INITIAL.(store := map[0 := Job(a, Queued, None)]);
    steps := [];
    Extend(steps, ByStore(Enqueue(0, a)));
    steps := steps + [ByStore(Enqueue(0, a))];
    assert Play(steps) == queued;
    Extend(steps, ByNetwork(Claim(0, true)));
    steps := steps + [ByNetwork(Claim(0, true))];
    assert Play(steps) == queued.(store := map[0 := Job(a, Leased, None)], worker := Claimed(0, a, Leased));
    Extend(steps, ByWorker(SendRunning));
    steps := steps + [ByWorker(SendRunning)];
  }

  /** The store grants the transition, and the worker is about to publish the request. */
  lemma {:induction false} Handover(a: Action) returns (steps: seq<Step>)
    ensures Playable(steps)
    ensures var s := Play(steps);
            && s.worker == Linking(0, a) && s.requests == map[] && s.root.Resting?
            && s.published == map[] && s.begun == map[] && s.crashes == map[]
            && s.store == map[0 := Job(a, Running, None)] && s.mail == {}
  {
    steps := Leasing(a);
    var grant := ByNetwork(Deliver(Message(0, 0, Leased, Running, None), true));
    Extend(steps, grant);
    steps := steps + [grant];
    assert Play(steps).worker == AwaitRunning(0, a, 0, Some(true));
    Extend(steps, ByWorker(TakeReply));
    steps := steps + [ByWorker(TakeReply)];
    assert Play(steps).worker == Publishing(0, a);
    Extend(steps, ByWorker(CheckResidue));
    steps := steps + [ByWorker(CheckResidue)];
  }

  lemma {:induction false} FirstExecution(a: Action) returns (steps: seq<Step>)
    ensures Playable(steps) && ActingAgain(Play(steps), a, 0)
    ensures var s := Play(steps);
            s.worker == Waiting(0, a) && s.store == map[0 := Job(a, Running, None)] && s.mail == {}
  {
    steps := Handover(a);
    Extend(steps, ByWorker(Link));
    steps := steps + [ByWorker(Link)];
    var s := Play(steps);
    assert s.requests == map[0 := a] && s.root.Resting? && Count(s.published, 0) == 1;
    Extend(steps, ByRoot(Accept(0)));
    steps := steps + [ByRoot(Accept(0))];
    Extend(steps, ByRoot(Begin));
    steps := steps + [ByRoot(Begin)];
  }

  lemma {:induction false} CrashAndRepeat(steps: seq<Step>, a: Action, n: nat) returns (longer: seq<Step>)
    requires Playable(steps) && ActingAgain(Play(steps), a, n)
    ensures Playable(longer) && ActingAgain(Play(longer), a, n + 1)
  {
    Extend(steps, ByRoot(RootCrashes));
    longer := steps + [ByRoot(RootCrashes)];
    Extend(longer, ByRoot(Accept(0)));
    longer := longer + [ByRoot(Accept(0))];
    Extend(longer, ByRoot(Begin));
    longer := longer + [ByRoot(Begin)];
  }

  /** For every number of crashes some run with one publication begins the action once more than that. */
  lemma {:induction false} BoundIsReached(a: Action, n: nat) returns (steps: seq<Step>)
    ensures Playable(steps)
    ensures Count(Play(steps).published, 0) == 1
    ensures Count(Play(steps).crashes, 0) == n && Count(Play(steps).begun, 0) == n + 1
    ensures ActingAgain(Play(steps), a, n)
  {
    if n == 0 {
      steps := FirstExecution(a);
    } else {
      var shorter := BoundIsReached(a, n - 1);
      steps := CrashAndRepeat(shorter, a, n - 1);
    }
  }
}
