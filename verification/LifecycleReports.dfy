/**
 What the root executor and the worker say to each other about a lifecycle action
 (deploy/oci/ivrm-mc-main-lifecycle.py, apps/agent/cmd/ivrm-operation-worker/main.go).
 */
module LifecycleReports {
  import opened Wrappers

  datatype Action = StartBackend | RestartBackend | StopBackend

  /** What a docker call did: an inspection and its answer, or a command. */
  datatype Event =
    | Inspected(state: string, health: string)
    | SentSignal(signal: string)
    | StartedContainer

  datatype Report = Report(ok: bool, phase: string, errorCode: Option<string>)

  predicate StoppedState(state: string) { state in {"exited", "dead", "created", "not_found"} }

  predicate ShowsStopped(e: Event) { e.Inspected? && StoppedState(e.state) }

  predicate ShowsHealthy(e: Event) { e == Inspected("running", "healthy") }

  predicate Ends(trace: seq<Event>, shows: Event -> bool) { trace != [] && shows(trace[|trace| - 1]) }

  function ExpectedPhase(a: Action): string { if a.StopBackend? then "stopped" else "health_gate_passed" }

  /** The last thing a successful action observed. */
  predicate Achieved(a: Action, trace: seq<Event>) {
    Ends(trace, if a.StopBackend? then ShowsStopped else ShowsHealthy)
  }

  const FAILURE_CODES := {
    "docker_term_failed", "graceful_stop_timeout", "preexisting_unhealthy", "docker_start_failed", "health_gate_failed"}

  /** A report `Execute` can return for the action after the trace. */
  predicate Genuine(action: Action, trace: seq<Event>, report: Report) {
    if report.ok then Achieved(action, trace) && report.phase == ExpectedPhase(action) && report.errorCode.None?
    else report.phase == "execution_failed" && report.errorCode.Some? && report.errorCode.value in FAILURE_CODES
  }

  // ---- What a trace shows

  /** Only TERM is ever sent, at most once, and the container is started at most once. */
  predicate Gentle(trace: seq<Event>) {
    && (forall e | e in trace && e.SentSignal? :: e.signal == "TERM")
    && (forall i, j | 0 <= i < j < |trace| :: !(trace[i].SentSignal? && trace[j].SentSignal?))
    && (forall i, j | 0 <= i < j < |trace| :: !(trace[i].StartedContainer? && trace[j].StartedContainer?))
  }

  predicate NeverStarts(trace: seq<Event>) { forall e | e in trace :: !e.StartedContainer? }

  predicate NeverSignals(trace: seq<Event>) { forall e | e in trace :: !e.SentSignal? }

  predicate OnlyInspects(trace: seq<Event>) { forall e | e in trace :: e.Inspected? }

  /** Every start comes after an observation that satisfies `shows`. */
  predicate StartsAfter(trace: seq<Event>, shows: Event -> bool) {
    forall i | 0 <= i < |trace| && trace[i].StartedContainer? :: exists j | 0 <= j < i :: shows(trace[j])
  }

  /** A wait only looked, and saw what it waited for last if it found it and never otherwise. */
  predicate Waited(trace: seq<Event>, shows: Event -> bool, found: bool) {
    && OnlyInspects(trace) && (found ==> Ends(trace, shows))
    && forall i | 0 <= i < (if found then |trace| - 1 else |trace|) :: !shows(trace[i])
  }

  datatype Outcome = Outcome(ok: bool, value: string)

  /** What a stop did, from what it reports. */
  predicate StopMeans(trace: seq<Event>, o: Outcome) {
    && |trace| >= 1 && trace[0].Inspected?
    && if ShowsStopped(trace[0]) then o == Outcome(true, "stopped") && |trace| == 1
       else
         && |trace| >= 2 && trace[1] == SentSignal("TERM")
         && if o.ok then o.value == "stopped" && Waited(trace[2..], ShowsStopped, true)
            else if o.value == "docker_term_failed" then |trace| == 2
            else o.value == "graceful_stop_timeout" && Waited(trace[2..], ShowsStopped, false)
  }

  /** What a start did, from what it reports. */
  predicate StartMeans(trace: seq<Event>, o: Outcome) {
    && |trace| >= 1 && trace[0].Inspected?
    && if ShowsHealthy(trace[0]) then o == Outcome(true, "health_gate_passed") && |trace| == 1
       else if trace[0].state == "running" then o == Outcome(false, "preexisting_unhealthy") && |trace| == 1
       else
         && |trace| >= 2 && trace[1].StartedContainer?
         && if o.ok then o.value == "health_gate_passed" && Waited(trace[2..], ShowsHealthy, true)
            else if o.value == "docker_start_failed" then |trace| == 2
            else o.value == "health_gate_failed" && Waited(trace[2..], ShowsHealthy, false)
  }

  function ReportOf(o: Outcome, phase: string): Report {
    if o.ok then Report(true, phase, None) else Report(false, "execution_failed", Some(o.value))
  }

  /** What an action did, from its report: a restart is a stop and, if that succeeded, a start. */
  ghost predicate ActionMeans(a: Action, trace: seq<Event>, report: Report) {
    match a
    case StartBackend => exists o :: StartMeans(trace, o) && report == ReportOf(o, "health_gate_passed")
    case StopBackend => exists o :: StopMeans(trace, o) && report == ReportOf(o, "stopped")
    case RestartBackend =>
      || (exists o :: StopMeans(trace, o) && !o.ok && report == ReportOf(o, "stopped"))
      || (exists n, o :: RestartMeans(trace, n, o) && report == ReportOf(o, "health_gate_passed"))
  }

  predicate RestartMeans(trace: seq<Event>, n: int, o: Outcome) {
    0 <= n <= |trace| && StopMeans(trace[..n], Outcome(true, "stopped")) && StartMeans(trace[n..], o)
  }

  predicate NotRunning(e: Event) { e.Inspected? && e.state != "running" }

  /** The observation on which waiting for health gives up early. */
  predicate ShowsEnded(e: Event) { e.Inspected? && e.state in {"exited", "dead", "not_found"} }

  /** Everything `Execute` promises of a trace and the report it returns. */
  ghost predicate Performable(action: Action, trace: seq<Event>, report: Report) {
    Genuine(action, trace, report) && ActionMeans(action, trace, report) && Gentle(trace)
  }

  predicate NeverShows(trace: seq<Event>, shows: Event -> bool) { forall e | e in trace :: !shows(e) }

  predicate ShowsUnhealthy(e: Event) { e.Inspected? && e.state == "running" && e.health != "healthy" }

  /** What a failure code says the action did. */
  predicate FailureMeans(a: Action, trace: seq<Event>, code: string) {
    match code
    case "docker_term_failed" =>
      && !a.StartBackend? && NeverStarts(trace) && NeverShows(trace, ShowsStopped)
      && Ends(trace, (e: Event) => e == SentSignal("TERM"))
    case "graceful_stop_timeout" =>
      && !a.StartBackend? && NeverStarts(trace) && NeverShows(trace, ShowsStopped)
      && SentSignal("TERM") in trace
    case "preexisting_unhealthy" =>
      && !a.StopBackend? && NeverStarts(trace) && (a.StartBackend? ==> OnlyInspects(trace))
      && Ends(trace, ShowsUnhealthy)
    case "docker_start_failed" =>
      && !a.StopBackend? && (a.StartBackend? ==> NeverSignals(trace))
      && Ends(trace, (e: Event) => e.StartedContainer?)
    case "health_gate_failed" =>
      && !a.StopBackend? && (a.StartBackend? ==> NeverSignals(trace))
      && exists i | 0 <= i < |trace| :: trace[i].StartedContainer? && NeverShows(trace[i..], ShowsHealthy)
    case _ => false
  }

  lemma {:induction false} StopFailure(trace: seq<Event>, o: Outcome)
    requires StopMeans(trace, o) && !o.ok
    ensures FailureMeans(StopBackend, trace, o.value) && FailureMeans(RestartBackend, trace, o.value)
  {
    assert trace == trace[..2] + trace[2..];
    assert trace[..2] == [trace[0], SentSignal("TERM")];
  }

  lemma {:induction false} StartFailure(stop: seq<Event>, start: seq<Event>, o: Outcome)
    requires StartMeans(start, o) && !o.ok && NeverStarts(stop)
    ensures stop == [] ==> FailureMeans(StartBackend, start, o.value)
    ensures FailureMeans(RestartBackend, stop + start, o.value)
  {
    var t := stop + start;
    assert t[|t| - 1] == start[|start| - 1];
    if |start| >= 2 {
      assert start == [start[0]] + start[1..] && start[1..] == [start[1]] + start[2..];
      assert t[|stop| + 1..] == start[1..];
    }
  }

  /** A failure of a performable action means what its code says. */
  lemma {:induction false} FailureExplained(a: Action, trace: seq<Event>, report: Report)
    requires Performable(a, trace, report) && !report.ok
    ensures report.errorCode.Some? && FailureMeans(a, trace, report.errorCode.value)
  {
    hide StopMeans, StartMeans, FailureMeans, Gentle;
    match a
    case StartBackend =>
      var o :| StartMeans(trace, o) && report == ReportOf(o, "health_gate_passed");
      StartFailure([], trace, o);
    case StopBackend =>
      var o :| StopMeans(trace, o) && report == ReportOf(o, "stopped");
      StopFailure(trace, o);
    case RestartBackend =>
      if o :| StopMeans(trace, o) && !o.ok && report == ReportOf(o, "stopped") {
        StopFailure(trace, o);
      } else {
        var n, o :| RestartMeans(trace, n, o) && report == ReportOf(o, "health_gate_passed");
        StopNeverStarts(trace[..n]);
        assert trace == trace[..n] + trace[n..];
        StartFailure(trace[..n], trace[n..], o);
      }
  }

  lemma {:induction false} StopNeverStarts(trace: seq<Event>)
    requires StopMeans(trace, Outcome(true, "stopped"))
    ensures NeverStarts(trace)
  {
    assert |trace| >= 2 ==> trace == trace[..2] + trace[2..];
  }
}
