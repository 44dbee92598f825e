/**
 The root executor's lifecycle actions on the fixed container
 (deploy/oci/ivrm-mc-main-lifecycle.py). What docker answers to each call, and after how
 many seconds, is arbitrary; every answer and command is recorded in a trace.
 */
module Lifecycle {
  import opened Wrappers
  import opened LifecycleReports
  import opened LifecycleTime

  class Executor {
    const docker: Docker
    /** No docker call takes longer than this many seconds. */
    const maxCall: real
    /** How many docker calls were made. */
    var calls: nat
    var clock: real
    var trace: seq<Event>

    constructor (docker: Docker, maxCall: real)
      ensures this.docker == docker && this.maxCall == maxCall && calls == 0 && trace == [] && clock == 0.0
    {
      this.docker, this.maxCall := docker, maxCall;
      calls, clock, trace := 0, 0.0, [];
    }

    /** A docker command: it raises, or returns its exit status; either way it was issued. */
    method RunCommand(command: Event) returns (status: Attempt<int>)
      modifies this
      ensures status == Status(docker(old(calls)))
      ensures trace == old(trace) + [command]
      ensures calls == old(calls) + 1 && clock == old(clock) + docker(old(calls)).seconds
    {
      var call := docker(calls);
      calls, clock, trace := calls + 1, clock + call.seconds, trace + [command];
      status := if call.raised then Raised else Returned(call.code);
    }

    method InspectState() returns (r: Attempt<(string, string)>)
      modifies this
      ensures r == Look(docker(old(calls)))
      ensures var c := docker(old(calls));
              r == if c.raised then Raised
                   else Returned(if c.code != 0 then ("not_found", "unknown")
                                 else if !c.split then ("unknown", "unknown") else (c.state, c.health))
      ensures r.Raised? ==> trace == old(trace)
      ensures r.Returned? ==> trace == old(trace) + [Inspected(r.value.0, r.value.1)]
      ensures calls == old(calls) + 1 && clock == old(clock) + docker(old(calls)).seconds
    {
      var call := docker(calls);
      calls, clock := calls + 1, clock + call.seconds;
      if call.raised { return Raised; }
      var state, health := call.state, call.health;
      if call.code != 0 {
        state, health := "not_found", "unknown";
      } else if !call.split {
        state, health := "unknown", "unknown";
      }
      trace := trace + [Inspected(state, health)];
      return Returned((state, health));
    }

    method WaitStopped() returns (r: Attempt<bool>)
      requires Prompt(docker, maxCall)
      modifies this
      ensures old(trace) <= trace && OnlyInspects(trace[|old(trace)|..])
      ensures r.Returned? ==> Waited(trace[|old(trace)|..], ShowsStopped, r.value)
      ensures r.Returned? ==> forall i | |old(trace)| <= i < |trace| ::
                trace[i].Inspected? &&
                (trace[i].state in {"exited", "dead", "created", "not_found"} <==> r.value && i == |trace| - 1)
      ensures r == Returned(false) ==> clock >= old(clock) + STOP_TIMEOUT_SECONDS
      ensures r == Returned(true) ==> clock <= old(clock) + STOP_TIMEOUT_SECONDS + maxCall
      ensures old(clock) <= clock <= old(clock) + STOP_TIMEOUT_SECONDS + maxCall + 1.0
      ensures Span(r, calls, clock - old(clock)) == StopWait(docker, old(calls), 0.0)
    {
      var deadline := clock + STOP_TIMEOUT_SECONDS;
      while clock < deadline
        invariant old(trace) <= trace && Waited(trace[|old(trace)|..], ShowsStopped, false)
        invariant old(clock) <= clock <= deadline + maxCall + 1.0
        invariant StopWait(docker, old(calls), 0.0) == StopWait(docker, calls, clock - old(clock))
        decreases deadline - clock
      {
        var seen :- InspectState();
        if StoppedState(seen.0) { return Returned(true); }
        clock := clock + 1.0;
      }
      return Returned(false);
    }

    method WaitHealthy() returns (r: Attempt<bool>)
      requires Prompt(docker, maxCall)
      modifies this
      ensures old(trace) <= trace && OnlyInspects(trace[|old(trace)|..])
      ensures r.Returned? ==> Waited(trace[|old(trace)|..], ShowsHealthy, r.value)
      ensures r.Returned? ==> forall i | |old(trace)| <= i < |trace| ::
                trace[i] == Inspected("running", "healthy") <==> r.value && i == |trace| - 1
      ensures r == Returned(false) ==>
                clock >= old(clock) + START_TIMEOUT_SECONDS || Ends(trace[|old(trace)|..], ShowsEnded)
      ensures old(clock) <= clock <= old(clock) + START_TIMEOUT_SECONDS + maxCall + 2.0
      ensures Span(r, calls, clock - old(clock)) == HealthWait(docker, old(calls), 0.0)
    {
      var deadline := clock + START_TIMEOUT_SECONDS;
      while clock < deadline
        invariant old(trace) <= trace && Waited(trace[|old(trace)|..], ShowsHealthy, false)
        invariant old(clock) <= clock <= deadline + maxCall + 2.0
        invariant HealthWait(docker, old(calls), 0.0) == HealthWait(docker, calls, clock - old(clock))
        decreases deadline - clock
      {
        var seen :- InspectState();
        if seen.0 == "running" && seen.1 == "healthy" { return Returned(true); }
        if seen.0 in {"exited", "dead", "not_found"} { return Returned(false); }
        clock := clock + 2.0;
      }
      return Returned(false);
    }

    method GracefulStop() returns (r: Attempt<Outcome>)
      requires Prompt(docker, maxCall)
      modifies this
      ensures old(trace) <= trace
      ensures Gentle(trace[|old(trace)|..]) && NeverStarts(trace[|old(trace)|..])
      ensures r.Returned? && r.value.ok ==> Ends(trace[|old(trace)|..], ShowsStopped) && r.value.value == "stopped"
      ensures r.Returned? ==> StopMeans(trace[|old(trace)|..], r.value)
      ensures r.Returned? && r.value.ok ==> clock <= old(clock) + STOP_TIMEOUT_SECONDS + 3.0 * maxCall
      ensures old(clock) <= clock <= old(clock) + STOP_TIMEOUT_SECONDS + 1.0 + 3.0 * maxCall
      ensures Span(r, calls, clock - old(clock)) == Stop(docker, old(calls))
    {
      hide StopMeans, Gentle, NeverStarts, Waited, StopWait;
      var n := |trace|;
      var seen := InspectState();
      if seen.Raised? {
        NothingDone(trace[n..]);
        return Raised;
      }
      ghost var look := Inspected(seen.value.0, seen.value.1);
      if StoppedState(seen.value.0) {
        assert trace[n..] == [look];
        StopAtOnce(look);
        return Returned(Outcome(true, "stopped"));
      }
      var status := RunCommand(SentSignal("TERM"));
      assert trace[n..] == [look, SentSignal("TERM")] + [];
      StopTrace(look, [], Outcome(false, "docker_term_failed"));
      if status.Raised? { return Raised; }
      if status.value != 0 { return Returned(Outcome(false, "docker_term_failed")); }
      ghost var before := trace;
      var stopped := WaitStopped();
      assert trace[n..] == [look, SentSignal("TERM")] + trace[|before|..];
      StopTrace(look, trace[|before|..],
                if stopped == Returned(true) then Outcome(true, "stopped")
                else Outcome(false, "graceful_stop_timeout"));
      if stopped.Raised? { return Raised; }
      if !stopped.value { return Returned(Outcome(false, "graceful_stop_timeout")); }
      return Returned(Outcome(true, "stopped"));
    }

    method SafeStart() returns (r: Attempt<Outcome>)
      requires Prompt(docker, maxCall)
      modifies this
      ensures old(trace) <= trace
      ensures Gentle(trace[|old(trace)|..]) && NeverSignals(trace[|old(trace)|..])
      ensures StartsAfter(trace[|old(trace)|..], NotRunning)
      ensures r.Returned? && r.value.ok ==>
              Ends(trace[|old(trace)|..], ShowsHealthy) && r.value.value == "health_gate_passed"
      ensures r.Returned? ==> StartMeans(trace[|old(trace)|..], r.value)
      ensures old(clock) <= clock <= old(clock) + START_TIMEOUT_SECONDS + 2.0 + 3.0 * maxCall
      ensures Span(r, calls, clock - old(clock)) == Start(docker, old(calls))
    {
      hide StartMeans, Gentle, NeverSignals, StartsAfter, Waited, HealthWait;
      var n := |trace|;
      var seen := InspectState();
      if seen.Raised? {
        NothingDone(trace[n..]);
        return Raised;
      }
      ghost var look := Inspected(seen.value.0, seen.value.1);
      assert trace[n..] == [look];
      StartAtOnce(look);
      if seen.value.0 == "running" && seen.value.1 == "healthy" {
        return Returned(Outcome(true, "health_gate_passed"));
      }
      if seen.value.0 == "running" && seen.value.1 != "healthy" {
        return Returned(Outcome(false, "preexisting_unhealthy"));
      }
      var status := RunCommand(StartedContainer);
      assert trace[n..] == [look, StartedContainer] + [];
      StartTrace(look, [], Outcome(false, "docker_start_failed"));
      if status.Raised? { return Raised; }
      if status.value != 0 { return Returned(Outcome(false, "docker_start_failed")); }
      ghost var before := trace;
      var healthy := WaitHealthy();
      assert trace[n..] == [look, StartedContainer] + trace[|before|..];
      StartTrace(look, trace[|before|..],
                 if healthy == Returned(true) then Outcome(true, "health_gate_passed")
                 else Outcome(false, "health_gate_failed"));
      if healthy.Raised? { return Raised; }
      if !healthy.value { return Returned(Outcome(false, "health_gate_failed")); }
      return Returned(Outcome(true, "health_gate_passed"));
    }

    /**
     The three actions. A success reports the phase the worker expects and ends
     with the observation the phase stands for; a restart starts the container
     only after seeing it stopped; and the calls and the seconds are those `Act` gives.
     */
    method Execute(action: Action) returns (r: Attempt<Report>)
      requires Prompt(docker, maxCall)
      modifies this
      ensures old(trace) <= trace && Gentle(trace[|old(trace)|..])
      ensures r.Returned? ==> Performable(action, trace[|old(trace)|..], r.value)
      ensures action.StopBackend? ==> NeverStarts(trace[|old(trace)|..])
      ensures action.StartBackend? ==>
              NeverSignals(trace[|old(trace)|..]) && StartsAfter(trace[|old(trace)|..], NotRunning)
      ensures action.RestartBackend? ==> StartsAfter(trace[|old(trace)|..], ShowsStopped)
      ensures Span(r, calls, clock - old(clock)) == Act(docker, action, old(calls))
      ensures old(clock) <= clock < old(clock) + ActionBound(action, maxCall)
    {
      hide StopMeans, StartMeans, Performable, Gentle, NeverStarts, NeverSignals, StartsAfter, Stop, Start;
      var n := |trace|;
      assert 0.0 <= docker(0).seconds <= maxCall;
      FitsSuffices(docker, action, calls, maxCall, 0.0);
      match action
      case StartBackend =>
        var started :- SafeStart();
        StartReports(trace[n..], started);
        return Returned(Report(started.ok, if started.ok then started.value else "execution_failed",
                               if started.ok then None else Some(started.value)));
      case StopBackend =>
        var stopped :- GracefulStop();
        StopReports(trace[n..], stopped);
        return Returned(Report(stopped.ok, if stopped.ok then "stopped" else "execution_failed",
                               if stopped.ok then None else Some(stopped.value)));
      case RestartBackend =>
        var stopping := GracefulStop();
        NothingStarted(trace[n..]);
        var stopped :- stopping;
        StopReports(trace[n..], stopped);
        if !stopped.ok { return Returned(Report(false, "execution_failed", Some(stopped.value))); }
        ghost var before := trace;
        var started := SafeStart();
        RestartTrace(before[n..], trace[|before|..]);
        assert trace[n..] == before[n..] + trace[|before|..];
        if started.Raised? { return Raised; }
        RestartReports(before[n..], trace[|before|..], started.value);
        return Returned(Report(started.value.ok, if started.value.ok then started.value.value else "execution_failed",
                               if started.value.ok then None else Some(started.value.value)));
    }
  }

  lemma {:induction false} StartReports(trace: seq<Event>, o: Outcome)
    requires StartMeans(trace, o) && Gentle(trace)
    ensures Performable(StartBackend, trace, ReportOf(o, if o.ok then o.value else ""))
  {
    hide Gentle;
    assert ReportOf(o, if o.ok then o.value else "") == ReportOf(o, "health_gate_passed");
  }

  lemma {:induction false} StopReports(trace: seq<Event>, o: Outcome)
    requires StopMeans(trace, o) && Gentle(trace)
    ensures Performable(StopBackend, trace, ReportOf(o, "stopped"))
    ensures !o.ok ==> Performable(RestartBackend, trace, ReportOf(o, "stopped"))
    ensures o.ok ==> o == Outcome(true, "stopped") && Ends(trace, ShowsStopped)
  {
    hide Gentle;
  }

  lemma {:induction false} RestartReports(stop: seq<Event>, start: seq<Event>, o: Outcome)
    requires StopMeans(stop, Outcome(true, "stopped")) && StartMeans(start, o) && Gentle(stop + start)
    ensures Performable(RestartBackend, stop + start, ReportOf(o, if o.ok then o.value else ""))
  {
    hide Gentle;
    var t := stop + start;
    assert t[..|stop|] == stop && t[|stop|..] == start;
    assert RestartMeans(t, |stop|, o);
    assert ReportOf(o, if o.ok then o.value else "") == ReportOf(o, "health_gate_passed");
    if o.ok { assert Ends(t, ShowsHealthy); }
  }

  lemma {:induction false} OneCommand(seen: Event, command: Event, waits: seq<Event>)
    requires seen.Inspected? && OnlyInspects(waits)
    requires command == SentSignal("TERM") || command.StartedContainer?
    ensures var t := [seen, command] + waits;
            && Gentle(t)
            && (command.SentSignal? ==> NeverStarts(t))
            && (command.StartedContainer? ==> NeverSignals(t) && (NotRunning(seen) ==> StartsAfter(t, NotRunning)))
            && forall shows | Ends(waits, shows) :: Ends(t, shows)
  {
    var t := [seen, command] + waits;
    assert t[0] == seen && t[1] == command;
    forall i | 2 <= i < |t| ensures t[i].Inspected? { assert t[i] in waits; }
  }

  lemma {:induction false} NothingDone(trace: seq<Event>)
    requires trace == []
    ensures Gentle(trace) && NeverStarts(trace) && NeverSignals(trace) && StartsAfter(trace, NotRunning)
  {
  }

  lemma {:induction false} NothingStarted(trace: seq<Event>)
    requires NeverStarts(trace)
    ensures StartsAfter(trace, ShowsStopped)
  {
  }

  lemma {:induction false} StopAtOnce(look: Event)
    requires ShowsStopped(look)
    ensures StopMeans([look], Outcome(true, "stopped")) && Ends([look], ShowsStopped)
    ensures Gentle([look]) && NeverStarts([look])
  {
  }

  /** A look, TERM and a wait: gentle, and what the outcome says if the wait went that way. */
  lemma {:induction false} StopTrace(look: Event, waits: seq<Event>, o: Outcome)
    requires look.Inspected? && !ShowsStopped(look) && OnlyInspects(waits)
    ensures var t := [look, SentSignal("TERM")] + waits;
            && Gentle(t) && NeverStarts(t)
            && (o == Outcome(false, "docker_term_failed") && waits == [] ==> StopMeans(t, o))
            && (o == Outcome(false, "graceful_stop_timeout") && Waited(waits, ShowsStopped, false) ==> StopMeans(t, o))
            && (o == Outcome(true, "stopped") && Waited(waits, ShowsStopped, true) ==>
                StopMeans(t, o) && Ends(t, ShowsStopped))
  {
    hide Gentle, NeverStarts, NeverSignals, StartsAfter;
    OneCommand(look, SentSignal("TERM"), waits);
    assert ([look, SentSignal("TERM")] + waits)[2..] == waits;
  }

  lemma {:induction false} StartAtOnce(look: Event)
    requires look.Inspected?
    ensures Gentle([look]) && NeverSignals([look]) && StartsAfter([look], NotRunning)
    ensures ShowsHealthy(look) ==> StartMeans([look], Outcome(true, "health_gate_passed")) && Ends([look], ShowsHealthy)
    ensures !ShowsHealthy(look) && look.state == "running" ==>
            StartMeans([look], Outcome(false, "preexisting_unhealthy"))
  {
  }

  /** A look, a start and a wait: gentle, and what the outcome says if the wait went that way. */
  lemma {:induction false} StartTrace(look: Event, waits: seq<Event>, o: Outcome)
    requires NotRunning(look) && OnlyInspects(waits)
    ensures var t := [look, StartedContainer] + waits;
            && Gentle(t) && NeverSignals(t) && StartsAfter(t, NotRunning)
            && (o == Outcome(false, "docker_start_failed") && waits == [] ==> StartMeans(t, o))
            && (o == Outcome(false, "health_gate_failed") && Waited(waits, ShowsHealthy, false) ==> StartMeans(t, o))
            && (o == Outcome(true, "health_gate_passed") && Waited(waits, ShowsHealthy, true) ==>
                  StartMeans(t, o) && Ends(t, ShowsHealthy))
  {
    hide Gentle, NeverStarts, NeverSignals, StartsAfter;
    OneCommand(look, StartedContainer, waits);
    assert ([look, StartedContainer] + waits)[2..] == waits;
  }

  lemma {:induction false} RestartTrace(stop: seq<Event>, start: seq<Event>)
    requires Gentle(stop) && NeverStarts(stop) && Ends(stop, ShowsStopped)
    requires Gentle(start) && NeverSignals(start)
    ensures Gentle(stop + start) && StartsAfter(stop + start, ShowsStopped)
    ensures Ends(start, ShowsHealthy) ==> Ends(stop + start, ShowsHealthy)
  {
    var t := stop + start;
    forall i | 0 <= i < |t| && t[i].StartedContainer? ensures exists j | 0 <= j < i :: ShowsStopped(t[j]) {
      assert i >= |stop|;
      assert ShowsStopped(t[|stop| - 1]);
    }
    forall i, j | 0 <= i < j < |t|
      ensures !(t[i].SentSignal? && t[j].SentSignal?) && !(t[i].StartedContainer? && t[j].StartedContainer?)
    {
      assert i < |stop| ==> t[i] in stop;
      assert j >= |stop| ==> t[j] in start;
    }
  }
}
