/**
 What the executor's waits and actions return, from docker's answers alone
 (deploy/oci/ivrm-mc-main-lifecycle.py): which look ends a wait, and what a refused
 command does.
 */
module LifecycleLooks {
  import opened Wrappers
  import opened LifecycleReports
  import opened LifecycleTime

  /** Docker knows no such container, or says that it is exited, dead or created. */
  predicate SeesStopped(c: Call) {
    !c.raised && (c.code != 0 || (c.split && c.state in {"exited", "dead", "created", "not_found"}))
  }

  predicate SeesHealthy(c: Call) {
    !c.raised && c.code == 0 && c.split && c.state == "running" && c.health == "healthy"
  }

  /** The container is gone for good while its health is waited for. */
  predicate SeesEnded(c: Call) {
    !c.raised && (c.code != 0 || (c.split && c.state in {"exited", "dead", "not_found"}))
  }

  /** The seconds of `m` looks from the `n`-th call on, with a sleep after each. */
  function Elapsed(docker: Docker, n: nat, m: nat, sleep: real): (t: real)
    requires sleep >= 0.0
    ensures t >= 0.0
    decreases m
  {
    if m == 0 then 0.0 else docker(n).seconds + sleep + Elapsed(docker, n + 1, m - 1, sleep)
  }

  lemma {:induction false} StopLook(docker: Docker, n: nat, at: real)
    ensures var c, w, t := docker(n), StopWait(docker, n, at), at + docker(n).seconds;
            if at >= 60.0 then w == Span(Returned(false), n, at)
            else if c.raised then w == Span(Raised, n + 1, t)
            else if SeesStopped(c) then w == Span(Returned(true), n + 1, t)
            else w == StopWait(docker, n + 1, t + 1.0)
  {
  }

  lemma {:induction false} HealthLook(docker: Docker, n: nat, at: real)
    ensures var c, w, t := docker(n), HealthWait(docker, n, at), at + docker(n).seconds;
            if at >= 120.0 then w == Span(Returned(false), n, at)
            else if c.raised then w == Span(Raised, n + 1, t)
            else if SeesHealthy(c) then w == Span(Returned(true), n + 1, t)
            else if SeesEnded(c) then w == Span(Returned(false), n + 1, t)
            else w == HealthWait(docker, n + 1, t + 2.0)
  {
  }

  /** The calls from `n` on until the stop wait is over: `m` of them, of which only the last can end it. */
  lemma {:induction false} StopWaitLooks(docker: Docker, n: nat, at: real) returns (m: nat)
    ensures var w := StopWait(docker, n, at);
            && w.calls == n + m
            && (forall i: nat | i < m :: at + Elapsed(docker, n, i, 1.0) < 60.0)
            && (forall k: nat | n <= k < n + m - 1 :: !docker(k).raised && !SeesStopped(docker(k)))
            && match w.result
               case Raised => m > 0 && docker(n + m - 1).raised
               case Returned(true) => m > 0 && SeesStopped(docker(n + m - 1))
               case Returned(false) =>
                 && (m > 0 ==> !docker(n + m - 1).raised && !SeesStopped(docker(n + m - 1)))
                 && at + Elapsed(docker, n, m, 1.0) >= 60.0 && w.seconds == at + Elapsed(docker, n, m, 1.0)
    ensures var w := StopWait(docker, n, at);
            w.result != Returned(false) ==> w.seconds == at + Elapsed(docker, n, m - 1, 1.0) + docker(n + m - 1).seconds
    decreases STOP_TIMEOUT_SECONDS - at
  {
    hide StopWait, SeesStopped;
    StopLook(docker, n, at);
    if at >= STOP_TIMEOUT_SECONDS { return 0; }
    var c, t := docker(n), at + docker(n).seconds;
    if c.raised || SeesStopped(c) { return 1; }
    var rest := StopWaitLooks(docker, n + 1, t + 1.0);
    m := rest + 1;
    forall i: nat | i < m ensures at + Elapsed(docker, n, i, 1.0) < 60.0 {
      if i > 0 { assert t + 1.0 + Elapsed(docker, n + 1, i - 1, 1.0) < 60.0; }
    }
  }

  /** The same of the health wait. */
  lemma {:induction false} HealthWaitLooks(docker: Docker, n: nat, at: real) returns (m: nat)
    ensures var w := HealthWait(docker, n, at);
            && w.calls == n + m
            && (forall i: nat | i < m :: at + Elapsed(docker, n, i, 2.0) < 120.0)
            && (forall k: nat | n <= k < n + m - 1 ::
                  !docker(k).raised && !SeesHealthy(docker(k)) && !SeesEnded(docker(k)))
            && match w.result
               case Raised => m > 0 && docker(n + m - 1).raised
               case Returned(true) => m > 0 && SeesHealthy(docker(n + m - 1))
               case Returned(false) =>
                 || (m > 0 && SeesEnded(docker(n + m - 1)))
                 || ((m > 0 ==> !docker(n + m - 1).raised && !SeesHealthy(docker(n + m - 1)))
                     && at + Elapsed(docker, n, m, 2.0) >= 120.0 && w.seconds == at + Elapsed(docker, n, m, 2.0))
    ensures var w := HealthWait(docker, n, at);
            m > 0 && (docker(n + m - 1).raised || SeesHealthy(docker(n + m - 1)) || SeesEnded(docker(n + m - 1))) ==>
              w.seconds == at + Elapsed(docker, n, m - 1, 2.0) + docker(n + m - 1).seconds
    decreases START_TIMEOUT_SECONDS - at
  {
    hide HealthWait, SeesHealthy, SeesEnded;
    HealthLook(docker, n, at);
    if at >= START_TIMEOUT_SECONDS { return 0; }
    var c, t := docker(n), at + docker(n).seconds;
    if c.raised || SeesHealthy(c) || SeesEnded(c) { return 1; }
    var rest := HealthWaitLooks(docker, n + 1, t + 2.0);
    m := rest + 1;
    forall i: nat | i < m ensures at + Elapsed(docker, n, i, 2.0) < 120.0 {
      if i > 0 { assert t + 2.0 + Elapsed(docker, n + 1, i - 1, 2.0) < 120.0; }
    }
  }

  /**
   A stop that finds the container up sends TERM: it fails at once if docker refuses that, and otherwise as the wait
   goes.
   */
  lemma {:induction false} StopMeaning(docker: Docker, n: nat)
    ensures var c, d, s, t := docker(n), docker(n + 1), Stop(docker, n), docker(n).seconds + docker(n + 1).seconds;
            var w := StopWait(docker, n + 2, 0.0);
            if c.raised then s == Span(Raised, n + 1, c.seconds)
            else if SeesStopped(c) then s == Span(Returned(Outcome(true, "stopped")), n + 1, c.seconds)
            else if d.raised then s == Span(Raised, n + 2, t)
            else if d.code != 0 then s == Span(Returned(Outcome(false, "docker_term_failed")), n + 2, t)
            else
              && s.calls == w.calls && s.seconds == t + w.seconds
              && match w.result
                 case Raised => s.result.Raised?
                 case Returned(true) => s.result == Returned(Outcome(true, "stopped"))
                 case Returned(false) => s.result == Returned(Outcome(false, "graceful_stop_timeout"))
  {
    hide StopWait;
  }

  /**
   A start that does not find the container running starts it: it fails at once if docker refuses that, and otherwise
   as the wait goes.
   */
  lemma {:induction false} StartMeaning(docker: Docker, n: nat)
    ensures var c, d, s, t := docker(n), docker(n + 1), Start(docker, n), docker(n).seconds + docker(n + 1).seconds;
            var w := HealthWait(docker, n + 2, 0.0);
            if c.raised then s == Span(Raised, n + 1, c.seconds)
            else if SeesHealthy(c) then s == Span(Returned(Outcome(true, "health_gate_passed")), n + 1, c.seconds)
            else if c.code == 0 && c.split && c.state == "running" then
              s == Span(Returned(Outcome(false, "preexisting_unhealthy")), n + 1, c.seconds)
            else if d.raised then s == Span(Raised, n + 2, t)
            else if d.code != 0 then s == Span(Returned(Outcome(false, "docker_start_failed")), n + 2, t)
            else
              && s.calls == w.calls && s.seconds == t + w.seconds
              && match w.result
                 case Raised => s.result.Raised?
                 case Returned(true) => s.result == Returned(Outcome(true, "health_gate_passed"))
                 case Returned(false) => s.result == Returned(Outcome(false, "health_gate_failed"))
  {
    hide HealthWait;
  }

  /** The report of an outcome: its phase for a success, its code for a failure. */
  function Told(o: Attempt<Outcome>, phase: string): Attempt<Report> {
    match o
    case Raised => Raised
    case Returned(Outcome(true, _)) => Returned(Report(true, phase, None))
    case Returned(Outcome(false, code)) => Returned(Report(false, "execution_failed", Some(code)))
  }

  /** A restart is a stop and, only if that succeeds, a start from the next call on. */
  lemma {:induction false} ActMeaning(docker: Docker, n: nat)
    ensures Act(docker, StopBackend, n).result == Told(Stop(docker, n).result, "stopped")
    ensures Act(docker, StartBackend, n).result == Told(Start(docker, n).result, "health_gate_passed")
    ensures var stopped, both := Stop(docker, n), Act(docker, RestartBackend, n);
            if stopped.result.Returned? && stopped.result.value.ok then
              var started := Start(docker, stopped.calls);
              && both.result == Told(started.result, "health_gate_passed")
              && both.calls == started.calls && both.seconds == stopped.seconds + started.seconds
            else
              both.result == Told(stopped.result, "stopped") && both.calls == stopped.calls
              && both.seconds == stopped.seconds
  {
    hide Stop, Start;
  }
}
