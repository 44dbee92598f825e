/**
 How long the lifecycle actions take (deploy/oci/ivrm-mc-main-lifecycle.py): what docker
 answers to each call, and after how many seconds, decides it.
 */
module LifecycleTime {
  import opened Wrappers
  import opened Reals
  import opened LifecycleReports

  /** A python call: it returned, or raised (a docker timeout, an OS error). */
  datatype Attempt<+T> = Raised | Returned(value: T) {
    predicate IsFailure() { Raised? }

    function PropagateFailure<U>(): Attempt<U>
      requires Raised?
    {
      Raised
    }

    function Extract(): T
      requires Returned?
    {
      value
    }
  }

  const START_TIMEOUT_SECONDS := 120.0
  const STOP_TIMEOUT_SECONDS := 60.0

  type Seconds = s: real | 0.0 <= s

  /** What docker does with a call: `state` and `health` are what an inspection prints, if it prints both. */
  datatype Call = Call(seconds: Seconds, raised: bool, code: int, split: bool, state: string, health: string)

  /** Docker's answer to every call, in order. */
  type Docker = nat -> Call

  /** No call takes longer than `d` seconds. */
  ghost predicate Prompt(docker: Docker, d: real) { forall n: nat :: docker(n).seconds <= d }

  function Look(c: Call): Attempt<(string, string)> {
    if c.raised then Raised
    else if c.code != 0 then Returned(("not_found", "unknown"))
    else if !c.split then Returned(("unknown", "unknown"))
    else Returned((c.state, c.health))
  }

  function Status(c: Call): Attempt<int> { if c.raised then Raised else Returned(c.code) }

  /** What an operation returned, the next call it leaves, and the seconds it took. */
  datatype Span<T> = Span(result: Attempt<T>, calls: nat, seconds: real)

  /** The stop wait, `at` seconds into it. */
  function StopWait(docker: Docker, n: nat, at: real): Span<bool>
    decreases STOP_TIMEOUT_SECONDS - at
  {
    if at >= STOP_TIMEOUT_SECONDS then Span(Returned(false), n, at)
    else
      var t := at + docker(n).seconds;
      match Look(docker(n))
      case Raised => Span(Raised, n + 1, t)
      case Returned(seen) =>
        if StoppedState(seen.0) then Span(Returned(true), n + 1, t) else StopWait(docker, n + 1, t + 1.0)
  }

  /** The health wait, `at` seconds into it. */
  function HealthWait(docker: Docker, n: nat, at: real): Span<bool>
    decreases START_TIMEOUT_SECONDS - at
  {
    if at >= START_TIMEOUT_SECONDS then Span(Returned(false), n, at)
    else
      var t := at + docker(n).seconds;
      match Look(docker(n))
      case Raised => Span(Raised, n + 1, t)
      case Returned(seen) =>
        if seen.0 == "running" && seen.1 == "healthy" then Span(Returned(true), n + 1, t)
        else if seen.0 in {"exited", "dead", "not_found"} then Span(Returned(false), n + 1, t)
        else HealthWait(docker, n + 1, t + 2.0)
  }

  /** A wait that follows `before` seconds, as the outcome it decides. */
  function Decided(w: Span<bool>, before: real, found: string, timedOut: string): Span<Outcome> {
    Span(if w.result.Raised? then Raised
         else Returned(if w.result.value then Outcome(true, found) else Outcome(false, timedOut)),
         w.calls, before + w.seconds)
  }

  function Stop(docker: Docker, n: nat): Span<Outcome> {
    var look, t := Look(docker(n)), docker(n).seconds;
    if look.Raised? then Span(Raised, n + 1, t)
    else if StoppedState(look.value.0) then Span(Returned(Outcome(true, "stopped")), n + 1, t)
    else
      var status, u := Status(docker(n + 1)), t + docker(n + 1).seconds;
      if status.Raised? then Span(Raised, n + 2, u)
      else if status.value != 0 then Span(Returned(Outcome(false, "docker_term_failed")), n + 2, u)
      else Decided(StopWait(docker, n + 2, 0.0), u, "stopped", "graceful_stop_timeout")
  }

  function Start(docker: Docker, n: nat): Span<Outcome> {
    var look, t := Look(docker(n)), docker(n).seconds;
    if look.Raised? then Span(Raised, n + 1, t)
    else if look.value.0 == "running" && look.value.1 == "healthy" then
      Span(Returned(Outcome(true, "health_gate_passed")), n + 1, t)
    else if look.value.0 == "running" then Span(Returned(Outcome(false, "preexisting_unhealthy")), n + 1, t)
    else
      var status, u := Status(docker(n + 1)), t + docker(n + 1).seconds;
      if status.Raised? then Span(Raised, n + 2, u)
      else if status.value != 0 then Span(Returned(Outcome(false, "docker_start_failed")), n + 2, u)
      else Decided(HealthWait(docker, n + 2, 0.0), u, "health_gate_passed", "health_gate_failed")
  }

  function Reported(s: Span<Outcome>, phase: string): Span<Report> {
    Span(if s.result.Raised? then Raised else Returned(ReportOf(s.result.value, phase)), s.calls, s.seconds)
  }

  /** An action whose first docker call is the `n`-th. */
  function Act(docker: Docker, action: Action, n: nat): Span<Report> {
    match action
    case StartBackend => Reported(Start(docker, n), "health_gate_passed")
    case StopBackend => Reported(Stop(docker, n), "stopped")
    case RestartBackend =>
      var stopped := Stop(docker, n);
      if stopped.result.Raised? || !stopped.result.value.ok then Reported(stopped, "stopped")
      else
        var started := Reported(Start(docker, stopped.calls), "health_gate_passed");
        started.(seconds := stopped.seconds + started.seconds)
  }

  // ---- At most

  /** The seconds of `k` looks of `c` seconds, sleep included. */
  function Rounds(k: nat, c: real): real { k as real * c }

  lemma {:induction false} RoundsStep(k: nat, c: real)
    ensures Rounds(k + 1, c) == Rounds(k, c) + c
  {
  }

  lemma {:induction false} RoundsGrow(k: nat, n: nat, c: real)
    requires k <= n && 0.0 <= c
    ensures 0.0 <= Rounds(k, c) <= Rounds(n, c)
  {
    if 0 < k && 0.0 < c { ProductPositive(k as real, c); }
    if k < n && 0.0 < c { ProductPositive(n as real - k as real, c); }
  }

  /** After `k` looks the stop wait has taken `k` sleeps and at most `k` calls. */
  lemma {:induction false} StopWaitAtMost(docker: Docker, n: nat, at: real, k: nat, d: real)
    requires Prompt(docker, d) && 0.0 <= d && k <= 60
    requires k as real <= at <= Rounds(k, 1.0 + d) && at < 61.0 + d
    ensures var w := StopWait(docker, n, at);
            && at <= w.seconds < 61.0 + d && w.seconds <= 60.0 + 60.0 * d
            && (w.result != Returned(false) ==> w.seconds < 60.0 + d && w.seconds <= 59.0 + 60.0 * d)
    decreases 60 - k
  {
    SixtyRounds(1.0, d);
    RoundsGrow(k, 60, 1.0 + d);
    if at < STOP_TIMEOUT_SECONDS {
      var t := at + docker(n).seconds;
      assert docker(n).seconds <= d;
      RoundsStep(k, 1.0 + d);
      RoundsGrow(k, 59, 1.0 + d);
      hide Rounds, Prompt;
      if Look(docker(n)).Returned? && !StoppedState(Look(docker(n)).value.0) {
        assert StopWait(docker, n, at) == StopWait(docker, n + 1, t + 1.0);
        StopWaitAtMost(docker, n + 1, t + 1.0, k + 1, d);
      } else {
        assert StopWait(docker, n, at).seconds == t && StopWait(docker, n, at).result != Returned(false);
      }
    }
    hide Rounds, Prompt;
  }

  lemma {:induction false} SixtyRounds(sleep: real, d: real)
    ensures Rounds(59, sleep + d) == 59.0 * sleep + 59.0 * d && Rounds(60, sleep + d) == 60.0 * sleep + 60.0 * d
  {
  }

  /** After `k` looks the health wait has taken `k` sleeps and at most `k` calls. */
  lemma {:induction false} HealthWaitAtMost(docker: Docker, n: nat, at: real, k: nat, d: real)
    requires Prompt(docker, d) && 0.0 <= d && k <= 60
    requires 2.0 * k as real <= at <= Rounds(k, 2.0 + d) && at < 122.0 + d
    ensures var w := HealthWait(docker, n, at); at <= w.seconds < 122.0 + d && w.seconds <= 120.0 + 60.0 * d
    decreases 60 - k
  {
    SixtyRounds(2.0, d);
    RoundsGrow(k, 60, 2.0 + d);
    if at < START_TIMEOUT_SECONDS {
      var seen, t := Look(docker(n)), at + docker(n).seconds;
      assert docker(n).seconds <= d;
      RoundsStep(k, 2.0 + d);
      RoundsGrow(k, 59, 2.0 + d);
      hide Rounds, Prompt;
      if seen.Returned? && seen.value != ("running", "healthy") && seen.value.0 !in {"exited", "dead", "not_found"} {
        assert HealthWait(docker, n, at) == HealthWait(docker, n + 1, t + 2.0);
        HealthWaitAtMost(docker, n + 1, t + 2.0, k + 1, d);
      } else {
        assert HealthWait(docker, n, at).seconds == t;
      }
    }
    hide Rounds, Prompt;
  }

  lemma {:induction false} StopAtMost(docker: Docker, n: nat, d: real)
    requires Prompt(docker, d) && 0.0 <= d
    ensures var s := Stop(docker, n);
            && 0.0 <= s.seconds < 61.0 + 3.0 * d && s.seconds <= 60.0 + 62.0 * d
            && (s.result.Returned? && s.result.value.ok ==> s.seconds < 60.0 + 3.0 * d && s.seconds <= 59.0 + 62.0 * d)
  {
    assert docker(n).seconds <= d && docker(n + 1).seconds <= d;
    StopWaitAtMost(docker, n + 2, 0.0, 0, d);
    hide StopWait, Prompt;
  }

  lemma {:induction false} StartAtMost(docker: Docker, n: nat, d: real)
    requires Prompt(docker, d) && 0.0 <= d
    ensures var s := Start(docker, n); 0.0 <= s.seconds < 122.0 + 3.0 * d && s.seconds <= 120.0 + 62.0 * d
  {
    assert docker(n).seconds <= d && docker(n + 1).seconds <= d;
    HealthWaitAtMost(docker, n + 2, 0.0, 0, d);
    hide HealthWait, Prompt;
  }

  /** Worst-case seconds of an action when no docker call takes longer than `d`. */
  function ActionBound(action: Action, d: real): real {
    match action
    case StartBackend => START_TIMEOUT_SECONDS + 2.0 + 3.0 * d
    case StopBackend => STOP_TIMEOUT_SECONDS + 1.0 + 3.0 * d
    case RestartBackend => STOP_TIMEOUT_SECONDS + START_TIMEOUT_SECONDS + 2.0 + 6.0 * d
  }

  /**
   Whether no run of the action with calls of at most `d` seconds takes `limit` seconds. The first case of each is the
   ordinary one; the others matter for calls of less than 2/59 and 1/59 seconds, too short to bring the last look of a
   wait right up to its deadline.
   */
  predicate Fits(action: Action, d: real, limit: real) {
    match action
    case StartBackend => 122.0 + 3.0 * d <= limit || 120.0 + 62.0 * d < limit
    case StopBackend => 61.0 + 3.0 * d <= limit || 60.0 + 62.0 * d < limit
    case RestartBackend => 182.0 + 6.0 * d <= limit || 180.0 + 65.0 * d <= limit || 179.0 + 124.0 * d < limit
  }

  ghost predicate AlwaysBefore(action: Action, d: real, limit: real) {
    forall docker: Docker, n: nat | Prompt(docker, d) :: Act(docker, action, n).seconds < limit
  }

  lemma {:induction false} FitsSuffices(docker: Docker, action: Action, n: nat, d: real, limit: real)
    requires Prompt(docker, d) && 0.0 <= d
    ensures 0.0 <= Act(docker, action, n).seconds < ActionBound(action, d)
    ensures Fits(action, d, limit) ==> Act(docker, action, n).seconds < limit
  {
    StopAtMost(docker, n, d);
    StartAtMost(docker, n, d);
    StartAtMost(docker, Stop(docker, n).calls, d);
    hide Stop, Start, Prompt;
  }

  // ---- And as much

  /** A call that answers after `seconds`: an inspection sees this state, a command succeeds. */
  function Answer(seconds: Seconds, state: string, health: string): Call {
    Call(seconds, false, 0, true, state, health)
  }

  /** A slow restart: 59 looks of `u` seconds before the stop is seen, and 59 of `v` before the health wait gives up. */
  function SlowRestart(d: Seconds, u: Seconds, v: Seconds): Docker {
    n => if n < 2 then Answer(d, "running", "none")
         else if n < 61 then Answer(u, "running", "none")
         else if n < 64 then Answer(d, "exited", "none")
         else if n < 123 then Answer(v, "running", "starting")
         else Answer(d, "running", "starting")
  }

  /** A stop that never comes: 59 looks of `u` seconds, and a last one of `d`. */
  function SlowStop(d: Seconds, u: Seconds): Docker {
    n => if 2 <= n < 61 then Answer(u, "running", "none") else Answer(d, "running", "none")
  }

  /** A start that never gets healthy: 59 looks of `v` seconds, and a last one of `d`. */
  function SlowStart(d: Seconds, v: Seconds): Docker {
    n => if n < 2 then Answer(d, "exited", "none")
         else if n < 61 then Answer(v, "running", "starting")
         else Answer(d, "running", "starting")
  }

  /** The stop wait looks past a run of calls that see the container running. */
  lemma {:induction false} StopWaitPasses(docker: Docker, n: nat, at: real, u: real, k: nat)
    requires 0.0 <= u && forall i | n <= i < n + k :: docker(i) == Answer(u, "running", "none")
    requires at + Rounds(k, 1.0 + u) < 61.0 + u
    ensures StopWait(docker, n, at) == StopWait(docker, n + k, at + Rounds(k, 1.0 + u))
    decreases k
  {
    if k > 0 {
      RoundsStep(k - 1, 1.0 + u);
      RoundsGrow(0, k - 1, 1.0 + u);
      hide Rounds;
      assert Look(docker(n)) == Returned(("running", "none"));
      assert StopWait(docker, n, at) == StopWait(docker, n + 1, at + u + 1.0);
      StopWaitPasses(docker, n + 1, at + u + 1.0, u, k - 1);
    }
  }

  /** The health wait looks past a run of calls that see the container starting. */
  lemma {:induction false} HealthWaitPasses(docker: Docker, n: nat, at: real, v: real, k: nat)
    requires 0.0 <= v && forall i | n <= i < n + k :: docker(i) == Answer(v, "running", "starting")
    requires at + Rounds(k, 2.0 + v) < 122.0 + v
    ensures HealthWait(docker, n, at) == HealthWait(docker, n + k, at + Rounds(k, 2.0 + v))
    decreases k
  {
    if k > 0 {
      RoundsStep(k - 1, 2.0 + v);
      RoundsGrow(0, k - 1, 2.0 + v);
      hide Rounds;
      assert Look(docker(n)) == Returned(("running", "starting"));
      assert HealthWait(docker, n, at) == HealthWait(docker, n + 1, at + v + 2.0);
      HealthWaitPasses(docker, n + 1, at + v + 2.0, v, k - 1);
    }
  }

  /** A stop wait whose last look starts before the deadline and never sees the container stopped. */
  lemma {:induction false} SlowStopWait(docker: Docker, n: nat, u: Seconds, d: Seconds)
    requires 59.0 * u < 1.0 && forall i | n <= i < n + 59 :: docker(i) == Answer(u, "running", "none")
    requires docker(n + 59) == Answer(d, "running", "none")
    ensures StopWait(docker, n, 0.0) == Span(Returned(false), n + 60, 60.0 + 59.0 * u + d)
  {
    var at := 59.0 + 59.0 * u;
    SixtyRounds(1.0, u);
    StopWaitPasses(docker, n, 0.0, u, 59);
    hide Rounds;
    assert Look(docker(n + 59)) == Returned(("running", "none"));
    assert StopWait(docker, n + 60, at + d + 1.0) == Span(Returned(false), n + 60, at + d + 1.0);
    assert StopWait(docker, n + 59, at) == StopWait(docker, n + 60, at + d + 1.0);
  }

  /** A stop wait that sees the container stopped at its last look. */
  lemma {:induction false} LateStopWait(docker: Docker, n: nat, u: Seconds, d: Seconds)
    requires 59.0 * u < 1.0 && forall i | n <= i < n + 59 :: docker(i) == Answer(u, "running", "none")
    requires docker(n + 59) == Answer(d, "exited", "none")
    ensures StopWait(docker, n, 0.0) == Span(Returned(true), n + 60, 59.0 + 59.0 * u + d)
  {
    var at := 59.0 + 59.0 * u;
    SixtyRounds(1.0, u);
    StopWaitPasses(docker, n, 0.0, u, 59);
    hide Rounds;
    assert Look(docker(n + 59)) == Returned(("exited", "none"));
    assert StopWait(docker, n + 59, at) == Span(Returned(true), n + 60, at + d);
  }

  lemma {:induction false} SlowHealthWait(docker: Docker, n: nat, v: Seconds, d: Seconds)
    requires 59.0 * v < 2.0 && forall i | n <= i < n + 59 :: docker(i) == Answer(v, "running", "starting")
    requires docker(n + 59) == Answer(d, "running", "starting")
    ensures HealthWait(docker, n, 0.0) == Span(Returned(false), n + 60, 120.0 + 59.0 * v + d)
  {
    var at := 118.0 + 59.0 * v;
    SixtyRounds(2.0, v);
    HealthWaitPasses(docker, n, 0.0, v, 59);
    hide Rounds;
    assert Look(docker(n + 59)) == Returned(("running", "starting"));
    assert HealthWait(docker, n + 60, at + d + 2.0) == Span(Returned(false), n + 60, at + d + 2.0);
    assert HealthWait(docker, n + 59, at) == HealthWait(docker, n + 60, at + d + 2.0);
  }

  lemma {:induction false} SlowStopTakes(d: Seconds, u: Seconds)
    requires u <= d && 59.0 * u < 1.0
    ensures Prompt(SlowStop(d, u), d) && Act(SlowStop(d, u), StopBackend, 0).seconds == 60.0 + 3.0 * d + 59.0 * u
  {
    var docker := SlowStop(d, u);
    SlowStopWait(docker, 2, u, d);
    assert docker(0) == docker(1) == Answer(d, "running", "none");
    hide StopWait;
  }

  lemma {:induction false} SlowStartTakes(d: Seconds, v: Seconds)
    requires v <= d && 59.0 * v < 2.0
    ensures Prompt(SlowStart(d, v), d) && Act(SlowStart(d, v), StartBackend, 0).seconds == 120.0 + 3.0 * d + 59.0 * v
  {
    var docker := SlowStart(d, v);
    SlowHealthWait(docker, 2, v, d);
    assert docker(0) == docker(1) == Answer(d, "exited", "none");
    hide HealthWait;
  }

  lemma {:induction false} SlowRestartStops(d: Seconds, u: Seconds, v: Seconds)
    requires 59.0 * u < 1.0
    ensures Stop(SlowRestart(d, u, v), 0) == Span(Returned(Outcome(true, "stopped")), 62, 59.0 + 3.0 * d + 59.0 * u)
  {
    var docker := SlowRestart(d, u, v);
    LateStopWait(docker, 2, u, d);
    assert docker(0) == docker(1) == Answer(d, "running", "none");
    hide StopWait;
  }

  lemma {:induction false} SlowRestartStarts(d: Seconds, u: Seconds, v: Seconds)
    requires 59.0 * v < 2.0
    ensures Start(SlowRestart(d, u, v), 62).seconds == 120.0 + 3.0 * d + 59.0 * v
  {
    var docker := SlowRestart(d, u, v);
    SlowHealthWait(docker, 64, v, d);
    assert docker(62) == docker(63) == Answer(d, "exited", "none");
    hide HealthWait;
  }

  lemma {:induction false} SlowRestartTakes(d: Seconds, u: Seconds, v: Seconds)
    requires u <= d && v <= d && 59.0 * u < 1.0 && 59.0 * v < 2.0
    ensures Prompt(SlowRestart(d, u, v), d)
    ensures Act(SlowRestart(d, u, v), RestartBackend, 0).seconds == 179.0 + 6.0 * d + 59.0 * (u + v)
  {
    SlowRestartStops(d, u, v);
    SlowRestartStarts(d, u, v);
    hide Stop, Start;
    forall n: nat ensures SlowRestart(d, u, v)(n).seconds <= d {
      var call := SlowRestart(d, u, v)(n);
      if n < 2 { assert call == Answer(d, "running", "none"); }
      else if n < 61 { assert call == Answer(u, "running", "none"); }
      else if n < 64 { assert call == Answer(d, "exited", "none"); }
      else if n < 123 { assert call == Answer(v, "running", "starting"); }
      else { assert call == Answer(d, "running", "starting"); }
    }
  }

  /** When the condition fails, some run with calls of at most `d` seconds takes at least `limit` seconds. */
  lemma {:induction false} SlowRun(action: Action, d: Seconds, limit: real) returns (docker: Docker)
    requires !Fits(action, d, limit)
    ensures Prompt(docker, d) && Act(docker, action, 0).seconds >= limit
  {
    hide Prompt, Act;
    match action
    case StartBackend =>
      var v: real := if 59.0 * d < 2.0 then d else Fraction(limit - 120.0 - 3.0 * d, 59.0);
      docker := SlowStart(d, v);
      SlowStartTakes(d, v);
    case StopBackend =>
      var u: real := if 59.0 * d < 1.0 then d else Fraction(limit - 60.0 - 3.0 * d, 59.0);
      docker := SlowStop(d, u);
      SlowStopTakes(d, u);
    case RestartBackend =>
      var missing := limit - 179.0 - 6.0 * d;
      var u: real := if 59.0 * d < 1.0 then d
                     else if 59.0 * d < 2.0 then Fraction(missing - 59.0 * d, 59.0)
                     else Fraction(missing, 177.0);
      var v: real := if 59.0 * d < 2.0 then d else 2.0 * u;
      docker := SlowRestart(d, u, v);
      SlowRestartTakes(d, u, v);
  }

  /** `n / q`, or nothing for a negative `n`. */
  function Fraction(n: real, q: real): (r: real)
    requires q > 0.0
    ensures 0.0 <= r && n <= q * r && (n <= 0.0 ==> r == 0.0) && (n > 0.0 ==> q * r == n)
  {
    if n <= 0.0 then 0.0
    else
      QuotientCompares(n, q, 0.0);
      n / q
  }

  /**
   All runs of an action with docker calls of at most `d` seconds end before a limit exactly when the condition holds:
   for a restart with calls of 2/59 seconds or more, exactly when 182 + 6d is within the limit.
   */
  lemma {:induction false} EndsBefore(action: Action, d: Seconds, limit: real)
    ensures AlwaysBefore(action, d, limit) <==> Fits(action, d, limit)
    ensures action.RestartBackend? && 59.0 * d >= 2.0 ==> (AlwaysBefore(action, d, limit) <==> 182.0 + 6.0 * d <= limit)
  {
    if Fits(action, d, limit) {
      forall docker: Docker, n: nat | Prompt(docker, d) ensures Act(docker, action, n).seconds < limit {
        FitsSuffices(docker, action, n, d, limit);
      }
    } else {
      var docker := SlowRun(action, d, limit);
    }
    hide Prompt, Act;
  }

  const RESULT_TIMEOUT_SECONDS := 225.0
  const MAX_RESULT_TIMEOUT_SECONDS := 240.0

  /**
   All actions end before the worker's default result timeout exactly while docker calls take at most 43/6 seconds.
   */
  lemma {:induction false} EndsBeforeWorkerTimeout(d: Seconds)
    ensures (forall action :: AlwaysBefore(action, d, RESULT_TIMEOUT_SECONDS)) <==> d <= 43.0 / 6.0
  {
    forall action ensures AlwaysBefore(action, d, RESULT_TIMEOUT_SECONDS) <==> Fits(action, d, RESULT_TIMEOUT_SECONDS) {
      EndsBefore(action, d, RESULT_TIMEOUT_SECONDS);
    }
    hide AlwaysBefore;
    assert Fits(RestartBackend, d, RESULT_TIMEOUT_SECONDS) <==> d <= 43.0 / 6.0;
  }

  /**
   Some restart outlasts the largest result timeout the worker accepts exactly if calls may take more than 29/3
   seconds.
   */
  lemma {:induction false} OutlastsWorker(d: Seconds)
    ensures (exists docker: Docker, n: nat ::
               Prompt(docker, d) && Act(docker, RestartBackend, n).seconds > MAX_RESULT_TIMEOUT_SECONDS) <==>
            d > 29.0 / 3.0
  {
    if d > 29.0 / 3.0 {
      var limit := 181.0 + 6.0 * d;
      var longer := if limit > MAX_RESULT_TIMEOUT_SECONDS then limit
                    else (MAX_RESULT_TIMEOUT_SECONDS + 182.0 + 6.0 * d) / 2.0;
      var docker := SlowRun(RestartBackend, d, longer);
      assert Prompt(docker, d) && Act(docker, RestartBackend, 0).seconds > MAX_RESULT_TIMEOUT_SECONDS;
    } else {
      EndsBefore(RestartBackend, d, MAX_RESULT_TIMEOUT_SECONDS);
    }
    hide Prompt, Act;
  }
}
