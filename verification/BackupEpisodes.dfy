/**
 The incident episodes of one backup target, derived from its runs
 (apps/web/lib/unified-incidents.ts).
 */
module BackupEpisodes {
  import opened Wrappers
  import opened Sorting
  import opened ContainerEvents

  datatype BackupSignal = RunFailure | Checksum

  /** What is known from before the range. */
  datatype Context = Context(
    failureStartedAt: Option<int>, consecutiveFailureCount: nat, checksumStartedAt: Option<int>, relatedRunCount: nat)

  /** A finished run: it succeeded or failed. */
  datatype Run = Run(rowId: int, completedAt: int, failed: bool, failureCode: Option<string>,
                     sha256Verified: Option<bool>)

  datatype BackupEpisode = BackupEpisode(startedAt: int, severity: Severity, eventCount: nat)

  datatype BackupState = BackupState(active: set<BackupSignal>, episode: Option<BackupEpisode>, failures: nat)

  datatype BackupRecovered = BackupRecovered(
    startedAt: int, recoveredAt: int, severity: Severity, durationSeconds: int, eventCount: nat)

  predicate ChecksumFails(r: Run) {
    r.failureCode == Some("checksum_failed") || (!r.failed && r.sha256Verified == Some(false))
  }

  predicate Verifies(r: Run) { !r.failed && r.sha256Verified == Some(true) }

  function Earliest(a: Option<int>, b: Option<int>): Option<int> {
    if a.None? then b else if b.None? then a else if a.value <= b.value then a else b
  }

  function Seed(context: Option<Context>): BackupState {
    if context.None? then BackupState({}, None, 0) else
      var c := context.value;
      var active := (if c.failureStartedAt.Some? then {RunFailure} else {})
                  + (if c.checksumStartedAt.Some? then {Checksum} else {});
      var startedAt := Earliest(c.failureStartedAt, c.checksumStartedAt);
      if startedAt.None? then BackupState(active, None, 0)
      else
        var severity := if c.checksumStartedAt.Some? || c.consecutiveFailureCount >= 2 then Critical else Warning;
        BackupState(active, Some(BackupEpisode(startedAt.value, severity, c.relatedRunCount)),
                    c.consecutiveFailureCount)
  }

  // ---- One run

  function Alarm(episode: Option<BackupEpisode>, at: int, severity: Severity): BackupEpisode {
    if episode.None? then BackupEpisode(at, severity, 0)
    else episode.value.(severity := MaxSeverity(episode.value.severity, severity))
  }

  function AfterFailure(s: BackupState, r: Run): BackupState {
    if r.failed then
      BackupState(s.active + {RunFailure},
                  Some(Alarm(s.episode, r.completedAt, if s.failures + 1 >= 2 then Critical else Warning)),
                  s.failures + 1)
    else s
  }

  function AfterChecksum(s: BackupState, r: Run): BackupState {
    if ChecksumFails(r) then s.(active := s.active + {Checksum},
                                episode := Some(Alarm(s.episode, r.completedAt, Critical)))
    else s
  }

  function AfterSuccess(s: BackupState, r: Run): BackupState {
    if r.failed then s
    else s.(active := s.active - {RunFailure} - (if Verifies(r) then {Checksum} else {}), failures := 0)
  }

  predicate Transitioned(s: BackupState, r: Run) {
    || r.failed || ChecksumFails(r) || RunFailure in s.active
    || (Verifies(r) && (ChecksumFails(r) || Checksum in s.active))
  }

  function StepRun(s: BackupState, r: Run, rangeStart: int): (BackupState, Option<BackupRecovered>) {
    CloseRun(AfterSuccess(AfterChecksum(AfterFailure(s, r), r), r), Transitioned(s, r), r, rangeStart)
  }

  /** The end of a run: the event is counted, and the episode closed if a success leaves no signal on. */
  function CloseRun(t: BackupState, transitioned: bool, r: Run,
                    rangeStart: int): (BackupState, Option<BackupRecovered>) {
    if t.episode.None? then (t, None) else
      var e := if transitioned then t.episode.value.(eventCount := t.episode.value.eventCount + 1) else t.episode.value;
      if t.active != {} || r.failed then (t.(episode := Some(e)), None)
      else
        (t.(episode := None),
         if r.completedAt >= e.startedAt && r.completedAt >= rangeStart
         then Some(BackupRecovered(e.startedAt, r.completedAt, e.severity, (r.completedAt - e.startedAt) / 1000,
                                   e.eventCount))
         else None)
  }

  /** The record the source mutates run by run. */
  class SignalState {
    var activeSignals: set<BackupSignal>
    var episode: Option<BackupEpisode>
    var consecutiveFailures: nat

    function View(): BackupState
      reads this
    {
      BackupState(activeSignals, episode, consecutiveFailures)
    }

    constructor (context: Option<Context>)
      ensures View() == Seed(context)
    {
      var seed := Seed(context);
      activeSignals, episode, consecutiveFailures := seed.active, seed.episode, seed.failures;
    }

    method Process(run: Run, rangeStart: int) returns (recovered: Option<BackupRecovered>)
      modifies this
      ensures (View(), recovered) == StepRun(old(View()), run, rangeStart)
    {
      ghost var before := View();
      var transitioned := false;
      if run.failed {
        consecutiveFailures := consecutiveFailures + 1;
        activeSignals := activeSignals + {RunFailure};
        var severity := if consecutiveFailures >= 2 then Critical else Warning;
        if episode.None? {
          episode := Some(BackupEpisode(run.completedAt, severity, 0));
        } else {
          episode := Some(episode.value.(severity := MaxSeverity(episode.value.severity, severity)));
        }
        transitioned := true;
      }
      ghost var failed := AfterFailure(before, run);
      assert View() == failed;
      hide AfterFailure;
      if run.failureCode == Some("checksum_failed") || (!run.failed && run.sha256Verified == Some(false)) {
        activeSignals := activeSignals + {Checksum};
        if episode.None? {
          episode := Some(BackupEpisode(run.completedAt, Critical, 0));
        } else {
          episode := Some(episode.value.(severity := Critical));
        }
        transitioned := true;
      }
      ghost var checked := AfterChecksum(failed, run);
      assert View() == checked;
      hide AfterChecksum, Alarm;
      if !run.failed {
        consecutiveFailures := 0;
        if RunFailure in activeSignals {
          activeSignals := activeSignals - {RunFailure};
          transitioned := true;
        }
        if run.sha256Verified == Some(true) && Checksum in activeSignals {
          activeSignals := activeSignals - {Checksum};
          transitioned := true;
        }
      }
      ghost var settled := AfterSuccess(checked, run);
      assert activeSignals == settled.active;
      assert View() == settled;
      assert transitioned == Transitioned(before, run);
      assert StepRun(before, run, rangeStart) == CloseRun(settled, transitioned, run, rangeStart);
      hide AfterSuccess, Transitioned;
      if episode.Some? && transitioned {
        episode := Some(episode.value.(eventCount := episode.value.eventCount + 1));
      }
      if episode.None? || activeSignals != {} || run.failed { return None; }
      var closed := episode.value;
      recovered := None;
      if run.completedAt >= closed.startedAt && run.completedAt >= rangeStart {
        recovered := Some(BackupRecovered(closed.startedAt, run.completedAt, closed.severity,
                                          (run.completedAt - closed.startedAt) / 1000, closed.eventCount));
      }
      episode := None;
    }
  }

  // ---- All runs

  predicate RunsNoLater(a: Run, b: Run) {
    a.completedAt < b.completedAt || (a.completedAt == b.completedAt && a.rowId <= b.rowId)
  }

  function SortedRuns(runs: seq<Run>): seq<Run> { Sort(runs, RunsNoLater) }

  /** The runs by time of completion, those of one instant by their row. */
  lemma {:induction false} SortedRunsMeaning(runs: seq<Run>)
    ensures multiset(SortedRuns(runs)) == multiset(runs)
    ensures var sorted := SortedRuns(runs);
            forall i, j | 0 <= i < j < |sorted| ::
              || sorted[i].completedAt < sorted[j].completedAt
              || (sorted[i].completedAt == sorted[j].completedAt && sorted[i].rowId <= sorted[j].rowId)
  {
    SortSorts(runs, RunsNoLater);
    var sorted := SortedRuns(runs);
    assert forall i, j | 0 <= i < j < |sorted| :: RunsNoLater(sorted[i], sorted[j]);
    hide Sort;
  }

  function Derive(context: Option<Context>, sorted: seq<Run>, rangeStart: int): (BackupState, seq<BackupRecovered>) {
    if sorted == [] then (Seed(context), []) else
      var (s, rs) := Derive(context, sorted[..|sorted| - 1], rangeStart);
      var (t, r) := StepRun(s, sorted[|sorted| - 1], rangeStart);
      (t, if r.Some? then rs + [r.value] else rs)
  }

  method DeriveRunEpisodes(context: Option<Context>, runs: seq<Run>, rangeStart: int)
    returns (recovered: seq<BackupRecovered>, state: BackupState)
    ensures (state, recovered) == Derive(context, SortedRuns(runs), rangeStart)
  {
    var sorted := SortedRuns(runs);
    var current := new SignalState(context);
    recovered := [];
    var k := 0;
    while k < |sorted|
      invariant 0 <= k <= |sorted|
      invariant (current.View(), recovered) == Derive(context, sorted[..k], rangeStart)
    {
      assert sorted[..k + 1][..k] == sorted[..k];
      var closed := current.Process(sorted[k], rangeStart);
      if closed.Some? { recovered := recovered + [closed.value]; }
      k := k + 1;
    }
    assert sorted[..k] == sorted;
    state := current.View();
  }

  // ---- What is known from before the range

  predicate SeededFailure(context: Option<Context>) { context.Some? && context.value.failureStartedAt.Some? }

  predicate SeededChecksum(context: Option<Context>) { context.Some? && context.value.checksumStartedAt.Some? }

  /** The earlier of the two starts the context knows of. */
  predicate SeededSince(context: Option<Context>, at: int) {
    && context.Some?
    && Some(at) in {context.value.failureStartedAt, context.value.checksumStartedAt}
    && (SeededFailure(context) ==> at <= context.value.failureStartedAt.value)
    && (SeededChecksum(context) ==> at <= context.value.checksumStartedAt.value)
  }

  /** The failed runs in a row before the range, as far as they belong to an episode. */
  function SeededFailures(context: Option<Context>): nat {
    if SeededFailure(context) || SeededChecksum(context) then context.value.consecutiveFailureCount else 0
  }

  /** An episode is open from the start iff either trouble is known of; it began with the earlier. */
  lemma {:induction false} SeedMeaning(context: Option<Context>)
    ensures var s := Seed(context);
            && (RunFailure in s.active <==> SeededFailure(context))
            && (Checksum in s.active <==> SeededChecksum(context))
            && (s.episode.Some? <==> SeededFailure(context) || SeededChecksum(context))
            && s.failures == SeededFailures(context)
            && (s.episode.Some? ==>
                  && SeededSince(context, s.episode.value.startedAt)
                  && s.episode.value.eventCount == context.value.relatedRunCount
                  && (s.episode.value.severity == Critical <==>
                      SeededChecksum(context) || context.value.consecutiveFailureCount >= 2))
  {
  }

  // ---- What holds after every run

  /**
   An episode is open iff a signal is; it is critical iff the checksum signal is
   on or the last two runs failed; without one, no failure is being counted.
   */
  predicate Sound(s: BackupState) {
    && (s.episode.Some? <==> s.active != {})
    && (s.episode.Some? ==> (s.episode.value.severity == Critical <==> Checksum in s.active || s.failures >= 2))
    && (s.episode.None? ==> s.failures == 0)
  }

  lemma {:induction false} SeedSound(context: Option<Context>)
    ensures Sound(Seed(context))
  {
    if context.Some? && context.value.failureStartedAt.Some? { assert RunFailure in Seed(context).active; }
    if context.Some? && context.value.checksumStartedAt.Some? { assert Checksum in Seed(context).active; }
  }

  lemma {:induction false} StepSound(s: BackupState, r: Run, rangeStart: int)
    requires Sound(s)
    ensures Sound(StepRun(s, r, rangeStart).0)
  {
    var t := StepRun(s, r, rangeStart).0;
    if t.active == {} {
      assert RunFailure !in t.active;
    } else {
      var x :| x in t.active;
      assert x == RunFailure || x == Checksum;
    }
  }

  lemma {:induction false} AlwaysSound(context: Option<Context>, sorted: seq<Run>, rangeStart: int)
    ensures Sound(Derive(context, sorted, rangeStart).0)
  {
    if sorted == [] {
      SeedSound(context);
    } else {
      AlwaysSound(context, sorted[..|sorted| - 1], rangeStart);
      StepSound(Derive(context, sorted[..|sorted| - 1], rangeStart).0, sorted[|sorted| - 1], rangeStart);
    }
  }

  // ---- The signals, from the runs alone

  ghost predicate LastFailures(runs: seq<Run>, n: nat) {
    && n <= |runs|
    && (forall j | |runs| - n <= j < |runs| :: runs[j].failed)
    && (n < |runs| ==> !runs[|runs| - n - 1].failed)
  }

  /** A checksum failure that no later verified run has cleared. */
  ghost predicate ChecksumPending(seeded: bool, runs: seq<Run>) {
    || (seeded && forall r | r in runs :: !Verifies(r))
    || exists i :: 0 <= i < |runs| && ChecksumFails(runs[i]) && forall j | i <= j < |runs| :: !Verifies(runs[j])
  }

  lemma {:induction false} ChecksumStep(seeded: bool, runs: seq<Run>, r: Run)
    ensures ChecksumPending(seeded, runs + [r]) <==> !Verifies(r) && (ChecksumFails(r) || ChecksumPending(seeded, runs))
  {
    var more := runs + [r];
    assert more[|runs|] == r && forall j | 0 <= j < |runs| :: more[j] == runs[j];
    assert forall x :: x in more <==> x in runs || x == r;
    if i :| !Verifies(r) && 0 <= i < |runs| && ChecksumFails(runs[i])
            && forall j | i <= j < |runs| :: !Verifies(runs[j])
    {
      assert ChecksumFails(more[i]) && forall j | i <= j < |more| :: !Verifies(more[j]);
    }
    if i :| 0 <= i < |more| && ChecksumFails(more[i]) && forall j | i <= j < |more| :: !Verifies(more[j]) {
      assert !Verifies(more[|runs|]);
      if i < |runs| {
        assert ChecksumFails(runs[i]) && forall j | i <= j < |runs| :: !Verifies(runs[j]);
      }
    }
  }

  lemma {:induction false} StepSignals(s: BackupState, r: Run, rangeStart: int)
    ensures var t := StepRun(s, r, rangeStart).0;
            && (RunFailure in t.active <==> r.failed)
            && (Checksum in t.active <==> !Verifies(r) && (ChecksumFails(r) || Checksum in s.active))
            && t.failures == if r.failed then s.failures + 1 else 0
  {
    assert RunFailure in s.active || RunFailure !in s.active;
  }

  lemma {:induction false} DeriveStep(context: Option<Context>, front: seq<Run>, r: Run, rangeStart: int)
    ensures Derive(context, front + [r], rangeStart).0 == StepRun(Derive(context, front, rangeStart).0, r, rangeStart).0
  {
    assert (front + [r])[..|front|] == front;
    hide StepRun, Seed;
  }

  lemma {:induction false} NothingPending(seeded: bool)
    ensures ChecksumPending(seeded, []) <==> seeded
  {
  }

  lemma {:induction false} DeriveNothing(context: Option<Context>, rangeStart: int)
    ensures Derive(context, [], rangeStart) == (Seed(context), [])
  {
    hide Seed, StepRun;
  }

  /** The two signals, read off the runs: the last one failed; a checksum failure is uncleared. */
  lemma {:induction false} SignalsMeaning(context: Option<Context>, sorted: seq<Run>, rangeStart: int)
    ensures var s := Derive(context, sorted, rangeStart).0;
            && (RunFailure in s.active <==>
                if sorted == [] then SeededFailure(context) else sorted[|sorted| - 1].failed)
            && (Checksum in s.active <==> ChecksumPending(SeededChecksum(context), sorted))
  {
    hide ChecksumPending, StepRun, Verifies, ChecksumFails, Seed, Derive;
    if sorted == [] {
      DeriveNothing(context, rangeStart);
      SeedMeaning(context);
      NothingPending(SeededChecksum(context));
    } else {
      var front, r := sorted[..|sorted| - 1], sorted[|sorted| - 1];
      assert sorted == front + [r];
      SignalsMeaning(context, front, rangeStart);
      DeriveStep(context, front, r, rangeStart);
      ChecksumStep(SeededChecksum(context), front, r);
      StepSignals(Derive(context, front, rangeStart).0, r, rangeStart);
    }
  }

  /** What one more run does to the signals, by its fields. */
  lemma {:induction false} SignalsAfter(context: Option<Context>, sorted: seq<Run>, r: Run, rangeStart: int)
    ensures var s, t := Derive(context, sorted, rangeStart).0, Derive(context, sorted + [r], rangeStart).0;
            && (RunFailure in t.active <==> r.failed)
            && (Checksum in t.active <==>
                if r.failed then r.failureCode == Some("checksum_failed") || Checksum in s.active
                else
                  && r.sha256Verified != Some(true)
                  && (|| r.failureCode == Some("checksum_failed") || r.sha256Verified == Some(false)
                      || Checksum in s.active))
            && t.failures == if r.failed then s.failures + 1 else 0
  {
    DeriveStep(context, sorted, r, rangeStart);
    StepSignals(Derive(context, sorted, rangeStart).0, r, rangeStart);
    hide StepRun, Derive;
  }

  /** The counter is the number of failed runs at the end, plus the seed's when all failed. */
  lemma {:induction false} FailuresMeaning(context: Option<Context>, sorted: seq<Run>, rangeStart: int) returns (n: nat)
    ensures LastFailures(sorted, n)
    ensures Derive(context, sorted, rangeStart).0.failures == n + if n == |sorted| then SeededFailures(context) else 0
  {
    SeedMeaning(context);
    if sorted == [] { return 0; }
    hide StepRun, Seed;
    var front, r := sorted[..|sorted| - 1], sorted[|sorted| - 1];
    n := FailuresMeaning(context, front, rangeStart);
    StepSignals(Derive(context, front, rangeStart).0, r, rangeStart);
    n := if r.failed then n + 1 else 0;
  }

  // ---- Recovered episodes

  predicate RunsOrdered(runs: seq<Run>) {
    forall i, j | 0 <= i < j < |runs| :: runs[i].completedAt <= runs[j].completedAt
  }

  ghost predicate EpisodesDisjoint(rs: seq<BackupRecovered>) {
    forall i, j | 0 <= i < j < |rs| :: rs[i].recoveredAt <= rs[j].startedAt
  }

  lemma {:induction false} DerivedDisjoint(context: Option<Context>, sorted: seq<Run>, rangeStart: int)
    requires RunsOrdered(sorted)
    ensures var (s, rs) := Derive(context, sorted, rangeStart);
            && EpisodesDisjoint(rs)
            && (rs != [] ==> sorted != [])
            && (forall r | r in rs ::
                  r.startedAt <= r.recoveredAt <= sorted[|sorted| - 1].completedAt && r.recoveredAt >= rangeStart)
            && (s.episode.Some? ==> forall r | r in rs :: r.recoveredAt <= s.episode.value.startedAt)
  {
    if sorted != [] {
      var front, r := sorted[..|sorted| - 1], sorted[|sorted| - 1];
      DerivedDisjoint(context, front, rangeStart);
      var (s, rs) := Derive(context, front, rangeStart);
      forall x | x in rs ensures x.recoveredAt <= r.completedAt {}
      hide Transitioned, ChecksumFails, Verifies;
      var (t, closed) := StepRun(s, r, rangeStart);
      assert t.episode.Some? ==>
          t.episode.value.startedAt == if s.episode.Some? then s.episode.value.startedAt else r.completedAt;
    }
  }

  /** Whatever the order runs arrive in, recovered episodes of a target come in time order and never overlap. */
  lemma {:induction false} RecoveredNeverOverlap(context: Option<Context>, runs: seq<Run>, rangeStart: int)
    ensures EpisodesDisjoint(Derive(context, SortedRuns(runs), rangeStart).1)
    ensures forall r | r in Derive(context, SortedRuns(runs), rangeStart).1 ::
              rangeStart <= r.recoveredAt && r.startedAt <= r.recoveredAt
  {
    SortSorts(runs, RunsNoLater);
    var sorted := SortedRuns(runs);
    assert forall i, j | 0 <= i < j < |sorted| :: RunsNoLater(sorted[i], sorted[j]);
    DerivedDisjoint(context, sorted, rangeStart);
  }

  // ---- Which episodes are recovered

  /** After the runs some signal is on. */
  ghost predicate Broken(context: Option<Context>, runs: seq<Run>) {
    || (if runs == [] then SeededFailure(context) else runs[|runs| - 1].failed)
    || ChecksumPending(SeededChecksum(context), runs)
  }

  /** The unbroken-to-broken step the present trouble began with, or the earlier start known from before. */
  ghost predicate TroubleSince(context: Option<Context>, runs: seq<Run>, at: int) {
    || ((forall j | 0 <= j <= |runs| :: Broken(context, runs[..j])) && SeededSince(context, at))
    || exists i :: TroubleBegins(context, runs, i) && at == runs[i].completedAt
  }

  ghost predicate TroubleBegins(context: Option<Context>, runs: seq<Run>, i: int) {
    0 <= i < |runs| && !Broken(context, runs[..i]) && forall j | i < j <= |runs| :: Broken(context, runs[..j])
  }

  lemma {:induction false} BrokenIsOpen(context: Option<Context>, sorted: seq<Run>, rangeStart: int)
    ensures var s := Derive(context, sorted, rangeStart).0;
            (Broken(context, sorted) <==> s.active != {}) && (s.episode.Some? <==> Broken(context, sorted))
  {
    hide ChecksumPending, Derive, Seed;
    SignalsMeaning(context, sorted, rangeStart);
    AlwaysSound(context, sorted, rangeStart);
    var s := Derive(context, sorted, rangeStart).0;
    if s.active != {} {
      var x :| x in s.active;
      assert x == RunFailure || x == Checksum;
    }
  }

  lemma {:induction false} StepStart(s: BackupState, r: Run, rangeStart: int)
    requires Sound(s)
    ensures var (t, closed) := StepRun(s, r, rangeStart);
            var start := if s.episode.Some? then s.episode.value.startedAt else r.completedAt;
            && (t.episode.Some? ==> t.episode.value.startedAt == start)
            && (if t.episode.None? && (s.episode.Some? || ChecksumFails(r))
                   && start <= r.completedAt && rangeStart <= r.completedAt
                then closed.Some? && closed.value.startedAt == start && closed.value.recoveredAt == r.completedAt
                     && closed.value.durationSeconds == (r.completedAt - start) / 1000
                     && (closed.value.severity == Critical <==>
                         Checksum in s.active || ChecksumFails(r) || s.failures >= 2)
                else closed.None?)
  {
    hide Transitioned;
    StepSound(s, r, rangeStart);
    StepSignals(s, r, rangeStart);
  }

  lemma {:induction false} TroubleStep(context: Option<Context>, front: seq<Run>, r: Run, at: int)
    requires Broken(context, front + [r])
    ensures TroubleSince(context, front, at) && Broken(context, front) ==> TroubleSince(context, front + [r], at)
    ensures !Broken(context, front) ==> TroubleSince(context, front + [r], r.completedAt)
  {
    hide Broken, Seed;
    var more := front + [r];
    assert forall j | 0 <= j <= |front| :: more[..j] == front[..j];
    assert more[..|front| + 1] == more && front[..|front|] == front && more[|front|] == r;
    if !Broken(context, front) {
      assert TroubleBegins(context, more, |front|);
    } else if i :| TroubleBegins(context, front, i) && at == front[i].completedAt {
      assert TroubleBegins(context, more, i) && at == more[i].completedAt;
    }
  }

  /** An open episode started with the run that broke what was whole, or with the seed. */
  lemma {:induction false} EpisodeStart(context: Option<Context>, sorted: seq<Run>, rangeStart: int)
    ensures var s := Derive(context, sorted, rangeStart).0;
            s.episode.Some? ==> TroubleSince(context, sorted, s.episode.value.startedAt)
  {
    BrokenIsOpen(context, sorted, rangeStart);
    if sorted == [] {
      SeedMeaning(context);
      assert sorted[..0] == sorted;
      hide Broken;
    } else {
      hide Broken, StepRun, Seed, Sound, TroubleSince, Derive;
      var front, r := sorted[..|sorted| - 1], sorted[|sorted| - 1];
      assert sorted == front + [r];
      EpisodeStart(context, front, rangeStart);
      BrokenIsOpen(context, front, rangeStart);
      AlwaysSound(context, front, rangeStart);
      DeriveStep(context, front, r, rangeStart);
      var s := Derive(context, front, rangeStart).0;
      StepStart(s, r, rangeStart);
      if Broken(context, sorted) {
        TroubleStep(context, front, r, if s.episode.Some? then s.episode.value.startedAt else r.completedAt);
      }
    }
  }

  /**
   One run recovers an episode exactly when it leaves no signal on and either something was broken before it or it
   itself reports a checksum failure, in order and in range; the episode is the one that was open.
   */
  lemma {:induction false} RecoveredExactly(context: Option<Context>, front: seq<Run>, r: Run, rangeStart: int)
    ensures var (s, rs) := Derive(context, front, rangeStart);
            var qs := Derive(context, front + [r], rangeStart).1;
            var start := if s.episode.Some? then s.episode.value.startedAt else r.completedAt;
            && (Broken(context, front) ==> TroubleSince(context, front, start))
            && (if !Broken(context, front + [r]) && (Broken(context, front) || ChecksumFails(r))
                   && start <= r.completedAt && rangeStart <= r.completedAt
                then |qs| == |rs| + 1 && qs[..|rs|] == rs
                     && qs[|rs|].startedAt == start && qs[|rs|].recoveredAt == r.completedAt
                     && qs[|rs|].durationSeconds == (r.completedAt - start) / 1000
                     && (qs[|rs|].severity == Critical <==> Checksum in s.active || ChecksumFails(r) || s.failures >= 2)
                else qs == rs)
  {
    assert (front + [r])[..|front|] == front;
    BrokenIsOpen(context, front, rangeStart);
    BrokenIsOpen(context, front + [r], rangeStart);
    EpisodeStart(context, front, rangeStart);
    AlwaysSound(context, front, rangeStart);
    StepStart(Derive(context, front, rangeStart).0, r, rangeStart);
    hide Broken, TroubleSince, StepRun, Sound, Seed, ChecksumFails;
  }
}
