/**
 How many runs an incident of a backup target counts, said of the runs alone
 (apps/web/lib/unified-incidents.ts).
 */
module BackupCounts {
  import opened Wrappers
  import opened ContainerEvents
  import opened BackupEpisodes

  /**
   The run failed, reported a checksum failure, was the first success after a failure, or verified what a checksum
   failure had left open.
   */
  ghost predicate RelatedRun(context: Option<Context>, runs: seq<Run>, j: int)
    requires 0 <= j < |runs|
  {
    || runs[j].failed
    || runs[j].failureCode == Some("checksum_failed") || runs[j].sha256Verified == Some(false)
    || (if j == 0 then SeededFailure(context) else runs[j - 1].failed)
    || (runs[j].sha256Verified == Some(true) && ChecksumPending(SeededChecksum(context), runs[..j]))
  }

  ghost function CountRuns(context: Option<Context>, runs: seq<Run>, i: int, n: int): int
    requires n <= |runs|
    decreases n
  {
    if n <= i || n <= 0 then 0
    else CountRuns(context, runs, i, n - 1) + if RelatedRun(context, runs, n - 1) then 1 else 0
  }

  /** The present trouble began with run `i`, or before the runs with `base` runs already counted. */
  ghost predicate CountsFrom(context: Option<Context>, runs: seq<Run>, i: int, base: int) {
    || (base == 0 && TroubleBegins(context, runs, i))
    || (i == 0 && context.Some? && base == context.value.relatedRunCount
        && forall j | 0 <= j <= |runs| :: Broken(context, runs[..j]))
  }

  lemma {:induction false} CountRunsKept(context: Option<Context>, front: seq<Run>, r: Run, i: int, n: int)
    requires n <= |front|
    ensures CountRuns(context, front + [r], i, n) == CountRuns(context, front, i, n)
    decreases n
  {
    if i < n && 0 < n {
      CountRunsKept(context, front, r, i, n - 1);
      assert (front + [r])[..n - 1] == front[..n - 1];
      hide ChecksumPending;
    }
  }

  lemma {:induction false} StepCount(s: BackupState, r: Run, rangeStart: int)
    requires Sound(s)
    ensures var (t, closed) := StepRun(s, r, rangeStart);
            var before := if s.episode.Some? then s.episode.value.eventCount else 0;
            var after := before + if Transitioned(s, r) then 1 else 0;
            && (t.episode.Some? ==> t.episode.value.eventCount == after)
            && (closed.Some? ==> closed.value.eventCount == after)
            && ((t.episode.Some? || closed.Some?) && s.episode.None? ==> after == 1)
  {
    StepSound(s, r, rangeStart);
  }

  lemma {:induction false} TransitionedMeaning(context: Option<Context>, front: seq<Run>, r: Run, rangeStart: int)
    ensures Transitioned(Derive(context, front, rangeStart).0, r) <==> RelatedRun(context, front + [r], |front|)
  {
    SignalsMeaning(context, front, rangeStart);
    assert (front + [r])[..|front|] == front;
    hide Derive, ChecksumPending;
  }

  /** The trouble goes on: it counts from where it did. */
  lemma {:induction false} CountsOn(context: Option<Context>, front: seq<Run>, r: Run, i: int, base: int)
    requires CountsFrom(context, front, i, base) && Broken(context, front + [r])
    ensures CountsFrom(context, front + [r], i, base)
  {
    assert forall j | 0 <= j <= |front| :: (front + [r])[..j] == front[..j];
    assert (front + [r])[..|front| + 1] == front + [r];
    hide Broken;
  }

  lemma {:induction false} CountsAnew(context: Option<Context>, front: seq<Run>, r: Run)
    requires !Broken(context, front) && Broken(context, front + [r])
    ensures CountsFrom(context, front + [r], |front|, 0)
  {
    assert (front + [r])[..|front|] == front && (front + [r])[..|front| + 1] == front + [r];
    hide Broken;
  }

  /** An open episode counts the related runs since it began, and what the context counted if it began before. */
  lemma {:induction false} EpisodeCounts(context: Option<Context>, sorted: seq<Run>, rangeStart: int)
    returns (i: int, base: int)
    ensures var s := Derive(context, sorted, rangeStart).0;
            s.episode.Some? ==>
              && CountsFrom(context, sorted, i, base)
              && s.episode.value.eventCount == base + CountRuns(context, sorted, i, |sorted|)
  {
    i, base := 0, 0;
    if sorted == [] {
      SeedMeaning(context);
      BrokenIsOpen(context, sorted, rangeStart);
      if context.Some? { base := context.value.relatedRunCount; }
      assert sorted[..0] == sorted;
      hide Broken;
    } else {
      hide Broken, StepRun, Seed, Sound, Derive, CountsFrom, Transitioned, RelatedRun;
      var front, r := sorted[..|sorted| - 1], sorted[|sorted| - 1];
      assert sorted == front + [r];
      i, base := EpisodeCounts(context, front, rangeStart);
      CountAfter(context, front, r, rangeStart);
      BrokenIsOpen(context, front, rangeStart);
      BrokenIsOpen(context, sorted, rangeStart);
      if Broken(context, sorted) {
        if Broken(context, front) {
          CountsOn(context, front, r, i, base);
        } else {
          CountsAnew(context, front, r);
          i, base := |front|, 0;
        }
        CountRunsKept(context, front, r, i, |front|);
        TroubleFrom(context, sorted, i, base);
      }
    }
  }

  lemma {:induction false} TroubleFrom(context: Option<Context>, runs: seq<Run>, i: int, base: int)
    requires CountsFrom(context, runs, i, base) && runs != []
    ensures 0 <= i < |runs|
  {
    hide Broken;
  }

  lemma {:induction false} CountAfter(context: Option<Context>, front: seq<Run>, r: Run, rangeStart: int)
    ensures var (s, rs) := Derive(context, front, rangeStart);
            var (t, qs) := Derive(context, front + [r], rangeStart);
            var before := if s.episode.Some? then s.episode.value.eventCount else 0;
            var after := before + if RelatedRun(context, front + [r], |front|) then 1 else 0;
            && (t.episode.Some? ==> t.episode.value.eventCount == after)
            && |rs| <= |qs| <= |rs| + 1
            && (|qs| > |rs| ==> qs[|rs|].eventCount == after && (s.episode.None? ==> after == 1))
            && (t.episode.Some? && s.episode.None? ==> after == 1)
  {
    assert (front + [r])[..|front|] == front;
    AlwaysSound(context, front, rangeStart);
    TransitionedMeaning(context, front, r, rangeStart);
    StepCount(Derive(context, front, rangeStart).0, r, rangeStart);
    hide Transitioned, RelatedRun, StepRun, Sound, Seed;
  }

  /**
   A recovered episode counts the related runs from where it began up to the one that recovers it, and what the
   context counted if it began before the runs. One that a single run opens and closes counts that run.
   */
  lemma {:induction false} RecoveredCounts(context: Option<Context>, front: seq<Run>, r: Run, rangeStart: int)
    returns (i: int, base: int)
    ensures var rs, qs := Derive(context, front, rangeStart).1, Derive(context, front + [r], rangeStart).1;
            |qs| > |rs| ==>
              qs[|rs|].eventCount == base + CountRuns(context, front + [r], i, |front| + 1)
              && if Broken(context, front) then CountsFrom(context, front, i, base) else i == |front| && base == 0
  {
    hide Broken, StepRun, Seed, Sound, Derive, CountsFrom, Transitioned, RelatedRun;
    BrokenIsOpen(context, front, rangeStart);
    CountAfter(context, front, r, rangeStart);
    i, base := EpisodeCounts(context, front, rangeStart);
    if Broken(context, front) {
      CountRunsKept(context, front, r, i, |front|);
      if front != [] { TroubleFrom(context, front, i, base); } else { StartsAtZero(context, i, base); }
    } else {
      i, base := |front|, 0;
    }
  }

  lemma {:induction false} StartsAtZero(context: Option<Context>, i: int, base: int)
    requires CountsFrom(context, [], i, base)
    ensures i == 0
  {
    hide Broken;
  }
}
