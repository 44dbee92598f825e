/**
 Which episodes the recovered-incident loop (apps/web/lib/incidents.ts) reports,
 said without the loop: an episode begins with an alarming event while nothing is
 open, lasts while something is and the expected state does not change, and ends
 with the event that leaves nothing open.
 */
module ContainerEpisodes {
  import opened Wrappers
  import opened ContainerEvents
  import opened ContainerIncidents

  ghost predicate NoneOpen(events: seq<Event>) { forall s :: !Open(events, s) }

  ghost predicate Begins(events: seq<Event>, i: int) {
    0 <= i < |events| && Alarms(events[i]) && (NoneOpen(events[..i]) || Changed(events[..i], events[i]))
  }

  /** The first `n` events leave the episode begun by event `i` running. */
  ghost predicate Lasts(events: seq<Event>, i: int, n: int) {
    && 0 <= i < n <= |events| && Begins(events, i)
    && (forall j | i < j < n :: !Changed(events[..j], events[j]))
    && (forall j | i < j <= n :: !NoneOpen(events[..j]))
  }

  /** Event `k` ends the episode begun by event `i` by leaving nothing open. */
  ghost predicate Ends(events: seq<Event>, i: int, k: int) {
    0 <= k < |events| && Lasts(events, i, k) && !Changed(events[..k], events[k]) && NoneOpen(events[..k + 1])
  }

  predicate Reported(events: seq<Event>, i: int, k: int, rangeStart: int)
    requires 0 <= i < |events| && 0 <= k < |events|
  {
    && events[i].at.Some? && events[k].at.Some?
    && events[i].at.value <= events[k].at.value && rangeStart <= events[k].at.value
  }

  /** The event alarms, or stops a signal open before it. */
  ghost predicate Related(events: seq<Event>, j: int)
    requires 0 <= j < |events|
  {
    Alarms(events[j]) || exists s :: Stops(events[j], s) && Open(events[..j], s)
  }

  ghost function CountRelated(events: seq<Event>, i: int, n: int): int
    requires n <= |events|
    decreases n
  {
    if n <= i || n <= 0 then 0 else CountRelated(events, i, n - 1) + if Related(events, n - 1) then 1 else 0
  }

  lemma {:induction false} PrefixesAgree(front: seq<Event>, e: Event)
    ensures forall j | 0 <= j <= |front| :: (front + [e])[..j] == front[..j]
    ensures forall j | 0 <= j < |front| :: (front + [e])[j] == front[j]
    ensures (front + [e])[..|front|] == front && (front + [e])[..|front| + 1] == front + [e]
  {
  }

  /** What one more event does to the episodes that last. */
  lemma {:induction false} LastsStep(front: seq<Event>, e: Event, i: int, n: int)
    ensures n <= |front| ==> (Lasts(front + [e], i, n) <==> Lasts(front, i, n))
    ensures Lasts(front + [e], i, |front| + 1) <==>
              if i == |front| then Alarms(e) && (NoneOpen(front) || Changed(front, e)) && !NoneOpen(front + [e])
              else Lasts(front, i, |front|) && !Changed(front, e) && !NoneOpen(front + [e])
  {
    hide NoneOpen, Changed, Alarms;
    PrefixesAgree(front, e);
    var more := front + [e];
    assert front[..|front|] == front;
    if 0 <= i < |front| {
      assert Begins(more, i) <==> Begins(front, i);
    }
  }

  lemma {:induction false} CountStep(front: seq<Event>, e: Event, i: int, n: int)
    requires n <= |front|
    ensures CountRelated(front + [e], i, n) == CountRelated(front, i, n)
    decreases n
  {
    if n > i && n > 0 {
      CountStep(front, e, i, n - 1);
      PrefixesAgree(front, e);
      assert Related(front + [e], n - 1) <==> Related(front, n - 1);
      hide Related;
    }
  }

  lemma {:induction false} NoneOpenIsEmpty(events: seq<Event>, rangeStart: int)
    ensures var p := Track(events, rangeStart);
            (NoneOpen(events) <==> p.active == {}) && (p.episode.None? <==> p.active == {})
  {
    SignalsAlways(events, rangeStart);
    hide Track, Open;
  }

  /** The loop's open episode is the one that lasts; no other does. Its event count is that of its related events. */
  lemma {:induction false} EpisodeExact(events: seq<Event>, rangeStart: int)
    ensures var p := Track(events, rangeStart);
            && (forall i :: Lasts(events, i, |events|) <==> p.episode.Some? && p.episode.value.first == i)
            && (p.episode.Some? ==> p.episode.value.eventCount == CountRelated(events, p.episode.value.first, |events|))
  {
    if events != [] {
      var front, e := events[..|events| - 1], events[|events| - 1];
      assert events == front + [e];
      EpisodeExact(front, rangeStart);
      NoneOpenIsEmpty(front, rangeStart);
      NoneOpenIsEmpty(events, rangeStart);
      var p, q := Track(front, rangeStart), Track(events, rangeStart);
      EpisodeStep(front, e, rangeStart);
      forall i ensures Lasts(events, i, |events|) <==> q.episode.Some? && q.episode.value.first == i {
        LastsStep(front, e, i, |front|);
        hide Track, Lasts, NoneOpen;
      }
      if q.episode.Some? {
        CountStep(front, e, q.episode.value.first, |front|);
        RelatedNow(front, e, rangeStart);
        hide Track, Lasts, NoneOpen, Related;
      }
    }
  }

  lemma {:induction false} RelatedNow(front: seq<Event>, e: Event, rangeStart: int)
    ensures Related(front + [e], |front|) <==>
            Alarms(e) || (IncidentSeverity(e).None? && ResolvesSignal(e) && SignalName(e).Some? &&
                          SignalName(e).value in Track(front, rangeStart).active)
  {
    SignalsAlways(front, rangeStart);
    assert (front + [e])[..|front|] == front;
    hide Track, Open;
  }

  /** One event and the loop's episode. */
  lemma {:induction false} EpisodeStep(front: seq<Event>, e: Event, rangeStart: int)
    requires var p := Track(front, rangeStart); p.episode.None? <==> p.active == {}
    ensures var p, q := Track(front, rangeStart), Track(front + [e], rangeStart);
            && (q.episode.Some? <==> q.active != {})
            && (q.episode.Some? ==>
                 if p.episode.None? || Changed(front, e) then
                   Alarms(e) && q.episode.value.first == |front| && q.episode.value.eventCount == 1
                 else
                   && q.episode.value.first == p.episode.value.first
                   && q.episode.value.eventCount == p.episode.value.eventCount +
                        if Alarms(e) || (ResolvesSignal(e) && SignalName(e).Some? && SignalName(e).value in p.active)
                        then 1 else 0)
            && (Alarms(e) ==> q.episode.Some?)
  {
    assert (front + [e])[..|front|] == front;
    hide SignalName, IncidentSeverity, ResolvesSignal, Changed;
  }

  ghost predicate ReportedPair(rs: seq<Recovered>, i: int, k: int) { exists r | r in rs :: r.first == i && r.last == k }

  /** What one more event does to the reported episodes. */
  lemma {:induction false} RecoveredStep(front: seq<Event>, e: Event, rangeStart: int)
    requires var p := Track(front, rangeStart); p.episode.None? <==> p.active == {}
    ensures var p, q := Track(front, rangeStart), Track(front + [e], rangeStart);
            var ends := p.episode.Some? && !Changed(front, e) && q.active == {};
            if ends && Reported(front + [e], p.episode.value.first, |front|, rangeStart) then
              && |q.recovered| == |p.recovered| + 1 && q.recovered[..|p.recovered|] == p.recovered
              && q.recovered[|p.recovered|].first == p.episode.value.first
              && q.recovered[|p.recovered|].last == |front|
              && q.recovered[|p.recovered|].eventCount == p.episode.value.eventCount + 1
              && !Alarms(e) && ResolvesSignal(e) && SignalName(e).Some? && SignalName(e).value in p.active
            else q.recovered == p.recovered
  {
    assert (front + [e])[..|front|] == front;
    hide SignalName, IncidentSeverity, ResolvesSignal, Changed;
  }

  lemma {:induction false} EndsStep(front: seq<Event>, e: Event, i: int, k: int, rangeStart: int)
    ensures k < |front| ==> (Ends(front + [e], i, k) <==> Ends(front, i, k))
    ensures Ends(front + [e], i, |front|) <==>
            var p, q := Track(front, rangeStart), Track(front + [e], rangeStart);
            p.episode.Some? && p.episode.value.first == i && !Changed(front, e) && q.active == {}
  {
    PrefixesAgree(front, e);
    if 0 <= k <= |front| { LastsStep(front, e, i, k); }
    LastsStep(front, e, i, |front|);
    EpisodeExact(front, rangeStart);
    NoneOpenIsEmpty(front + [e], rangeStart);
    hide Track, Lasts, NoneOpen, Changed;
  }

  /** The recovered episodes are exactly those that end with readable times, in order and in range. */
  lemma {:induction false} RecoveredExactly(events: seq<Event>, rangeStart: int, i: int, k: int)
    ensures ReportedPair(Track(events, rangeStart).recovered, i, k) <==>
            Ends(events, i, k) && Reported(events, i, k, rangeStart)
  {
    if events != [] {
      var front, e := events[..|events| - 1], events[|events| - 1];
      assert events == front + [e];
      RecoveredExactly(front, rangeStart, i, k);
      NoneOpenIsEmpty(front, rangeStart);
      RecoveredStep(front, e, rangeStart);
      EndsStep(front, e, i, k, rangeStart);
      RecoveredBefore(front, rangeStart);
      var p, q := Track(front, rangeStart), Track(events, rangeStart);
      hide Track, Ends, Changed;
      if |q.recovered| == |p.recovered| + 1 {
        assert q.recovered == p.recovered + [q.recovered[|p.recovered|]];
      }
    }
  }

  lemma {:induction false} RecoveredBefore(events: seq<Event>, rangeStart: int)
    ensures forall r | r in Track(events, rangeStart).recovered :: r.last < |events|
  {
    RecoveredAlways(events, rangeStart);
    hide Track;
  }

  /** A reported episode counts its related events. */
  lemma {:induction false} RecoveredCounts(events: seq<Event>, rangeStart: int)
    ensures forall r | r in Track(events, rangeStart).recovered ::
              r.last < |events| && r.eventCount == CountRelated(events, r.first, r.last + 1)
  {
    if events != [] {
      var front, e := events[..|events| - 1], events[|events| - 1];
      assert events == front + [e];
      RecoveredCounts(front, rangeStart);
      NoneOpenIsEmpty(front, rangeStart);
      RecoveredStep(front, e, rangeStart);
      EpisodeExact(front, rangeStart);
      var p, q := Track(front, rangeStart), Track(events, rangeStart);
      forall r | r in p.recovered ensures r.eventCount == CountRelated(events, r.first, r.last + 1) {
        CountStep(front, e, r.first, r.last + 1);
      }
      if |q.recovered| == |p.recovered| + 1 {
        var r := q.recovered[|p.recovered|];
        assert q.recovered == p.recovered + [r];
        CountStep(front, e, r.first, |front|);
        RelatedNow(front, e, rangeStart);
        hide Track, Related, Changed;
        assert r.eventCount == CountRelated(events, r.first, r.last + 1);
      }
      hide Track, Related, Changed, Ends, Lasts;
    }
  }

  // ---- The fate of every episode

  /** Event `k` throws away the episode begun by event `i` by changing the expected state. */
  ghost predicate DiscardedAt(events: seq<Event>, i: int, k: int) {
    0 <= k < |events| && Lasts(events, i, k) && Changed(events[..k], events[k])
  }

  ghost predicate Stopped(events: seq<Event>, i: int, k: int) { Ends(events, i, k) || DiscardedAt(events, i, k) }

  lemma {:induction false} LastsShorter(events: seq<Event>, i: int, m: int, n: int)
    requires Lasts(events, i, n) && i < m <= n
    ensures Lasts(events, i, m)
  {
    hide Begins, NoneOpen, Changed;
  }

  lemma {:induction false} BeginsInRange(events: seq<Event>, i: int)
    requires Begins(events, i)
    ensures 0 <= i < |events|
  {
    hide NoneOpen;
  }

  /** An alarming event opens its signal, so an episode that begins lasts at least until the next event. */
  lemma {:induction false} BeginningLasts(events: seq<Event>, i: int)
    requires Begins(events, i)
    ensures Lasts(events, i, i + 1)
  {
    var upto, s := events[..i + 1], SignalName(events[i]).value;
    assert upto == events[..i] + [events[i]];
    OpenStep(events[..i], events[i], s);
    hide Open;
  }

  /** The next event keeps a lasting episode, ends it or discards it, and does only one of these. */
  lemma {:induction false} NextEvent(events: seq<Event>, i: int, n: int)
    requires Lasts(events, i, n) && n < |events|
    ensures Lasts(events, i, n + 1) <==> !Stopped(events, i, n)
    ensures !(Ends(events, i, n) && DiscardedAt(events, i, n))
  {
    hide Begins, NoneOpen, Changed;
  }

  lemma {:induction false} StoppedOnce(events: seq<Event>, i: int, k: int, n: int)
    requires Stopped(events, i, k)
    ensures k < n ==> !Lasts(events, i, n) && !Stopped(events, i, n)
  {
    NextEvent(events, i, k);
    if k < n && Lasts(events, i, n) {
      LastsShorter(events, i, k + 1, n);
    }
    hide Begins, NoneOpen, Changed;
  }

  /** An episode no longer lasting was stopped by some event. */
  lemma {:induction false} StoppedBy(events: seq<Event>, i: int, n: int) returns (k: int)
    requires Begins(events, i) && i < n <= |events| && !Lasts(events, i, n)
    ensures k < n && Stopped(events, i, k)
    decreases n
  {
    hide Begins, Lasts, Ends, DiscardedAt;
    BeginsInRange(events, i);
    BeginningLasts(events, i);
    if Lasts(events, i, n - 1) {
      NextEvent(events, i, n - 1);
      k := n - 1;
    } else {
      k := StoppedBy(events, i, n - 1);
    }
  }

  /** What became of an episode, with the event that decided it. */
  datatype Fate = StillOpen | Recovers(k: int) | EndsUnreported(k: int) | Discarded(k: int)

  ghost predicate HasFate(events: seq<Event>, rangeStart: int, i: int, f: Fate) {
    match f
    case StillOpen => Track(events, rangeStart).episode.Some? && Track(events, rangeStart).episode.value.first == i
    case Recovers(k) => ReportedPair(Track(events, rangeStart).recovered, i, k)
    case EndsUnreported(k) => Ends(events, i, k) && !Reported(events, i, k, rangeStart)
    case Discarded(k) => DiscardedAt(events, i, k)
  }

  /** The same, read off the events. */
  ghost predicate Befalls(events: seq<Event>, rangeStart: int, i: int, f: Fate) {
    match f
    case StillOpen => Lasts(events, i, |events|)
    case Recovers(k) => Ends(events, i, k) && Reported(events, i, k, rangeStart)
    case EndsUnreported(k) => Ends(events, i, k) && !Reported(events, i, k, rangeStart)
    case Discarded(k) => DiscardedAt(events, i, k)
  }

  lemma {:induction false} FateMeaning(events: seq<Event>, rangeStart: int, i: int, f: Fate)
    ensures HasFate(events, rangeStart, i, f) <==> Befalls(events, rangeStart, i, f)
  {
    EpisodeExact(events, rangeStart);
    if f.Recovers? { RecoveredExactly(events, rangeStart, i, f.k); }
    hide Track, Lasts, Changed, NoneOpen;
  }

  lemma {:induction false} OneFate(events: seq<Event>, rangeStart: int, i: int, f: Fate, g: Fate)
    requires Befalls(events, rangeStart, i, f) && Befalls(events, rangeStart, i, g)
    ensures f == g
  {
    if !f.StillOpen? && !g.StillOpen? {
      NextEvent(events, i, f.k);
      StoppedOnce(events, i, f.k, g.k);
      StoppedOnce(events, i, g.k, f.k);
    }
    hide Lasts, Changed, NoneOpen, Reported;
  }

  /**
   Every episode that begins has exactly one fate: the loop still holds it open, reports it as recovered, or it
   ended unreadable or out of range, or a change of the expected state discarded it.
   */
  lemma {:induction false} EpisodesAccountedFor(events: seq<Event>, rangeStart: int, i: int)
    requires Begins(events, i)
    ensures exists f :: HasFate(events, rangeStart, i, f)
    ensures forall f, g :: HasFate(events, rangeStart, i, f) && HasFate(events, rangeStart, i, g) ==> f == g
  {
    hide HasFate, Begins, Lasts, DiscardedAt, Ends, Reported;
    BeginsInRange(events, i);
    if Lasts(events, i, |events|) {
      FateMeaning(events, rangeStart, i, StillOpen);
    } else {
      var k := StoppedBy(events, i, |events|);
      FateMeaning(events, rangeStart, i, Recovers(k));
      FateMeaning(events, rangeStart, i, EndsUnreported(k));
      FateMeaning(events, rangeStart, i, Discarded(k));
    }
    forall f, g | HasFate(events, rangeStart, i, f) && HasFate(events, rangeStart, i, g) ensures f == g {
      FateMeaning(events, rangeStart, i, f);
      FateMeaning(events, rangeStart, i, g);
      OneFate(events, rangeStart, i, f, g);
    }
  }
}
