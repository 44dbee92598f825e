/**
 The open signals and the recovered episodes of one container
 (apps/web/lib/incidents.ts).
 */
module ContainerIncidents {
  import opened Wrappers
  import opened ContainerEvents

  // ---- Open signals

  datatype OpenSignal = OpenSignal(startEvent: Event, severity: Severity)

  function OpenSignals(events: seq<Event>): map<Signal, OpenSignal> {
    if events == [] then map[] else
      var front, e := events[..|events| - 1], events[|events| - 1];
      StepSignals(if Changed(front, e) then map[] else OpenSignals(front), e)
  }

  function StepSignals(signals: map<Signal, OpenSignal>, e: Event): map<Signal, OpenSignal> {
    var signal, severity := SignalName(e), IncidentSeverity(e);
    if signal.None? then signals
    else if severity.Some? then
      if signal.value in signals then
        var open := signals[signal.value];
        signals[signal.value := open.(severity := MaxSeverity(open.severity, severity.value))]
      else signals[signal.value := OpenSignal(e, severity.value)]
    else if ResolvesSignal(e) then signals - {signal.value}
    else signals
  }

  method DeriveOpenSignals(events: seq<Event>) returns (signals: map<Signal, OpenSignal>)
    ensures signals == OpenSignals(events)
  {
    signals := map[];
    var expectedState: Option<Option<Expected>> := None;
    var k := 0;
    while k < |events|
      invariant 0 <= k <= |events|
      invariant signals == OpenSignals(events[..k])
      invariant expectedState == if k == 0 then None else Some(events[k - 1].expected)
    {
      var event := events[k];
      assert events[..k + 1][..k] == events[..k];
      if expectedState.Some? && event.expected != expectedState.value { signals := map[]; }
      expectedState := Some(event.expected);
      k := k + 1;
      var signal := SignalName(event);
      if signal.None? { continue; }
      var startSeverity := IncidentSeverity(event);
      if startSeverity.Some? {
        if signal.value in signals {
          var open := signals[signal.value];
          signals := signals[signal.value := open.(severity := MaxSeverity(open.severity, startSeverity.value))];
        } else {
          signals := signals[signal.value := OpenSignal(event, startSeverity.value)];
        }
        continue;
      }
      if ResolvesSignal(event) { signals := signals - {signal.value}; }
    }
    assert events[..k] == events;
  }

  /** Event `i` is where the current outage of `s` began. */
  ghost predicate FirstOpen(events: seq<Event>, i: int, s: Signal) {
    OpenSince(events, i, s) && forall j | OpenSince(events, j, s) :: i <= j
  }

  ghost predicate CriticalSince(events: seq<Event>, i: int, s: Signal)
    requires 0 <= i
  {
    exists j | i <= j < |events| :: Starts(events[j], s) && events[j].severity == CriticalEvent
  }

  lemma {:induction false} OpenSignalsKeys(events: seq<Event>, s: Signal)
    ensures s in OpenSignals(events) <==> Open(events, s)
  {
    if events == [] {
      NothingOpen(s);
      hide Open;
    } else {
      var front, e := events[..|events| - 1], events[|events| - 1];
      assert events == front + [e];
      OpenSignalsKeys(front, s);
      OpenStep(front, e, s);
      hide Open, Changed;
    }
  }

  /** An entry is the event that opened the signal and the worst severity seen since. */
  ghost predicate EntryFits(events: seq<Event>, s: Signal, entry: OpenSignal) {
    exists i :: FirstOpen(events, i, s) && entry.startEvent == events[i]
             && (entry.severity == Critical <==> CriticalSince(events, i, s))
  }

  lemma {:induction false} FirstOpenStep(front: seq<Event>, e: Event, i: int, s: Signal)
    ensures FirstOpen(front, i, s) && !Changed(front, e) && !Stops(e, s) ==> FirstOpen(front + [e], i, s)
    ensures Starts(e, s) && (Changed(front, e) || !Open(front, s)) ==> FirstOpen(front + [e], |front|, s)
  {
    forall j ensures OpenSince(front + [e], j, s) <==>
      if j == |front| then Starts(e, s) else !Changed(front, e) && !Stops(e, s) && OpenSince(front, j, s)
    {
      OpenSinceStep(front, e, j, s);
    }
    if FirstOpen(front, i, s) { assert i < |front|; }
    hide OpenSince, Changed, Stops, Starts;
  }

  lemma {:induction false} EntryKept(front: seq<Event>, e: Event, s: Signal, entry: OpenSignal)
    requires EntryFits(front, s, entry) && !Changed(front, e) && !Stops(e, s)
    ensures EntryFits(front + [e], s,
              if Starts(e, s) && e.severity == CriticalEvent then entry.(severity := Critical) else entry)
  {
    var i :| FirstOpen(front, i, s) && entry.startEvent == front[i]
      && (entry.severity == Critical <==> CriticalSince(front, i, s));
    FirstOpenStep(front, e, i, s);
    CriticalSinceStep(front, e, i, s);
    assert (front + [e])[i] == front[i];
    hide Changed, Stops, Starts, OpenSince, CriticalSince;
  }

  lemma {:induction false} EntryBegun(front: seq<Event>, e: Event, s: Signal)
    requires Starts(e, s) && (Changed(front, e) || !Open(front, s))
    ensures EntryFits(front + [e], s, OpenSignal(e, IncidentSeverity(e).value))
  {
    FirstOpenStep(front, e, |front|, s);
    CriticalSinceStep(front, e, |front|, s);
    assert (front + [e])[|front|] == e;
    assert !CriticalSince(front, |front|, s);
    hide Changed, OpenSince, CriticalSince, FirstOpen;
  }

  lemma {:induction false} EntryStep(signals: map<Signal, OpenSignal>, e: Event, s: Signal)
    requires s in StepSignals(signals, e)
    ensures var entry := StepSignals(signals, e)[s];
            && (Starts(e, s) && s !in signals ==> entry == OpenSignal(e, IncidentSeverity(e).value))
            && (!Starts(e, s) || s in signals ==>
                  s in signals && !Stops(e, s) &&
                  entry == if Starts(e, s) && e.severity == CriticalEvent then signals[s].(severity := Critical)
                           else signals[s])
  {
  }

  /**
   A signal is in the map exactly when it is open; its entry is the event that
   opened it and the worst severity seen since.
   */
  lemma {:induction false} OpenSignalsMeaning(events: seq<Event>, s: Signal)
    ensures s in OpenSignals(events) <==> Open(events, s)
    ensures s in OpenSignals(events) ==> EntryFits(events, s, OpenSignals(events)[s])
  {
    OpenSignalsKeys(events, s);
    if s in OpenSignals(events) {
      hide Open, EntryFits, StepSignals, Changed, Starts, Stops;
      var front, e := events[..|events| - 1], events[|events| - 1];
      assert events == front + [e];
      OpenSignalsMeaning(front, s);
      var base := if Changed(front, e) then map[] else OpenSignals(front);
      EntryStep(base, e, s);
      if s in base { EntryKept(front, e, s, base[s]); } else { EntryBegun(front, e, s); }
    }
  }

  lemma {:induction false} CriticalSinceStep(front: seq<Event>, e: Event, i: int, s: Signal)
    requires 0 <= i <= |front|
    ensures CriticalSince(front + [e], i, s) <==>
            CriticalSince(front, i, s) || (Starts(e, s) && e.severity == CriticalEvent)
  {
    var more := front + [e];
    assert more[|front|] == e;
    if j :| i <= j < |front| && Starts(front[j], s) && front[j].severity == CriticalEvent {
      assert more[j] == front[j];
    }
  }

  // ---- Recovered episodes

  /** `first` is the position of the event that opened the episode. */
  datatype Episode = Episode(first: nat, severity: Severity, eventCount: nat)

  /** `first` and `last` are the positions of the two events the incident's id names. */
  datatype Recovered = Recovered(
    first: nat, last: nat, severity: Severity, startedAt: int, recoveredAt: int, durationSeconds: int, eventCount: nat)

  /** The loop's variables after some events. */
  datatype Progress = Progress(active: set<Signal>, episode: Option<Episode>, recovered: seq<Recovered>)

  function Close(events: seq<Event>, last: nat, ep: Episode, rangeStart: int): Option<Recovered>
    requires ep.first < |events| && last < |events|
  {
    var start, end := events[ep.first].at, events[last].at;
    if start.Some? && end.Some? && end.value >= start.value && end.value >= rangeStart
    then Some(Recovered(ep.first, last, ep.severity, start.value, end.value, (end.value - start.value) / 1000,
                        ep.eventCount))
    else None
  }

  /** The state after `events`. */
  function Track(events: seq<Event>, rangeStart: int): (p: Progress)
    ensures p.episode.Some? ==> p.episode.value.first < |events|
  {
    if events == [] then Progress({}, None, []) else
      var n, e := |events| - 1, events[|events| - 1];
      var before := Track(events[..n], rangeStart);
      var p := if Changed(events[..n], e) then before.(active := {}, episode := None) else before;
      var signal, severity := SignalName(e), IncidentSeverity(e);
      if signal.None? then p
      else if severity.Some? then
        p.(active := p.active + {signal.value},
           episode := Some(
             if p.episode.None? then Episode(n, severity.value, 1)
             else var ep := p.episode.value;
               Episode(ep.first, MaxSeverity(ep.severity, severity.value), ep.eventCount + 1)))
      else if !ResolvesSignal(e) || signal.value !in p.active || p.episode.None? then p
      else
        var ep := p.episode.value.(eventCount := p.episode.value.eventCount + 1);
        var active := p.active - {signal.value};
        if active != {} then p.(active := active, episode := Some(ep))
        else
          var closed := Close(events, n, ep, rangeStart);
          p.(active := {}, episode := None,
             recovered := if closed.Some? then p.recovered + [closed.value] else p.recovered)
  }

  method DeriveRecoveredContainerIncidents(events: seq<Event>, rangeStart: int) returns (recovered: seq<Recovered>)
    ensures recovered == Track(events, rangeStart).recovered
  {
    hide SignalName, IncidentSeverity, ResolvesSignal, MaxSeverity;
    recovered := [];
    var activeSignals: set<Signal>, episode: Option<Episode> := {}, None;
    var expectedState: Option<Option<Expected>> := None;
    var k := 0;
    while k < |events|
      invariant 0 <= k <= |events|
      invariant var p := Track(events[..k], rangeStart);
                activeSignals == p.active && episode == p.episode && recovered == p.recovered
      invariant expectedState == if k == 0 then None else Some(events[k - 1].expected)
    {
      var event := events[k];
      ghost var upto := events[..k + 1];
      assert upto[..k] == events[..k] && upto[k] == event;
      assert Changed(events[..k], event) <==> expectedState.Some? && event.expected != expectedState.value;
      hide Changed;
      if expectedState.Some? && event.expected != expectedState.value {
        activeSignals := {};
        episode := None;
      }
      expectedState := Some(event.expected);
      k := k + 1;
      var signal := SignalName(event);
      if signal.None? { continue; }
      var startSeverity := IncidentSeverity(event);
      if startSeverity.Some? {
        activeSignals := activeSignals + {signal.value};
        if episode.None? {
          episode := Some(Episode(k - 1, startSeverity.value, 1));
        } else {
          var open := episode.value;
          episode := Some(Episode(open.first, MaxSeverity(open.severity, startSeverity.value), open.eventCount + 1));
        }
        continue;
      }
      if !ResolvesSignal(event) || signal.value !in activeSignals || episode.None? { continue; }
      activeSignals := activeSignals - {signal.value};
      episode := Some(episode.value.(eventCount := episode.value.eventCount + 1));
      if activeSignals != {} { continue; }
      var closed := Close(events, k - 1, episode.value, rangeStart);
      assert upto[episode.value.first] == events[episode.value.first];
      if closed.Some? { recovered := recovered + [closed.value]; }
      episode := None;
    }
    assert events[..k] == events;
  }

  // ---- What holds after every event

  /** An event that opens or aggravates an episode. */
  predicate Alarms(e: Event) { SignalName(e).Some? && IncidentSeverity(e).Some? }

  ghost predicate AnyCritical(events: seq<Event>, from: int, to: int) {
    exists j | from <= j < to && 0 <= j < |events| :: Alarms(events[j]) && events[j].severity == CriticalEvent
  }

  /** Both the episode and the set of open signals, from the events alone. */
  ghost predicate SignalsFit(events: seq<Event>, p: Progress) {
    && (forall s :: s in p.active <==> Open(events, s))
    && (p.episode.Some? <==> p.active != {})
  }

  ghost predicate EpisodeFits(events: seq<Event>, p: Progress) {
    && (p.episode.Some? ==>
          && p.episode.value.first < |events| && Alarms(events[p.episode.value.first])
          && (p.episode.value.severity == Critical <==> AnyCritical(events, p.episode.value.first, |events|)))
  }

  ghost predicate RecoveredFits(events: seq<Event>, r: Recovered) {
    && r.first < r.last < |events|
    && Alarms(events[r.first]) && !Alarms(events[r.last])
    && events[r.first].at == Some(r.startedAt) && events[r.last].at == Some(r.recoveredAt)
    && r.startedAt <= r.recoveredAt && r.durationSeconds == (r.recoveredAt - r.startedAt) / 1000
    && (r.severity == Critical <==> AnyCritical(events, r.first, r.last))
  }

  ghost predicate InOrder(p: Progress, n: nat) {
    && (forall i, j | 0 <= i < j < |p.recovered| :: p.recovered[i].last < p.recovered[j].first)
    && (forall r | r in p.recovered :: r.last < if p.episode.Some? then p.episode.value.first else n)
  }

  lemma {:induction false} AnyCriticalStep(front: seq<Event>, e: Event, from: int, to: int)
    requires 0 <= from <= |front|
    ensures to <= |front| ==> (AnyCritical(front + [e], from, to) <==> AnyCritical(front, from, to))
    ensures AnyCritical(front + [e], from, |front| + 1) <==>
              AnyCritical(front, from, |front|) || (Alarms(e) && e.severity == CriticalEvent)
  {
    var more := front + [e];
    assert more[|front|] == e;
    assert forall j | 0 <= j < |front| :: more[j] == front[j];
  }

  /** The third set of signals agrees with the reference, and an episode is open iff it is not empty. */
  lemma {:induction false} SignalsAlways(events: seq<Event>, rangeStart: int)
    ensures SignalsFit(events, Track(events, rangeStart))
  {
    if events == [] {
      assert forall s :: !Open(events, s);
    } else {
      var n, e := |events| - 1, events[|events| - 1];
      var front := events[..n];
      assert events == front + [e];
      SignalsAlways(front, rangeStart);
      forall s ensures Open(events, s) <==> Starts(e, s) || (!Changed(front, e) && !Stops(e, s) && Open(front, s)) {
        OpenStep(front, e, s);
      }
      hide Open;
      var p, q := Track(front, rangeStart), Track(events, rangeStart);
      var kept := if Changed(front, e) then {} else p.active;
      assert forall s :: s in q.active <==> Starts(e, s) || (!Stops(e, s) && s in kept);
    }
  }

  lemma {:induction false} EpisodeAlways(events: seq<Event>, rangeStart: int)
    ensures EpisodeFits(events, Track(events, rangeStart))
  {
    if events != [] {
      hide AnyCritical;
      var n, e := |events| - 1, events[|events| - 1];
      var front := events[..n];
      assert events == front + [e];
      EpisodeAlways(front, rangeStart);
      var p, q := Track(front, rangeStart), Track(events, rangeStart);
      if q.episode.Some? {
        if q.episode.value.first == n {
          assert events[n] == e;
          NothingBefore(events, n);
        }
        AnyCriticalStep(front, e, q.episode.value.first, n);
      }
    }
  }

  lemma {:induction false} NothingBefore(events: seq<Event>, n: nat)
    requires n + 1 == |events|
    ensures AnyCritical(events, n, n + 1) <==> Alarms(events[n]) && events[n].severity == CriticalEvent
  {
  }

  lemma {:induction false} OrderGrows(p: Progress, q: Progress, n: nat, r: Recovered)
    requires InOrder(p, n) && p.episode.Some? && q.recovered == p.recovered + [r] && q.episode.None?
    requires p.episode.value.first == r.first <= r.last == n
    ensures InOrder(q, n + 1)
  {
    forall i | 0 <= i < |p.recovered| ensures p.recovered[i].last < r.first { assert p.recovered[i] in p.recovered; }
  }

  /** Recovered episodes come one after another, and all before the open one. */
  lemma {:induction false} OrderAlways(events: seq<Event>, rangeStart: int)
    ensures InOrder(Track(events, rangeStart), |events|)
  {
    if events != [] {
      hide SignalName, IncidentSeverity, ResolvesSignal, Changed;
      var front := events[..|events| - 1];
      OrderAlways(front, rangeStart);
      var p, q := Track(front, rangeStart), Track(events, rangeStart);
      if q.recovered != p.recovered {
        OrderGrows(p, q, |front|, q.recovered[|p.recovered|]);
      } else {
        assert q.episode.Some? ==> q.episode == p.episode || q.episode.value.first == |front|
                                   || (p.episode.Some? && q.episode.value.first == p.episode.value.first);
        hide Track;
      }
    }
  }

  lemma {:induction false} RecoveredKept(front: seq<Event>, e: Event, r: Recovered)
    requires RecoveredFits(front, r)
    ensures RecoveredFits(front + [e], r)
  {
    AnyCriticalStep(front, e, r.first, r.last);
    hide AnyCritical, Alarms;
  }

  lemma {:induction false} RecoveredNew(front: seq<Event>, e: Event, rangeStart: int)
    ensures var p, q := Track(front, rangeStart), Track(front + [e], rangeStart);
            q.recovered != p.recovered ==>
              && |q.recovered| == |p.recovered| + 1 && q.recovered[..|p.recovered|] == p.recovered
              && RecoveredFits(front + [e], q.recovered[|p.recovered|])
              && q.recovered[|p.recovered|].recoveredAt >= rangeStart
  {
    hide AnyCritical, Changed;
    var n, events := |front|, front + [e];
    assert events[..n] == front && events[n] == e;
    EpisodeAlways(front, rangeStart);
    var p, q := Track(front, rangeStart), Track(events, rangeStart);
    if q.recovered != p.recovered {
      var r := q.recovered[|p.recovered|];
      assert q.recovered == p.recovered + [r];
      AnyCriticalStep(front, e, r.first, n);
      assert events[r.first] == front[r.first];
    }
  }

  lemma {:induction false} RecoveredAlways(events: seq<Event>, rangeStart: int)
    ensures forall r | r in Track(events, rangeStart).recovered ::
              RecoveredFits(events, r) && r.recoveredAt >= rangeStart
  {
    if events != [] {
      hide RecoveredFits;
      var front, e := events[..|events| - 1], events[|events| - 1];
      assert events == front + [e];
      RecoveredAlways(front, rangeStart);
      RecoveredNew(front, e, rangeStart);
      var p, q := Track(front, rangeStart), Track(events, rangeStart);
      hide Track;
      forall r | r in p.recovered ensures RecoveredFits(events, r) { RecoveredKept(front, e, r); }
      if q.recovered != p.recovered { assert q.recovered == p.recovered + [q.recovered[|p.recovered|]]; }
    }
  }

  // ---- Time

  function TotalMs(rs: seq<Recovered>): int {
    if rs == [] then 0 else TotalMs(rs[..|rs| - 1]) + rs[|rs| - 1].recoveredAt - rs[|rs| - 1].startedAt
  }

  function TotalSeconds(rs: seq<Recovered>): int {
    if rs == [] then 0 else TotalSeconds(rs[..|rs| - 1]) + rs[|rs| - 1].durationSeconds
  }

  ghost predicate Disjoint(rs: seq<Recovered>) {
    forall i, j | 0 <= i < j < |rs| :: rs[i].recoveredAt <= rs[j].startedAt
  }

  lemma {:induction false} DurationsFit(rs: seq<Recovered>, from: int, to: int)
    requires Disjoint(rs) && from <= to
    requires forall r | r in rs ::
      from <= r.startedAt <= r.recoveredAt <= to && r.durationSeconds == (r.recoveredAt - r.startedAt) / 1000
    ensures 1000 * TotalSeconds(rs) <= TotalMs(rs) <= to - from
  {
    if rs != [] {
      var last := rs[|rs| - 1];
      assert last in rs;
      DurationsFit(rs[..|rs| - 1], from, last.startedAt);
    }
  }

  /**
   The recovered incidents of a container come in time order, do not overlap,
   and together last no longer than the events span.
   */
  lemma {:induction false} RecoveredIncidentsFit(events: seq<Event>, rangeStart: int)
    requires TimeOrdered(events) && events != [] && forall e | e in events :: e.at.Some?
    ensures var rs := Track(events, rangeStart).recovered;
            && Disjoint(rs)
            && 1000 * TotalSeconds(rs) <= TotalMs(rs) <= events[|events| - 1].at.value - events[0].at.value
  {
    RecoveredAlways(events, rangeStart);
    OrderAlways(events, rangeStart);
    var p, n := Track(events, rangeStart), |events| - 1;
    var rs := p.recovered;
    hide Track;
    assert events[0] in events && events[n] in events;
    forall r | r in rs
      ensures events[0].at.value <= r.startedAt <= r.recoveredAt <= events[n].at.value
      ensures r.durationSeconds == (r.recoveredAt - r.startedAt) / 1000
    {
      RecoveredTimes(events, r);
    }
    forall i, j | 0 <= i < j < |rs| ensures rs[i].recoveredAt <= rs[j].startedAt {
      RecoveredTimes(events, rs[i]);
      RecoveredTimes(events, rs[j]);
    }
    hide RecoveredFits;
    DurationsFit(rs, events[0].at.value, events[n].at.value);
  }

  lemma {:induction false} RecoveredTimes(events: seq<Event>, r: Recovered)
    requires RecoveredFits(events, r) && TimeOrdered(events)
    requires events[0].at.Some? && events[|events| - 1].at.Some?
    ensures r.first < r.last < |events|
    ensures events[r.first].at == Some(r.startedAt) && events[r.last].at == Some(r.recoveredAt)
    ensures events[0].at.value <= r.startedAt <= r.recoveredAt <= events[|events| - 1].at.value
    ensures r.durationSeconds == (r.recoveredAt - r.startedAt) / 1000
  {
  }
}
