/**
 What one more event does to the signals of a container, by the event's own
 fields, in each of the three loops that follow them (apps/web/lib/incidents.ts,
 apps/web/lib/history-status-overlays.ts).
 */
module SignalRules {
  import opened Wrappers
  import opened ContainerEvents
  import opened ContainerIncidents
  import opened ContainerEpisodes
  import opened ChartKinds
  import opened ChartBands

  /** The states that close the state signal: those that fit what is expected of the container. */
  function FittingStates(expected: Option<Expected>): set<Option<string>> {
    match expected
    case Some(ExpectStopped) => {Some("exited"), Some("created")}
    case Some(ExpectAbsent) => {Some("not_found")}
    case _ => {Some("running")}
  }

  /** The event alarms about this signal. */
  predicate Raises(e: Event, s: Signal) {
    && e.severity in {WarningEvent, CriticalEvent}
    && match s
       case StateSignal => e.kind == StateChanged
       case HealthSignal => e.kind == HealthChanged
       case ExitSignal => e.kind == ExitCodeChanged
  }

  /** The event is about this signal and says that all is well. */
  predicate Clears(e: Event, s: Signal) {
    && e.severity in {InfoEvent, RecoveryEvent}
    && match s
       case StateSignal =>
         e.kind == StateChanged && (e.severity == RecoveryEvent || e.toValue in FittingStates(e.expected))
       case HealthSignal => e.kind == HealthChanged && (e.severity == RecoveryEvent || e.toValue == Some("healthy"))
       case ExitSignal =>
         e.kind == ExitCodeChanged && (e.severity == RecoveryEvent || (e.toValue.Some? && e.toIsZero))
  }

  predicate SameExpected(events: seq<Event>, e: Event) {
    events == [] || events[|events| - 1].expected == e.expected
  }

  lemma {:induction false} RaisesStarts(e: Event, s: Signal)
    ensures Starts(e, s) <==> Raises(e, s)
    ensures Stops(e, s) <==> Clears(e, s)
    ensures Alarms(e) <==> exists x :: Raises(e, x)
  {
    assert Raises(e, StateSignal) || Raises(e, HealthSignal) || Raises(e, ExitSignal) || forall x :: !Raises(e, x);
  }

  /**
   An event opens the signal it alarms about; any other closes it exactly if it changes the expected state or clears
   it, by a recovery or by the value that stands for health: "healthy", zero, or the state expected of the container.
   */
  lemma {:induction false} SignalAfter(events: seq<Event>, e: Event, s: Signal)
    ensures Open(events + [e], s) <==> Raises(e, s) || (Open(events, s) && SameExpected(events, e) && !Clears(e, s))
  {
    OpenStep(events, e, s);
    RaisesStarts(e, s);
    hide Open, Starts, Stops, Raises, Clears;
  }

  /** All three loops follow the signals so; the chart also takes the kind from the severity of the latest alarm. */
  lemma {:induction false} LoopsAfter(events: seq<Event>, e: Event, rangeStart: int, s: Signal)
    ensures s in OpenSignals(events + [e]) <==>
            Raises(e, s) || (s in OpenSignals(events) && SameExpected(events, e) && !Clears(e, s))
    ensures s in Track(events + [e], rangeStart).active <==>
            Raises(e, s) || (s in Track(events, rangeStart).active && SameExpected(events, e) && !Clears(e, s))
    ensures (forall f | f in events + [e] :: f.at.Some?) ==>
              forall kind :: ShownAs(Draw(events + [e]).signals, s, kind) <==>
                if Raises(e, s) then kind == (if e.severity == CriticalEvent then ErrorKind else StaleKind)
                else ShownAs(Draw(events).signals, s, kind) && SameExpected(events, e) && !Clears(e, s)
  {
    hide Draw, OpenSignals, Track, Raises, Clears;
    SignalAfter(events, e, s);
    OpenSignalsMeaning(events, s);
    OpenSignalsMeaning(events + [e], s);
    SignalsAlways(events, rangeStart);
    SignalsAlways(events + [e], rangeStart);
    hide Open, EntryFits;
    if forall f | f in events + [e] :: f.at.Some? {
      assert forall f | f in events :: f in events + [e];
      forall kind
        ensures ShownAs(Draw(events + [e]).signals, s, kind) <==>
                if Raises(e, s) then kind == (if e.severity == CriticalEvent then ErrorKind else StaleKind)
                else ShownAs(Draw(events).signals, s, kind) && SameExpected(events, e) && !Clears(e, s)
      {
        ChartKindsMeaning(events, s, kind);
        ChartKindsMeaning(events + [e], s, kind);
        OpenAsStep(events, e, s, kind);
        RaisesStarts(e, s);
        KindOfAlarm(e, s);
        hide OpenAs, ShownAs, Starts, Stops, EventOverlayKind;
      }
    }
  }

  lemma {:induction false} KindOfAlarm(e: Event, s: Signal)
    ensures Raises(e, s) ==> EventOverlayKind(e) == Some(if e.severity == CriticalEvent then ErrorKind else StaleKind)
  {
  }

  /**
   The event that clears the last open signal reports the episode, if its times are readable, in order and in range.
   */
  lemma {:induction false} LastSignalCleared(events: seq<Event>, e: Event, rangeStart: int, s: Signal)
    requires Track(events, rangeStart).active == {s} && SameExpected(events, e) && Clears(e, s)
    ensures var p, q := Track(events, rangeStart), Track(events + [e], rangeStart);
            && p.episode.Some? && q.active == {} && q.episode.None?
            && var start := events[p.episode.value.first].at;
            if start.Some? && e.at.Some? && start.value <= e.at.value && rangeStart <= e.at.value then
              q.recovered == p.recovered + [Recovered(
                p.episode.value.first, |events|, p.episode.value.severity, start.value, e.at.value,
                (e.at.value - start.value) / 1000, p.episode.value.eventCount + 1)]
            else q.recovered == p.recovered
  {
    SignalsAlways(events, rangeStart);
    RaisesStarts(e, s);
    assert (events + [e])[..|events|] == events;
    assert events + [e] != [] && (events + [e])[|events|] == e;
    hide Open;
  }
}
