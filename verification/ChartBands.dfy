/**
 The status bands of one container on the history chart
 (apps/web/lib/history-status-overlays.ts).
 */
module ChartBands {
  import opened Wrappers
  import opened Intervals
  import opened ContainerEvents
  import opened ContainerIncidents
  import opened ChartKinds

  datatype Band = Band(kind: Kind, start: int, end: int)

  function StrongestSignalKind(signals: map<Signal, Kind>): Option<Kind> {
    if exists s | s in signals :: signals[s] == ErrorKind then Some(ErrorKind)
    else if signals != map[] then Some(StaleKind)
    else None
  }

  // ---- The fold, event by event

  /** The loop's variables; `bands` are those emitted, before clipping. */
  datatype Chart = Chart(
    signals: map<Signal, Kind>, expected: Option<Option<Expected>>,
    bandKind: Option<Kind>, bandStart: Option<int>, bands: seq<Band>)

  function StepSignalKinds(signals: map<Signal, Kind>, e: Event): map<Signal, Kind> {
    var signal, kind := SignalName(e), EventOverlayKind(e);
    if signal.None? then signals
    else if kind.Some? then signals[signal.value := kind.value]
    else if ResolvesSignal(e) then signals - {signal.value}
    else signals
  }

  function StepChart(c: Chart, e: Event): Chart {
    if e.at.None? then c else
      var previous := StrongestSignalKind(c.signals);
      var base := if c.expected.Some? && e.expected != c.expected.value then map[] else c.signals;
      var signals := StepSignalKinds(base, e);
      var next := StrongestSignalKind(signals);
      var d := c.(signals := signals, expected := Some(e.expected));
      if previous == next then
        if next.Some? && c.bandStart.None? then d.(bandStart := e.at, bandKind := next) else d
      else
        d.(bandStart := if next.Some? then e.at else None, bandKind := next,
           bands := if previous.Some? && c.bandStart.Some?
                    then c.bands + [Band(previous.value, c.bandStart.value, e.at.value)] else c.bands)
  }

  function Draw(events: seq<Event>): Chart {
    if events == [] then Chart(map[], None, None, None, [])
    else StepChart(Draw(events[..|events| - 1]), events[|events| - 1])
  }

  predicate InBand(bands: seq<Band>, kind: Kind, t: int) {
    exists b | b in bands :: b.kind == kind && b.start <= t < b.end
  }

  /** `t` is in the band that is still open after the last event. */
  predicate InOpenBand(c: Chart, kind: Kind, t: int) {
    c.bandKind == Some(kind) && c.bandStart.Some? && c.bandStart.value <= t
  }

  // ---- The fold against the reference

  /** A band is open exactly while some signal is, and carries the strongest kind. */
  lemma {:induction false} BandTracksSignals(events: seq<Event>)
    ensures var c := Draw(events);
            c.bandKind == StrongestSignalKind(c.signals) && (c.bandStart.Some? <==> c.bandKind.Some?)
  {
    if events != [] {
      hide StrongestSignalKind, StepSignalKinds;
      BandTracksSignals(events[..|events| - 1]);
      EmptyKind();
    } else {
      EmptyKind();
    }
  }

  lemma {:induction false} EmptyKind()
    ensures StrongestSignalKind(map[]).None?
  {
  }

  /** The branch that starts a band late, when the kind did not change, is never taken. */
  lemma {:induction false} LateStartNeverFires(events: seq<Event>, e: Event)
    requires e.at.Some?
    ensures var c := Draw(events);
            StrongestSignalKind(c.signals) == StrongestSignalKind(Draw(events + [e]).signals) ==>
              !(StrongestSignalKind(c.signals).Some? && c.bandStart.None?)
              && Draw(events + [e]).bandStart == c.bandStart && Draw(events + [e]).bands == c.bands
  {
    BandTracksSignals(events);
    assert (events + [e])[..|events|] == events;
  }

  lemma {:induction false} StepKeys(signals: map<Signal, Kind>, e: Event, s: Signal)
    ensures s in StepSignalKinds(signals, e) <==> Starts(e, s) || (!Stops(e, s) && s in signals)
  {
  }

  lemma {:induction false} ExpectedTracked(events: seq<Event>)
    requires forall e | e in events :: e.at.Some?
    ensures Draw(events).expected == if events == [] then None else Some(events[|events| - 1].expected)
  {
    if events != [] { assert events[|events| - 1] in events; }
  }

  lemma {:induction false} StepKind(signals: map<Signal, Kind>, e: Event, s: Signal)
    ensures var after := StepSignalKinds(signals, e);
            s in after ==> (if Starts(e, s) then EventOverlayKind(e) == Some(after[s])
                            else s in signals && after[s] == signals[s])
  {
  }

  /** The loop holds `s` open with this kind. */
  predicate ShownAs(signals: map<Signal, Kind>, s: Signal, kind: Kind) { s in signals && signals[s] == kind }

  lemma {:induction false} DrawStep(front: seq<Event>, e: Event)
    ensures Draw(front + [e]) == StepChart(Draw(front), e)
  {
    hide StepChart;
    assert (front + [e])[..|front|] == front;
  }

  lemma {:induction false} StepSignalsOf(c: Chart, e: Event)
    requires e.at.Some?
    ensures StepChart(c, e).signals ==
            StepSignalKinds(if c.expected.Some? && e.expected != c.expected.value then map[] else c.signals, e)
  {
    hide StepSignalKinds, StrongestSignalKind;
  }

  lemma {:induction false} DrawSignals(front: seq<Event>, e: Event)
    requires e.at.Some?
    requires Draw(front).expected == if front == [] then None else Some(front[|front| - 1].expected)
    ensures Draw(front + [e]).signals == StepSignalKinds(if Changed(front, e) then map[] else Draw(front).signals, e)
  {
    hide StepSignalKinds, StepChart, Draw;
    DrawStep(front, e);
    StepSignalsOf(Draw(front), e);
  }

  /** The chart's fold keeps open the same signals as the reference. */
  lemma {:induction false} ChartSignalsAreOpen(events: seq<Event>, s: Signal)
    requires forall e | e in events :: e.at.Some?
    ensures s in Draw(events).signals <==> Open(events, s)
  {
    if events == [] {
      hide Open;
      NothingOpen(s);
    } else {
      hide Open, Draw, StepSignalKinds, Starts, Stops, Changed;
      var front, e := events[..|events| - 1], events[|events| - 1];
      assert events == front + [e];
      assert e in events;
      ChartSignalsAreOpen(front, s);
      OpenStep(front, e, s);
      ExpectedTracked(front);
      DrawSignals(front, e);
      StepKeys(if Changed(front, e) then map[] else Draw(front).signals, e, s);
    }
  }

  /** What one event does to a signal's kind in the loop. */
  lemma {:induction false} ShownStep(signals: map<Signal, Kind>, e: Event, s: Signal, kind: Kind)
    ensures ShownAs(StepSignalKinds(signals, e), s, kind) <==>
            if Starts(e, s) then EventOverlayKind(e) == Some(kind) else !Stops(e, s) && ShownAs(signals, s, kind)
  {
    StepKeys(signals, e, s);
    StepKind(signals, e, s);
    hide StepSignalKinds;
  }

  /** An open signal is shown with the kind of the latest event that started it. */
  lemma {:induction false} ChartKindsMeaning(events: seq<Event>, s: Signal, kind: Kind)
    requires forall e | e in events :: e.at.Some?
    ensures ShownAs(Draw(events).signals, s, kind) <==> OpenAs(events, s, kind)
  {
    if events == [] {
      hide Open, OpenAs;
      NothingOpen(s);
      OneKind([], s);
    } else {
      hide OpenAs, Draw, StepSignalKinds, Starts, Stops, Changed, EventOverlayKind;
      var front, e := events[..|events| - 1], events[|events| - 1];
      assert events == front + [e];
      assert e in events;
      ChartKindsMeaning(front, s, kind);
      OpenAsStep(front, e, s, kind);
      ExpectedTracked(front);
      DrawSignals(front, e);
      ShownStep(if Changed(front, e) then map[] else Draw(front).signals, e, s, kind);
    }
  }

  lemma {:induction false} StrongestOf(signals: map<Signal, Kind>)
    ensures StrongestSignalKind(signals) ==
            if exists s :: ShownAs(signals, s, ErrorKind) then Some(ErrorKind)
            else if exists s :: ShownAs(signals, s, StaleKind) then Some(StaleKind)
            else None
  {
    if s :| s in signals {
      assert ShownAs(signals, s, ErrorKind) || ShownAs(signals, s, StaleKind);
    } else {
      assert signals == map[];
    }
    if s :| ShownAs(signals, s, ErrorKind) { assert s in signals && signals[s] == ErrorKind; }
    if s :| s in signals && signals[s] == ErrorKind { assert ShownAs(signals, s, ErrorKind); }
  }

  /** The strongest kind of the loop's map is that of the events. */
  lemma {:induction false} StrongestMeaning(events: seq<Event>)
    requires forall e | e in events :: e.at.Some?
    ensures StrongestSignalKind(Draw(events).signals) == StrongestKind(events)
  {
    hide OpenAs, Draw, StrongestSignalKind;
    var signals := Draw(events).signals;
    forall s, kind ensures ShownAs(signals, s, kind) <==> OpenAs(events, s, kind) {
      ChartKindsMeaning(events, s, kind);
    }
    StrongestOf(signals);
    hide ShownAs;
    assert (exists s :: ShownAs(signals, s, ErrorKind)) <==> exists s :: OpenAs(events, s, ErrorKind);
    assert (exists s :: ShownAs(signals, s, StaleKind)) <==> exists s :: OpenAs(events, s, StaleKind);
  }

  /** After any events with readable times, the three folds agree on the open signals. */
  lemma {:induction false} ThreeFoldsAgree(events: seq<Event>, rangeStart: int)
    requires forall e | e in events :: e.at.Some?
    ensures OpenSignals(events).Keys == Track(events, rangeStart).active == Draw(events).signals.Keys
    ensures Track(events, rangeStart).episode.Some? <==> OpenSignals(events) != map[]
  {
    SignalsAlways(events, rangeStart);
    forall s ensures s in OpenSignals(events) <==> s in Track(events, rangeStart).active
             ensures s in OpenSignals(events) <==> s in Draw(events).signals {
      OpenSignalsMeaning(events, s);
      ChartSignalsAreOpen(events, s);
    }
    assert OpenSignals(events) == map[] <==> OpenSignals(events).Keys == {};
  }

  /** A signal the chart shows as an error is critical among the open signals. */
  lemma {:induction false} ErrorIsCritical(events: seq<Event>, s: Signal)
    requires forall e | e in events :: e.at.Some?
    requires ShownAs(Draw(events).signals, s, ErrorKind)
    ensures s in OpenSignals(events) && OpenSignals(events)[s].severity == Critical
  {
    hide Draw, OpenSignals;
    ChartKindsMeaning(events, s, ErrorKind);
    OpenSignalsMeaning(events, s);
    var i :| KindSince(events, i, s, ErrorKind);
    assert EntryFits(events, s, OpenSignals(events)[s]);
    var first :| FirstOpen(events, first, s)
      && (OpenSignals(events)[s].severity == Critical <==> CriticalSince(events, first, s));
    assert first <= i && Starts(events[i], s);
  }

  ghost predicate BandsBefore(c: Chart, m: int) {
    && (forall b | b in c.bands :: b.start <= b.end <= m)
    && (c.bandStart.Some? ==> c.bandStart.value <= m && forall b | b in c.bands :: b.end <= c.bandStart.value)
  }

  ghost predicate Sequential(bands: seq<Band>) {
    forall i, j | 0 <= i < j < |bands| :: bands[i].end <= bands[j].start
  }

  lemma {:induction false} BandsKeepOrder(c: Chart, e: Event)
    requires e.at.Some? && BandsBefore(c, e.at.value) && Sequential(c.bands)
    ensures BandsBefore(StepChart(c, e), e.at.value) && Sequential(StepChart(c, e).bands)
  {
    hide StrongestSignalKind, StepSignalKinds;
    var d := StepChart(c, e);
    if |d.bands| > |c.bands| {
      var b := d.bands[|c.bands|];
      assert d.bands == c.bands + [b];
      forall i | 0 <= i < |c.bands| ensures c.bands[i].end <= b.start { assert c.bands[i] in c.bands; }
    }
  }

  lemma {:induction false} BandsLater(c: Chart, m: int, n: int)
    requires BandsBefore(c, m) && m <= n
    ensures BandsBefore(c, n)
  {
  }

  /** Bands follow one another in time and never overlap. */
  lemma {:induction false} BandsSequential(events: seq<Event>, m: int)
    requires TimeOrdered(events)
    requires forall e | e in events && e.at.Some? :: e.at.value <= m
    ensures BandsBefore(Draw(events), m) && Sequential(Draw(events).bands)
  {
    if events != [] {
      hide StepChart, BandsBefore, Sequential;
      var front, e := events[..|events| - 1], events[|events| - 1];
      assert e in events;
      if e.at.Some? {
        forall f | f in front && f.at.Some? ensures f.at.value <= e.at.value {}
        BandsSequential(front, e.at.value);
        BandsKeepOrder(Draw(front), e);
        BandsLater(Draw(events), e.at.value, m);
      } else {
        BandsSequential(front, m);
        UnreadableIgnored(Draw(front), e);
      }
    }
  }

  /** One readable event changes only which band is open from its own instant on. */
  lemma {:induction false} BandsStep(c: Chart, e: Event, kind: Kind, t: int)
    requires e.at.Some? && BandsBefore(c, e.at.value)
    requires c.bandKind == StrongestSignalKind(c.signals) && (c.bandStart.Some? <==> c.bandKind.Some?)
    ensures var d := StepChart(c, e);
            InBand(d.bands, kind, t) || InOpenBand(d, kind, t) <==>
              if t < e.at.value then InBand(c.bands, kind, t) || InOpenBand(c, kind, t)
              else StrongestSignalKind(d.signals) == Some(kind)
  {
    hide StrongestSignalKind, StepSignalKinds;
    var d := StepChart(c, e);
    if |d.bands| > |c.bands| {
      var b := d.bands[|c.bands|];
      assert d.bands == c.bands + [b];
      assert forall x :: x in d.bands <==> x in c.bands || x == b;
    }
  }

  lemma {:induction false} DrawsReadable(events: seq<Event>)
    ensures Draw(events) == Draw(Readable(events))
    ensures forall e | e in Readable(events) :: e.at.Some?
  {
    if events != [] {
      hide StepChart;
      var front, e := events[..|events| - 1], events[|events| - 1];
      DrawsReadable(front);
      if e.at.Some? {
        assert Readable(events)[..|Readable(front)|] == Readable(front);
      } else {
        assert Readable(events) == Readable(front);
        UnreadableIgnored(Draw(front), e);
      }
    }
  }

  lemma {:induction false} UnreadableIgnored(c: Chart, e: Event)
    requires e.at.None?
    ensures StepChart(c, e) == c
  {
  }

  /** The strongest signal kind after the loop is the one the readable events leave open. */
  lemma {:induction false} StrongestAfter(events: seq<Event>)
    ensures StrongestSignalKind(Draw(events).signals) == StrongestKind(Readable(events))
  {
    DrawsReadable(events);
    StrongestMeaning(Readable(events));
    hide Draw, StrongestSignalKind, StrongestKind;
  }

  /**
   The bands refine the events: for readable times in order, an instant lies in a band of
   a kind, emitted or still open, exactly when that kind was the strongest then.
   */
  lemma {:induction false} BandsRefineFold(events: seq<Event>, kind: Kind, t: int)
    requires TimeOrdered(events)
    ensures InBand(Draw(events).bands, kind, t) || InOpenBand(Draw(events), kind, t) <==>
            KindAt(events, t) == Some(kind)
  {
    hide StrongestSignalKind, StrongestKind, InBand, InOpenBand, BandsBefore, StepChart;
    if events == [] {
      NothingDrawn(kind, t);
    } else {
      var front, e := events[..|events| - 1], events[|events| - 1];
      BandsRefineFold(front, kind, t);
      if e.at.Some? {
        forall f | f in front && f.at.Some? ensures f.at.value <= e.at.value {}
        BandTracksSignals(front);
        BandsSequential(front, e.at.value);
        BandsStep(Draw(front), e, kind, t);
        if e.at.value <= t {
          forall f | f in events && f.at.Some? ensures f.at.value <= t {}
          UntilAll(events, t);
          StrongestAfter(events);
        } else {
          assert Until(events, t) == Until(front, t);
        }
      } else {
        UnreadableIgnored(Draw(front), e);
        assert Until(events, t) == Until(front, t);
      }
    }
  }

  lemma {:induction false} NothingDrawn(kind: Kind, t: int)
    ensures !InBand(Draw([]).bands, kind, t) && !InOpenBand(Draw([]), kind, t) && KindAt([], t) == None
  {
    StrongestMeaning([]);
  }

  // ---- The band left open

  /** A band still open started with the latest event that changed the strongest kind. */
  lemma {:induction false} OpenBandStart(events: seq<Event>)
    ensures Draw(events).bandStart.Some? ==>
              exists j :: ChangesKind(events, j) && events[j].at == Draw(events).bandStart
                       && forall j' | ChangesKind(events, j') :: j' <= j
  {
    if events != [] {
      hide StrongestSignalKind, StrongestKind, ChangesKind;
      var front, e := events[..|events| - 1], events[|events| - 1];
      assert events == front + [e];
      OpenBandStart(front);
      BandTracksSignals(front);
      StrongestAfter(front);
      StrongestAfter(events);
      ChangesStep(front, e, |front|);
      var c, d := Draw(front), Draw(events);
      if ChangesKind(events, |front|) {
        forall j | ChangesKind(events, j) ensures j <= |front| { ChangeInRange(events, j); }
      } else if d.bandStart.Some? {
        assert d.bandStart == c.bandStart;
        var j :| ChangesKind(front, j) && front[j].at == c.bandStart && forall j' | ChangesKind(front, j') :: j' <= j;
        ChangeInRange(front, j);
        ChangesStep(front, e, j);
        forall j' | ChangesKind(events, j') ensures j' <= j {
          ChangeInRange(events, j');
          ChangesStep(front, e, j');
        }
      }
    }
  }

  /** The band left open holds exactly the instants from which on the kind no longer changes. */
  lemma {:induction false} OpenBandMeaning(events: seq<Event>, kind: Kind, t: int)
    requires TimeOrdered(events)
    ensures InOpenBand(Draw(events), kind, t) <==> KindAt(events, t) == Some(kind) && Settled(events, t)
  {
    hide StrongestSignalKind, StrongestKind, KindAfter, Draw, KindAt, TimeOrdered;
    var c := Draw(events);
    BandTracksSignals(events);
    StrongestAfter(events);
    BandsRefineFold(events, kind, t);
    OpenBandStart(events);
    if Settled(events, t) {
      SettledKind(events, t);
      if c.bandStart.Some? {
        var j :| ChangesKind(events, j) && events[j].at == c.bandStart;
      }
    }
    if InOpenBand(c, kind, t) {
      var j :| ChangesKind(events, j) && events[j].at == c.bandStart && forall j' | ChangesKind(events, j') :: j' <= j;
      forall j' | ChangesKind(events, j') ensures events[j'].at.value <= t { OrderedPair(events, j', j); }
    }
  }

  lemma {:induction false} OrderedPair(events: seq<Event>, i: int, j: int)
    requires TimeOrdered(events) && ChangesKind(events, i) && ChangesKind(events, j) && i <= j
    ensures events[i].at.value <= events[j].at.value
  {
    hide KindAfter;
  }

  /** An instant is in an emitted band of a kind exactly when the kind was strongest then and changed later. */
  lemma {:induction false} EmittedExactly(events: seq<Event>, kind: Kind, t: int)
    requires TimeOrdered(events)
    ensures InBand(Draw(events).bands, kind, t) <==> KindAt(events, t) == Some(kind) && !Settled(events, t)
  {
    hide Draw, KindAt, Settled, TimeOrdered, InBand, InOpenBand;
    BandsRefineFold(events, kind, t);
    OpenBandMeaning(events, kind, t);
    EmittedNotOpen(events, kind, t);
  }

  /** The emitted bands alone show the strongest kind at every instant before `last`. */
  ghost predicate ShownBefore(events: seq<Event>, last: int) {
    forall kind, t | t < last :: InBand(Draw(events).bands, kind, t) <==> KindAt(events, t) == Some(kind)
  }

  lemma {:induction false} ShownUnlessSettled(events: seq<Event>, last: int)
    requires TimeOrdered(events)
    ensures ShownBefore(events, last) <==> forall t | t < last && Settled(events, t) :: KindAt(events, t).None?
  {
    hide Draw, KindAt, Settled, TimeOrdered, InBand;
    var bands := Draw(events).bands;
    forall kind, t ensures InBand(bands, kind, t) <==> KindAt(events, t) == Some(kind) && !Settled(events, t) {
      EmittedExactly(events, kind, t);
    }
  }

  /**
   Only emitted bands are drawn by the loop. They show every instant before the last event exactly when the
   events leave nothing open, or one at that last instant changes the strongest kind.
   */
  lemma {:induction false} EmittedBandsComplete(events: seq<Event>, last: int)
    requires TimeOrdered(events)
    requires forall e | e in events && e.at.Some? :: e.at.value <= last
    ensures ShownBefore(events, last) <==>
            KindAfter(events, |events|).None? || exists j :: ChangesKind(events, j) && events[j].at.value >= last
  {
    hide KindAt, Settled, TimeOrdered, KindAfter, ShownBefore;
    ShownUnlessSettled(events, last);
    if j :| ChangesKind(events, j) && events[j].at.value >= last {
      forall t | t < last ensures !Settled(events, t) { NotSettled(events, j, t); }
    } else if KindAfter(events, |events|).None? {
      forall t | t < last && Settled(events, t) ensures KindAt(events, t).None? { SettledBeforeEnd(events, t); }
    } else {
      EarlySettled(events, last);
      SettledBeforeEnd(events, last - 1);
    }
  }

  const FAILURE := Event(1, Some(0), StateChanged, CriticalEvent, Some("exited"), false, None)

  const UNRELATED := Event(2, Some(10), RestartCountIncreased, WarningEvent, None, false, None)

  lemma {:induction false} FailureDrawn()
    ensures Draw([FAILURE, UNRELATED]).bands == []
  {
    var events := [FAILURE, UNRELATED];
    assert events[..1] == [FAILURE] && [FAILURE][..0] == [];
    var one := Draw([FAILURE]);
    assert one == StepChart(Draw([]), FAILURE);
    assert one.signals == map[StateSignal := ErrorKind];
    assert one.signals[StateSignal] == ErrorKind;
    assert Draw(events) == StepChart(one, UNRELATED);
  }

  /** A failure followed by an unrelated event: the instants between are in no emitted band. */
  lemma {:induction false} OpenBandNotEmitted()
    ensures KindAt([FAILURE, UNRELATED], 5) == Some(ErrorKind)
    ensures !InBand(Draw([FAILURE, UNRELATED]).bands, ErrorKind, 5)
  {
    var events := [FAILURE, UNRELATED];
    FailureDrawn();
    hide Draw;
    assert events[..1] == [FAILURE] && [FAILURE][..0] == [];
    assert Until(events, 5) == Until([FAILURE], 5) == [FAILURE];
    assert KindSince([FAILURE], 0, StateSignal, ErrorKind);
    assert OpenAs([FAILURE], StateSignal, ErrorKind);
  }

  // ---- The regions the chart shows

  datatype Status = ErrorStatus | StaleStatus | OfflineStatus | OtherStatus

  /** The container's present state: `receivedAt` is None when unreadable. */
  datatype Overview = Overview(status: Status, maintenanceActive: bool, receivedAt: Option<int>)

  const ONLINE_THRESHOLD_MS := 45_000

  function CreateRegion(b: Band, rangeStart: int, rangeEnd: int): Option<Band> {
    var start, end := Max(b.start, rangeStart), Min(b.end, rangeEnd);
    if end <= start then None else Some(Band(b.kind, start, end))
  }

  function PushRegion(regions: seq<Band>, b: Band, rangeStart: int, rangeEnd: int): seq<Band> {
    var region := CreateRegion(b, rangeStart, rangeEnd);
    if region.Some? then regions + [region.value] else regions
  }

  /** Where the band still open after the last event is drawn to, if at all. */
  function OpenBandEnd(current: Option<Overview>, generatedAt: Option<int>): Option<int> {
    if current.None? || current.value.maintenanceActive || generatedAt.None? then None
    else match current.value.status
      case ErrorStatus => generatedAt
      case OtherStatus => None
      case _ =>
        if current.value.receivedAt.Some?
        then Some(Min(generatedAt.value, current.value.receivedAt.value + ONLINE_THRESHOLD_MS)) else None
  }

  /**
   The container's present state carries a band still open past `t`: to the present for an error, and for a stale or
   offline container no further than 45 seconds after its last report.
   */
  predicate ReachesTo(current: Option<Overview>, generatedAt: Option<int>, t: int) {
    && current.Some? && !current.value.maintenanceActive && generatedAt.Some? && t < generatedAt.value
    && (|| current.value.status == ErrorStatus
        || (current.value.status in {StaleStatus, OfflineStatus} && current.value.receivedAt.Some?
            && t < current.value.receivedAt.value + 45_000))
  }

  lemma {:induction false} OpenBandEndMeaning(current: Option<Overview>, generatedAt: Option<int>, t: int)
    ensures ReachesTo(current, generatedAt, t) <==>
            OpenBandEnd(current, generatedAt).Some? && t < OpenBandEnd(current, generatedAt).value
  {
  }

  lemma {:induction false} PushRegionShows(regions: seq<Band>, b: Band, rangeStart: int, rangeEnd: int, kind: Kind,
                                           t: int)
    ensures InBand(PushRegion(regions, b, rangeStart, rangeEnd), kind, t) <==>
            InBand(regions, kind, t) || (rangeStart <= t < rangeEnd && b.kind == kind && b.start <= t < b.end)
  {
    var region := CreateRegion(b, rangeStart, rangeEnd);
    if region.Some? {
      assert forall r :: r in regions + [region.value] <==> r in regions || r == region.value;
    }
  }

  predicate InRange(regions: seq<Band>, rangeStart: int, rangeEnd: int) {
    forall b | b in regions :: rangeStart <= b.start < b.end <= rangeEnd
  }

  lemma {:induction false} PushInRange(regions: seq<Band>, b: Band, rangeStart: int, rangeEnd: int)
    requires InRange(regions, rangeStart, rangeEnd)
    ensures InRange(PushRegion(regions, b, rangeStart, rangeEnd), rangeStart, rangeEnd)
  {
  }

  /** The clipped regions are the bands, restricted to the range. */
  ghost predicate Shows(regions: seq<Band>, bands: seq<Band>, rangeStart: int, rangeEnd: int) {
    forall kind, t :: InBand(regions, kind, t) <==> rangeStart <= t < rangeEnd && InBand(bands, kind, t)
  }

  lemma {:induction false} ShowsOneMore(regions: seq<Band>, bands: seq<Band>, b: Band, rangeStart: int, rangeEnd: int)
    requires Shows(regions, bands, rangeStart, rangeEnd)
    ensures Shows(PushRegion(regions, b, rangeStart, rangeEnd), bands + [b], rangeStart, rangeEnd)
  {
    forall kind, t
      ensures InBand(PushRegion(regions, b, rangeStart, rangeEnd), kind, t) <==>
              rangeStart <= t < rangeEnd && InBand(bands + [b], kind, t)
    {
      PushRegionShows(regions, b, rangeStart, rangeEnd, kind, t);
      assert forall x :: x in bands + [b] <==> x in bands || x == b;
    }
  }

  /**
   A region of a kind is shown at an instant exactly when the instant is in
   range, that kind was the strongest then, and either a later event changed the
   strongest kind or the container's present state extends the open band that far.
   */
  method ContainerIncidentRegions(events: seq<Event>, current: Option<Overview>, generatedAt: Option<int>,
                                  rangeStart: int, rangeEnd: int)
    returns (regions: seq<Band>)
    ensures TimeOrdered(events) ==> forall kind, t :: InBand(regions, kind, t) <==>
      && rangeStart <= t < rangeEnd && KindAt(events, t) == Some(kind)
      && (Settled(events, t) ==> ReachesTo(current, generatedAt, t))
    ensures forall b | b in regions :: rangeStart <= b.start < b.end <= rangeEnd
  {
    hide Shows, StrongestSignalKind, PushRegion;
    regions := [];
    var activeSignals: map<Signal, Kind> := map[];
    var bandKind: Option<Kind>, bandStart: Option<int> := None, None;
    var expectedState: Option<Option<Expected>> := None;
    NoRegions(rangeStart, rangeEnd);
    var k := 0;
    while k < |events|
      invariant 0 <= k <= |events|
      invariant Draw(events[..k]) == Chart(activeSignals, expectedState, bandKind, bandStart, Draw(events[..k]).bands)
      invariant Shows(regions, Draw(events[..k]).bands, rangeStart, rangeEnd)
      invariant InRange(regions, rangeStart, rangeEnd)
    {
      var event := events[k];
      ghost var bands := Draw(events[..k]).bands;
      assert events[..k + 1][..k] == events[..k];
      k := k + 1;
      if event.at.None? { continue; }
      var eventMs := event.at.value;
      var previousKind := StrongestSignalKind(activeSignals);
      if expectedState.Some? && event.expected != expectedState.value { activeSignals := map[]; }
      expectedState := Some(event.expected);
      var signal := SignalName(event);
      if signal.Some? {
        var nextSignalKind := EventOverlayKind(event);
        if nextSignalKind.Some? {
          activeSignals := activeSignals[signal.value := nextSignalKind.value];
        } else if ResolvesSignal(event) {
          activeSignals := activeSignals - {signal.value};
        }
      }
      var nextKind := StrongestSignalKind(activeSignals);
      if previousKind == nextKind {
        if nextKind.Some? && bandStart.None? {
          bandStart, bandKind := Some(eventMs), nextKind;
        }
        continue;
      }
      if previousKind.Some? && bandStart.Some? {
        var band := Band(previousKind.value, bandStart.value, eventMs);
        ShowsOneMore(regions, bands, band, rangeStart, rangeEnd);
        PushInRange(regions, band, rangeStart, rangeEnd);
        regions := PushRegion(regions, band, rangeStart, rangeEnd);
      }
      bandStart, bandKind := if nextKind.Some? then Some(eventMs) else None, nextKind;
    }
    assert events[..k] == events;
    ghost var closed := regions;
    if bandKind.Some? && bandStart.Some? {
      var bandEnd := OpenBandEnd(current, generatedAt);
      if bandEnd.Some? {
        PushInRange(regions, Band(bandKind.value, bandStart.value, bandEnd.value), rangeStart, rangeEnd);
        regions := PushRegion(regions, Band(bandKind.value, bandStart.value, bandEnd.value), rangeStart, rangeEnd);
      }
    }
    RegionsMeaning(events, current, generatedAt, rangeStart, rangeEnd, closed, regions);
  }

  lemma {:induction false} NoRegions(rangeStart: int, rangeEnd: int)
    ensures Shows([], [], rangeStart, rangeEnd)
  {
  }

  lemma {:induction false} RegionsMeaning(events: seq<Event>, current: Option<Overview>, generatedAt: Option<int>,
                       rangeStart: int, rangeEnd: int, closed: seq<Band>, regions: seq<Band>)
    requires Shows(closed, Draw(events).bands, rangeStart, rangeEnd)
    requires var c, end := Draw(events), OpenBandEnd(current, generatedAt);
             regions == if c.bandKind.Some? && c.bandStart.Some? && end.Some?
                        then PushRegion(closed, Band(c.bandKind.value, c.bandStart.value, end.value), rangeStart,
                                        rangeEnd)
                        else closed
    ensures TimeOrdered(events) ==> forall kind, t :: InBand(regions, kind, t) <==>
      && rangeStart <= t < rangeEnd && KindAt(events, t) == Some(kind)
      && (Settled(events, t) ==> ReachesTo(current, generatedAt, t))
  {
    if TimeOrdered(events) {
      forall kind, t
        ensures InBand(regions, kind, t) <==>
          && rangeStart <= t < rangeEnd && KindAt(events, t) == Some(kind)
          && (Settled(events, t) ==> ReachesTo(current, generatedAt, t))
      {
        var c, end := Draw(events), OpenBandEnd(current, generatedAt);
        EmittedExactly(events, kind, t);
        OpenBandMeaning(events, kind, t);
        OpenBandEndMeaning(current, generatedAt, t);
        if c.bandKind.Some? && c.bandStart.Some? && end.Some? {
          PushRegionShows(closed, Band(c.bandKind.value, c.bandStart.value, end.value), rangeStart, rangeEnd, kind, t);
        }
      }
    }
  }

  lemma {:induction false} EmittedNotOpen(events: seq<Event>, kind: Kind, t: int)
    requires TimeOrdered(events)
    ensures !(InBand(Draw(events).bands, kind, t) && InOpenBand(Draw(events), kind, t))
  {
    var m := Latest(events);
    BandsSequential(events, m);
  }

  lemma {:induction false} Latest(events: seq<Event>) returns (m: int)
    ensures forall e | e in events && e.at.Some? :: e.at.value <= m
  {
    if events == [] { return 0; }
    m := Latest(events[..|events| - 1]);
    var e := events[|events| - 1];
    assert events == events[..|events| - 1] + [e];
    if e.at.Some? && e.at.value > m { m := e.at.value; }
  }
}
