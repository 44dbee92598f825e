/**
 Which kind of incident a container's chart should show at an instant, from the
 events alone (apps/web/lib/history-status-overlays.ts).
 */
module ChartKinds {
  import opened Wrappers
  import opened ContainerEvents

  datatype Kind = StaleKind | ErrorKind

  function EventOverlayKind(e: Event): Option<Kind> {
    match e.severity
    case CriticalEvent => Some(ErrorKind)
    case WarningEvent => Some(StaleKind)
    case _ => None
  }

  /** Event `i` is the latest to have started `s`, which is open since, and has this kind. */
  ghost predicate KindSince(events: seq<Event>, i: int, s: Signal, kind: Kind) {
    && OpenSince(events, i, s) && EventOverlayKind(events[i]) == Some(kind)
    && forall j | i < j < |events| :: !Starts(events[j], s)
  }

  /** `s` is open, with the kind of the latest event that started it. */
  ghost predicate OpenAs(events: seq<Event>, s: Signal, kind: Kind) { exists i :: KindSince(events, i, s, kind) }

  /** The strongest kind among the open signals. */
  ghost function StrongestKind(events: seq<Event>): Option<Kind> {
    if exists s :: OpenAs(events, s, ErrorKind) then Some(ErrorKind)
    else if exists s :: OpenAs(events, s, StaleKind) then Some(StaleKind)
    else None
  }

  lemma {:induction false} KindSinceStep(events: seq<Event>, e: Event, i: int, s: Signal, kind: Kind)
    ensures KindSince(events + [e], i, s, kind) <==>
            if i == |events| then Starts(e, s) && EventOverlayKind(e) == Some(kind)
            else !Changed(events, e) && !Stops(e, s) && !Starts(e, s) && KindSince(events, i, s, kind)
  {
    OpenSinceStep(events, e, i, s);
    var more := events + [e];
    assert more[|events|] == e && forall j | 0 <= j < |events| :: more[j] == events[j];
    hide OpenSince, Starts, Stops, Changed, EventOverlayKind;
  }

  lemma {:induction false} KindSinceInRange(events: seq<Event>, i: int, s: Signal, kind: Kind)
    requires KindSince(events, i, s, kind)
    ensures 0 <= i < |events|
  {
  }

  /** One more event: a start sets the kind anew, anything else keeps or loses it with the signal. */
  lemma {:induction false} OpenAsStep(events: seq<Event>, e: Event, s: Signal, kind: Kind)
    ensures OpenAs(events + [e], s, kind) <==>
            if Starts(e, s) then EventOverlayKind(e) == Some(kind)
            else !Changed(events, e) && !Stops(e, s) && OpenAs(events, s, kind)
  {
    hide KindSince, Starts, Stops, Changed, EventOverlayKind;
    if i :| KindSince(events + [e], i, s, kind) { KindSinceStep(events, e, i, s, kind); }
    KindSinceStep(events, e, |events|, s, kind);
    if i :| KindSince(events, i, s, kind) {
      KindSinceInRange(events, i, s, kind);
      KindSinceStep(events, e, i, s, kind);
    }
  }

  /** An open signal has one kind, and only an open signal has one. */
  lemma {:induction false} OneKind(events: seq<Event>, s: Signal)
    ensures Open(events, s) <==> OpenAs(events, s, ErrorKind) || OpenAs(events, s, StaleKind)
    ensures !(OpenAs(events, s, ErrorKind) && OpenAs(events, s, StaleKind))
  {
    if events != [] {
      var front, e := events[..|events| - 1], events[|events| - 1];
      assert events == front + [e];
      assert Starts(e, s) ==> EventOverlayKind(e).Some?;
      OneKind(front, s);
      OpenStep(front, e, s);
      OpenAsStep(front, e, s, ErrorKind);
      OpenAsStep(front, e, s, StaleKind);
      hide Open, OpenAs, Starts, Stops, Changed, EventOverlayKind;
    }
  }

  // ---- Instants

  /** The events whose time can be read. */
  function Readable(events: seq<Event>): seq<Event> {
    if events == [] then []
    else
      Readable(events[..|events| - 1]) + if events[|events| - 1].at.Some? then [events[|events| - 1]] else []
  }

  /** Those that had happened by `t`. */
  function Until(events: seq<Event>, t: int): seq<Event> {
    if events == [] then []
    else
      var e := events[|events| - 1];
      Until(events[..|events| - 1], t) + if e.at.Some? && e.at.value <= t then [e] else []
  }

  /** The strongest kind the events up to `t` leave open. */
  ghost function KindAt(events: seq<Event>, t: int): Option<Kind> { StrongestKind(Until(events, t)) }

  /** The strongest kind the first `n` events leave open. */
  ghost function KindAfter(events: seq<Event>, n: nat): Option<Kind>
    requires n <= |events|
  {
    StrongestKind(Readable(events[..n]))
  }

  ghost predicate ChangesKind(events: seq<Event>, j: int) {
    0 <= j < |events| && events[j].at.Some? && KindAfter(events, j) != KindAfter(events, j + 1)
  }

  /** No event later than `t` changes the strongest kind. */
  ghost predicate Settled(events: seq<Event>, t: int) {
    forall j | ChangesKind(events, j) :: events[j].at.value <= t
  }

  lemma {:induction false} UntilAll(events: seq<Event>, t: int)
    requires forall e | e in events && e.at.Some? :: e.at.value <= t
    ensures Until(events, t) == Readable(events)
  {
    if events != [] {
      var front, e := events[..|events| - 1], events[|events| - 1];
      assert events == front + [e] && e in events;
      UntilAll(front, t);
    }
  }

  lemma {:induction false} ChangesStep(front: seq<Event>, e: Event, j: int)
    ensures j < |front| ==> (ChangesKind(front + [e], j) <==> ChangesKind(front, j))
    ensures ChangesKind(front + [e], |front|) <==>
            e.at.Some? && StrongestKind(Readable(front)) != StrongestKind(Readable(front + [e]))
  {
    var more := front + [e];
    assert forall n | 0 <= n <= |front| :: more[..n] == front[..n];
    assert front[..|front|] == front && more[..|front| + 1] == more && more[|front|] == e;
    hide StrongestKind;
  }

  /** Once settled, the kind is the one all the events leave. */
  lemma {:induction false} SettledKind(events: seq<Event>, t: int)
    requires TimeOrdered(events) && Settled(events, t)
    ensures KindAt(events, t) == StrongestKind(Readable(events))
  {
    if events != [] {
      hide StrongestKind, ChangesKind;
      var front, e := events[..|events| - 1], events[|events| - 1];
      assert events == front + [e];
      forall j | ChangesKind(front, j) ensures front[j].at.Some? && front[j].at.value <= t {
        ChangeInRange(front, j);
        ChangesStep(front, e, j);
        ChangeInRange(events, j);
        assert events[j] == front[j];
      }
      ChangesStep(front, e, |front|);
      if e.at.Some? && e.at.value <= t {
        forall f | f in events && f.at.Some? ensures f.at.value <= t {}
        UntilAll(events, t);
      } else {
        SettledKind(front, t);
        assert Until(events, t) == Until(front, t);
        assert !ChangesKind(events, |front|);
        if e.at.None? { assert Readable(events) == Readable(front); }
      }
    }
  }

  lemma {:induction false} ChangeInRange(events: seq<Event>, j: int)
    requires ChangesKind(events, j)
    ensures 0 <= j < |events| && events[j].at.Some?
  {
    hide KindAfter;
  }

  lemma {:induction false} NotSettled(events: seq<Event>, j: int, t: int)
    requires ChangesKind(events, j) && t < events[j].at.value
    ensures !Settled(events, t)
  {
    hide ChangesKind;
  }

  lemma {:induction false} SettledBeforeEnd(events: seq<Event>, t: int)
    requires TimeOrdered(events) && Settled(events, t)
    ensures KindAt(events, t) == KindAfter(events, |events|)
  {
    SettledKind(events, t);
    assert events[..|events|] == events;
    hide StrongestKind, Settled;
  }

  /** Whatever changes the kind only before `last` is settled just before it. */
  lemma {:induction false} EarlySettled(events: seq<Event>, last: int)
    requires forall j | ChangesKind(events, j) :: events[j].at.value < last
    ensures Settled(events, last - 1)
  {
    hide ChangesKind;
  }
}
