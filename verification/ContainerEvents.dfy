/**
 A container's monitoring events, and which signals they leave open. Three folds
 in two files maintain that set; here it is defined without a fold
 (apps/web/lib/incidents.ts, apps/web/lib/history-status-overlays.ts).
 */
module ContainerEvents {
  import opened Wrappers

  datatype Signal = StateSignal | HealthSignal | ExitSignal

  datatype EventType =
    | StateChanged | HealthChanged | ExitCodeChanged | RestartCountIncreased
    | OomKilled | MaintenanceStarted | MaintenanceEnded

  datatype EventSeverity = InfoEvent | WarningEvent | CriticalEvent | RecoveryEvent

  datatype Severity = Warning | Critical

  datatype Expected = ExpectRunning | ExpectStopped | ExpectAbsent

  /** `at` is `Date.parse(occurredAt)`; `toIsZero` is whether `Number(toValue) === 0`. */
  datatype Event = Event(
    id: int, at: Option<int>, kind: EventType, severity: EventSeverity,
    toValue: Option<string>, toIsZero: bool, expected: Option<Expected>)

  function SignalName(e: Event): Option<Signal> {
    match e.kind
    case StateChanged => Some(StateSignal)
    case HealthChanged => Some(HealthSignal)
    case ExitCodeChanged => Some(ExitSignal)
    case _ => None
  }

  function IncidentSeverity(e: Event): Option<Severity> {
    match e.severity
    case CriticalEvent => Some(Critical)
    case WarningEvent => Some(Warning)
    case _ => None
  }

  predicate ResolvesSignal(e: Event) {
    if e.severity == RecoveryEvent then true
    else match e.kind
      case HealthChanged => e.toValue == Some("healthy")
      case ExitCodeChanged => e.toValue.Some? && e.toIsZero
      case StateChanged =>
        || (e.expected == Some(ExpectStopped) && e.toValue in {Some("exited"), Some("created")})
        || (e.expected == Some(ExpectAbsent) && e.toValue == Some("not_found"))
        || (e.expected != Some(ExpectStopped) && e.expected != Some(ExpectAbsent) && e.toValue == Some("running"))
      case _ => false
  }

  function MaxSeverity(a: Severity, b: Severity): Severity { if b == Critical && a == Warning then b else a }

  // ---- The reference: which signals are open

  predicate Starts(e: Event, s: Signal) { SignalName(e) == Some(s) && IncidentSeverity(e).Some? }

  predicate Stops(e: Event, s: Signal) { SignalName(e) == Some(s) && IncidentSeverity(e).None? && ResolvesSignal(e) }

  /** Nothing after event `i` stops `s` or changes the expected state. */
  ghost predicate Undisturbed(events: seq<Event>, i: int, s: Signal)
    requires 0 <= i < |events|
  {
    forall j | i < j < |events| :: !Stops(events[j], s) && events[j].expected == events[i].expected
  }

  /** Event `i` started `s`, which has stayed open since. */
  ghost predicate OpenSince(events: seq<Event>, i: int, s: Signal) {
    0 <= i < |events| && Starts(events[i], s) && Undisturbed(events, i, s)
  }

  ghost predicate Open(events: seq<Event>, s: Signal) { exists i :: OpenSince(events, i, s) }

  /** The readable times never go back. */
  ghost predicate TimeOrdered(events: seq<Event>) {
    forall i, j | 0 <= i < j < |events| && events[i].at.Some? && events[j].at.Some? ::
      events[i].at.value <= events[j].at.value
  }

  predicate Changed(events: seq<Event>, e: Event) { events != [] && events[|events| - 1].expected != e.expected }

  lemma {:induction false} NothingOpen(s: Signal)
    ensures !Open([], s)
  {
  }

  lemma {:induction false} OpenSinceStep(events: seq<Event>, e: Event, i: int, s: Signal)
    ensures OpenSince(events + [e], i, s) <==>
            if i == |events| then Starts(e, s) else !Changed(events, e) && !Stops(e, s) && OpenSince(events, i, s)
  {
    var more := events + [e];
    if 0 <= i < |events| {
      assert forall j | i < j < |events| :: more[j] == events[j];
      if OpenSince(more, i, s) {
        assert more[|events|] == e && events[|events| - 1] == more[|events| - 1];
        assert i < |events| - 1 ==> more[|events| - 1].expected == more[i].expected;
      }
      if OpenSince(events, i, s) && !Changed(events, e) {
        assert i < |events| - 1 ==> events[|events| - 1].expected == events[i].expected;
      }
    }
  }

  lemma {:induction false} OpenStep(events: seq<Event>, e: Event, s: Signal)
    ensures Open(events + [e], s) <==> Starts(e, s) || (!Changed(events, e) && !Stops(e, s) && Open(events, s))
  {
    if i :| OpenSince(events + [e], i, s) { OpenSinceStep(events, e, i, s); }
    if Starts(e, s) { OpenSinceStep(events, e, |events|, s); }
    if i :| !Changed(events, e) && !Stops(e, s) && OpenSince(events, i, s) { OpenSinceStep(events, e, i, s); }
  }
}
