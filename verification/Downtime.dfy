/**
 Raw and SLO-counted downtime (apps/web/lib/reliability-maintenance-metrics.ts and
 apps/web/lib/reliability-metrics.ts), specified by the instants that count.
 */
module Downtime {
  import opened Wrappers
  import opened Sets
  import opened Intervals

  /** A timestamp string: null or empty, one `Date.parse` rejects, or an instant. */
  datatype Stamp = Absent | Unparsable | At(ms: int)

  datatype EntityType = HostEntity | ContainerEntity | BackupEntity

  datatype ServiceId = Overall | Service(entity: EntityType)

  datatype Subject = Subject(
    entity: EntityType,
    hostId: string,
    containerName: Option<string>,
    backupTarget: string,
    gameMode: string,
    backupType: string,
    startReason: string)

  datatype Incident =
    | Active(subject: Subject, startedAt: Stamp, exactStart: bool)
    | Recovered(subject: Subject, startedAt: Stamp, recoveredAt: Stamp)

  datatype Scope =
    | ServiceScope(serviceId: Option<ServiceId>)
    | HostScope(hostId: Option<string>)
    | ContainerScope(hostId: Option<string>, containerName: Option<string>)
    | BackupScope(hostId: Option<string>, backupTarget: Option<string>,
                  gameMode: Option<string>, backupType: Option<string>)

  datatype Window = Window(scope: Scope, startsAt: Stamp, endsAt: Stamp, cancelledAt: Stamp)

  datatype Adjustment = Adjustment(raw: int, counted: int, excluded: int, exactCoverage: bool)

  const OOM_KILLED := "OOMKilledを検知"

  // ---- The source's pure functions

  function ClipInterval(startedAt: Stamp, endedAt: Stamp, rangeStart: int, rangeEnd: int): Option<Interval> {
    if startedAt.At? && endedAt.At? then
      var start, end := Max(startedAt.ms, rangeStart), Min(endedAt.ms, rangeEnd);
      if end > start then Some(Interval(start, end)) else None
    else None
  }

  function EffectiveEnd(w: Window): Stamp {
    if w.cancelledAt.Absent? then w.endsAt
    else if w.endsAt.At? && w.cancelledAt.At? then At(Min(w.endsAt.ms, w.cancelledAt.ms))
    else Unparsable
  }

  function EffectiveWindowInterval(w: Window, rangeStart: int, rangeEnd: int): Option<Interval> {
    ClipInterval(w.startsAt, EffectiveEnd(w), rangeStart, rangeEnd)
  }

  predicate MaintenanceExcludable(s: Subject) {
    !(s.entity == ContainerEntity && s.startReason == OOM_KILLED)
  }

  predicate AppliesToIncident(w: Window, s: Subject) {
    MaintenanceExcludable(s) &&
    match w.scope
    case ServiceScope(id) => id == Some(Overall) || id == Some(Service(s.entity))
    case HostScope(host) => host == Some(s.hostId)
    case ContainerScope(host, name) =>
      s.entity == ContainerEntity && host == Some(s.hostId) && name == s.containerName
    case BackupScope(host, target, mode, kind) =>
      s.entity == BackupEntity && host == Some(s.hostId) && target == Some(s.backupTarget)
      && mode == Some(s.gameMode) && kind == Some(s.backupType)
  }

  function IncidentInterval(i: Incident, rangeStart: int, rangeEnd: int): Option<Interval> {
    match i
    case Recovered(_, startedAt, recoveredAt) => ClipInterval(startedAt, recoveredAt, rangeStart, rangeEnd)
    case Active(_, startedAt, exactStart) =>
      if !exactStart || startedAt.Absent? then None
      else ClipInterval(startedAt, At(rangeEnd), rangeStart, rangeEnd)
  }

  function Entries(windows: seq<Window>, rangeStart: int, rangeEnd: int): seq<(Window, Interval)> {
    if windows == [] then [] else
      var interval := EffectiveWindowInterval(windows[0], rangeStart, rangeEnd);
      (if interval.Some? then [(windows[0], interval.value)] else []) + Entries(windows[1..], rangeStart, rangeEnd)
  }

  function ExclusionsFor(entries: seq<(Window, Interval)>, s: Subject): seq<Interval> {
    if entries == [] then [] else
      (if AppliesToIncident(entries[0].0, s) then [entries[0].1] else []) + ExclusionsFor(entries[1..], s)
  }

  // ---- Which instants count: the specification

  predicate Down(i: Incident, t: int) {
    i.startedAt.At? && i.startedAt.ms <= t &&
    match i
    case Recovered(_, _, recoveredAt) => recoveredAt.At? && t < recoveredAt.ms
    case Active(_, _, exactStart) => exactStart
  }

  predicate InWindow(w: Window, t: int) {
    && w.startsAt.At? && w.startsAt.ms <= t
    && w.endsAt.At? && t < w.endsAt.ms
    && (w.cancelledAt.Absent? || (w.cancelledAt.At? && t < w.cancelledAt.ms))
  }

  predicate Excused(s: Subject, windows: seq<Window>, t: int) {
    exists w | w in windows :: AppliesToIncident(w, s) && InWindow(w, t)
  }

  predicate RawAt(incidents: seq<Incident>, t: int) {
    exists i | i in incidents :: Down(i, t)
  }

  predicate CountedAt(incidents: seq<Incident>, windows: seq<Window>, t: int) {
    exists i | i in incidents :: Down(i, t) && !Excused(i.subject, windows, t)
  }

  predicate KnownStart(i: Incident) { i.Active? ==> i.exactStart && !i.startedAt.Absent? }

  function RawSet(incidents: seq<Incident>, rangeStart: int, rangeEnd: int): set<int> {
    set t | rangeStart <= t < rangeEnd && RawAt(incidents, t)
  }

  function CountedSet(incidents: seq<Incident>, windows: seq<Window>, rangeStart: int, rangeEnd: int): set<int> {
    set t | rangeStart <= t < rangeEnd && CountedAt(incidents, windows, t)
  }

  /** What the figures mean, with no interval in sight. */
  function Adjust(incidents: seq<Incident>, windows: seq<Window>, rangeStart: int, rangeEnd: int): Adjustment {
    var raw, counted := |RawSet(incidents, rangeStart, rangeEnd)| / 1000,
                        |CountedSet(incidents, windows, rangeStart, rangeEnd)| / 1000;
    Adjustment(raw, counted, Max(0, raw - counted), forall i | i in incidents :: KnownStart(i))
  }

  // ---- From the source's intervals to those instants

  lemma {:induction false} ClipMeaning(startedAt: Stamp, endedAt: Stamp, rangeStart: int, rangeEnd: int, t: int)
    ensures var c := ClipInterval(startedAt, endedAt, rangeStart, rangeEnd);
            (c.Some? && Within(t, c.value)) <==>
            (rangeStart <= t < rangeEnd && startedAt.At? && endedAt.At? && startedAt.ms <= t < endedAt.ms)
  {
  }

  lemma {:induction false} EntriesMeaning(windows: seq<Window>, s: Subject, rangeStart: int, rangeEnd: int)
    ensures var ex := ExclusionsFor(Entries(windows, rangeStart, rangeEnd), s);
            forall t | rangeStart <= t < rangeEnd :: t in Cover(ex) <==> Excused(s, windows, t)
  {
    if windows != [] {
      var w, rest := windows[0], Entries(windows[1..], rangeStart, rangeEnd);
      EntriesMeaning(windows[1..], s, rangeStart, rangeEnd);
      var own := EffectiveWindowInterval(w, rangeStart, rangeEnd);
      var head := if own.Some? then [(w, own.value)] else [];
      assert Entries(windows, rangeStart, rangeEnd) == head + rest;
      var front := if own.Some? && AppliesToIncident(w, s) then [own.value] else [];
      assert ExclusionsFor(head + rest, s) == front + ExclusionsFor(rest, s) by {
        if own.Some? { assert (head + rest)[1..] == rest; } else { assert head + rest == rest; }
      }
      CoverAppend(front, ExclusionsFor(rest, s));
      forall t | rangeStart <= t < rangeEnd
        ensures t in Cover(front + ExclusionsFor(rest, s)) <==> Excused(s, windows, t)
      {
        ClipMeaning(w.startsAt, EffectiveEnd(w), rangeStart, rangeEnd, t);
        CoverMember(front, t);
        assert InWindow(w, t) <==> own.Some? && Within(t, own.value);
        assert Excused(s, windows, t) <==> (AppliesToIncident(w, s) && InWindow(w, t)) || Excused(s, windows[1..], t);
      }
    }
  }

  lemma {:induction false} IncidentMeaning(i: Incident, rangeStart: int, rangeEnd: int, t: int)
    ensures var v := IncidentInterval(i, rangeStart, rangeEnd);
            (v.Some? && Within(t, v.value)) <==> (rangeStart <= t < rangeEnd && Down(i, t))
  {
    ClipMeaning(i.startedAt, if i.Recovered? then i.recoveredAt else At(rangeEnd), rangeStart, rangeEnd, t);
  }

  lemma {:induction false} OneMore(incidents: seq<Incident>, i: Incident, windows: seq<Window>, rangeStart: int,
                                   rangeEnd: int)
    ensures var v, more := IncidentInterval(i, rangeStart, rangeEnd), incidents + [i];
            && v.Some? ==>
               && RawSet(more, rangeStart, rangeEnd) == RawSet(incidents, rangeStart, rangeEnd) + Points(v.value)
               && CountedSet(more, windows, rangeStart, rangeEnd)
                 == CountedSet(incidents, windows, rangeStart, rangeEnd)
                  + (Points(v.value) - Cover(ExclusionsFor(Entries(windows, rangeStart, rangeEnd), i.subject)))
    ensures IncidentInterval(i, rangeStart, rangeEnd).None? ==>
               && RawSet(incidents + [i], rangeStart, rangeEnd) == RawSet(incidents, rangeStart, rangeEnd)
               && CountedSet(incidents + [i], windows, rangeStart, rangeEnd)
                 == CountedSet(incidents, windows, rangeStart, rangeEnd)
  {
    EntriesMeaning(windows, i.subject, rangeStart, rangeEnd);
    var v, more := IncidentInterval(i, rangeStart, rangeEnd), incidents + [i];
    forall t | rangeStart <= t < rangeEnd
      ensures RawAt(more, t) <==> RawAt(incidents, t) || (v.Some? && Within(t, v.value))
      ensures CountedAt(more, windows, t) <==>
              CountedAt(incidents, windows, t) || (v.Some? && Within(t, v.value) && !Excused(i.subject, windows, t))
    {
      IncidentMeaning(i, rangeStart, rangeEnd, t);
    }
    if v.Some? {
      forall t | t in Points(v.value) ensures rangeStart <= t < rangeEnd {
        IncidentMeaning(i, rangeStart, rangeEnd, t);
      }
    }
  }

  // ---- The two collectors

  /** The step both loops of the source share: one incident's interval, less its exclusions. */
  method PushIncident(incident: Incident, windows: seq<Window>, ghost before: seq<Incident>,
                      rangeStart: int, rangeEnd: int, raw: seq<Interval>, counted: seq<Interval>)
    returns (raw': seq<Interval>, counted': seq<Interval>)
    requires Proper(raw) && Proper(counted)
    requires Cover(raw) == RawSet(before, rangeStart, rangeEnd)
    requires Cover(counted) == CountedSet(before, windows, rangeStart, rangeEnd)
    ensures Proper(raw') && Proper(counted')
    ensures Cover(raw') == RawSet(before + [incident], rangeStart, rangeEnd)
    ensures Cover(counted') == CountedSet(before + [incident], windows, rangeStart, rangeEnd)
  {
    hide RawSet, CountedSet, Cover, Points, ExclusionsFor, Entries;
    var interval := IncidentInterval(incident, rangeStart, rangeEnd);
    OneMore(before, incident, windows, rangeStart, rangeEnd);
    if interval.None? { return raw, counted; }
    var rest := SubtractIntervals(interval.value,
                                  ExclusionsFor(Entries(windows, rangeStart, rangeEnd), incident.subject));
    CoverSnoc(raw, interval.value);
    CoverAppend(counted, rest);
    return raw + [interval.value], counted + rest;
  }

  method CollectMaintenanceAdjustedDowntime(active: seq<Incident>, recovered: seq<Incident>, windows: seq<Window>,
                                            rangeStart: int, rangeEnd: int)
    returns (r: Adjustment)
    requires forall i | i in active :: i.Active?
    requires forall i | i in recovered :: i.Recovered?
    ensures r == Adjust(recovered + active, windows, rangeStart, rangeEnd)
    ensures r.exactCoverage <==> forall i | i in active :: i.exactStart && i.startedAt != Absent
  {
    hide RawSet, CountedSet, Cover, IncidentInterval;
    var raw: seq<Interval>, counted: seq<Interval>, exactCoverage := [], [], true;
    NothingYet(windows, rangeStart, rangeEnd);
    assert recovered[..0] == [];
    var k := 0;
    while k < |recovered|
      invariant 0 <= k <= |recovered| && Proper(raw) && Proper(counted)
      invariant Cover(raw) == RawSet(recovered[..k], rangeStart, rangeEnd)
      invariant Cover(counted) == CountedSet(recovered[..k], windows, rangeStart, rangeEnd)
    {
      raw, counted := PushIncident(recovered[k], windows, recovered[..k], rangeStart, rangeEnd, raw, counted);
      assert recovered[..k + 1] == recovered[..k] + [recovered[k]];
      k := k + 1;
    }
    assert recovered[..k] == recovered == recovered + active[..0];
    k := 0;
    while k < |active|
      invariant 0 <= k <= |active| && Proper(raw) && Proper(counted)
      invariant Cover(raw) == RawSet(recovered + active[..k], rangeStart, rangeEnd)
      invariant Cover(counted) == CountedSet(recovered + active[..k], windows, rangeStart, rangeEnd)
      invariant exactCoverage <==> forall j | 0 <= j < k :: KnownStart(active[j])
    {
      var incident := active[k];
      assert recovered + active[..k + 1] == (recovered + active[..k]) + [incident];
      if !incident.exactStart || incident.startedAt.Absent? {
        exactCoverage := false;
        UnknownStart(recovered + active[..k], incident, windows, rangeStart, rangeEnd);
      } else {
        raw, counted := PushIncident(incident, windows, recovered + active[..k], rangeStart, rangeEnd, raw, counted);
      }
      k := k + 1;
    }
    assert active[..k] == active;
    var rawSeconds := UnionSeconds(raw);
    var countedSeconds := UnionSeconds(counted);
    assert forall i | i in recovered :: KnownStart(i);
    return Adjustment(rawSeconds, countedSeconds, Max(0, rawSeconds - countedSeconds), exactCoverage);
  }

  lemma {:induction false} NothingYet(windows: seq<Window>, rangeStart: int, rangeEnd: int)
    ensures Cover([]) == RawSet([], rangeStart, rangeEnd) == CountedSet([], windows, rangeStart, rangeEnd)
  {
  }

  lemma {:induction false} UnknownStart(incidents: seq<Incident>, i: Incident, windows: seq<Window>, rangeStart: int,
                                        rangeEnd: int)
    requires i.Active? && (!i.exactStart || i.startedAt.Absent?)
    ensures RawSet(incidents + [i], rangeStart, rangeEnd) == RawSet(incidents, rangeStart, rangeEnd)
    ensures CountedSet(incidents + [i], windows, rangeStart, rangeEnd)
            == CountedSet(incidents, windows, rangeStart, rangeEnd)
  {
    OneMore(incidents, i, windows, rangeStart, rangeEnd);
  }

  /** The older implementation, without maintenance, reports the raw side of the other one. */
  method CollectKnownDowntime(active: seq<Incident>, recovered: seq<Incident>, rangeStart: int, rangeEnd: int)
    returns (seconds: int, exactCoverage: bool)
    requires forall i | i in active :: i.Active?
    requires forall i | i in recovered :: i.Recovered?
    ensures forall windows :: seconds == Adjust(recovered + active, windows, rangeStart, rangeEnd).raw
    ensures forall windows :: exactCoverage == Adjust(recovered + active, windows, rangeStart, rangeEnd).exactCoverage
  {
    hide RawSet, CountedSet, Cover, Points, ClipInterval;
    var intervals: seq<Interval> := [];
    exactCoverage := true;
    NothingYet([], rangeStart, rangeEnd);
    assert recovered[..0] == [];
    var k := 0;
    while k < |recovered|
      invariant 0 <= k <= |recovered| && Proper(intervals)
      invariant Cover(intervals) == RawSet(recovered[..k], rangeStart, rangeEnd)
    {
      var incident := recovered[k];
      var interval := ClipInterval(incident.startedAt, incident.recoveredAt, rangeStart, rangeEnd);
      assert recovered[..k + 1] == recovered[..k] + [incident];
      RawStep(recovered[..k], incident, intervals, rangeStart, rangeEnd);
      if interval.Some? { intervals := intervals + [interval.value]; }
      k := k + 1;
    }
    assert recovered[..k] == recovered == recovered + active[..0];
    k := 0;
    while k < |active|
      invariant 0 <= k <= |active| && Proper(intervals)
      invariant Cover(intervals) == RawSet(recovered + active[..k], rangeStart, rangeEnd)
      invariant exactCoverage <==> forall j | 0 <= j < k :: KnownStart(active[j])
    {
      var incident := active[k];
      assert recovered + active[..k + 1] == (recovered + active[..k]) + [incident];
      k := k + 1;
      RawStep(recovered + active[..k - 1], incident, intervals, rangeStart, rangeEnd);
      if !incident.exactStart || incident.startedAt.Absent? {
        exactCoverage := false;
        continue;
      }
      var interval := ClipInterval(incident.startedAt, At(rangeEnd), rangeStart, rangeEnd);
      if interval.Some? { intervals := intervals + [interval.value]; }
    }
    assert active[..k] == active;
    seconds := UnionSeconds(intervals);
    assert forall i | i in recovered :: KnownStart(i);
  }

  lemma {:induction false} RawStep(incidents: seq<Incident>, i: Incident, intervals: seq<Interval>, rangeStart: int,
                                   rangeEnd: int)
    requires Proper(intervals) && Cover(intervals) == RawSet(incidents, rangeStart, rangeEnd)
    ensures var v := IncidentInterval(i, rangeStart, rangeEnd);
            var more := if v.Some? then intervals + [v.value] else intervals;
            Proper(more) && Cover(more) == RawSet(incidents + [i], rangeStart, rangeEnd)
  {
    OneMore(incidents, i, [], rangeStart, rangeEnd);
    var v := IncidentInterval(i, rangeStart, rangeEnd);
    if v.Some? { CoverSnoc(intervals, v.value); }
  }

  // ---- What the figures promise

  lemma {:induction false} WithinRange(s: set<int>, rangeStart: int, rangeEnd: int)
    requires forall t | t in s :: rangeStart <= t < rangeEnd
    ensures |s| <= Max(0, rangeEnd - rangeStart)
  {
    var range := Interval(rangeStart, Max(rangeStart, rangeEnd));
    PointsSize(range);
    SubsetSize(s, Points(range));
  }

  /** Maintenance only moves seconds from counted to excluded; the clamp at zero never acts. */
  lemma {:induction false} Conservation(incidents: seq<Incident>, windows: seq<Window>, rangeStart: int, rangeEnd: int)
    ensures var a := Adjust(incidents, windows, rangeStart, rangeEnd);
            && 0 <= a.counted <= a.raw <= Max(0, rangeEnd - rangeStart) / 1000
            && a.raw == a.counted + a.excluded
  {
    SubsetSize(CountedSet(incidents, windows, rangeStart, rangeEnd), RawSet(incidents, rangeStart, rangeEnd));
    WithinRange(RawSet(incidents, rangeStart, rangeEnd), rangeStart, rangeEnd);
  }

  /** Order and duplicates of incidents and windows do not matter. */
  lemma {:induction false} OrderIrrelevant(xs: seq<Incident>, ys: seq<Incident>, us: seq<Window>, vs: seq<Window>,
                        rangeStart: int, rangeEnd: int)
    requires forall i :: i in xs <==> i in ys
    requires forall w :: w in us <==> w in vs
    ensures Adjust(xs, us, rangeStart, rangeEnd) == Adjust(ys, vs, rangeStart, rangeEnd)
  {
    assert RawSet(xs, rangeStart, rangeEnd) == RawSet(ys, rangeStart, rangeEnd);
    forall s, t ensures Excused(s, us, t) <==> Excused(s, vs, t) {}
    forall t ensures CountedAt(xs, us, t) <==> CountedAt(ys, vs, t) {}
    assert CountedSet(xs, us, rangeStart, rangeEnd) == CountedSet(ys, vs, rangeStart, rangeEnd);
  }

  /** Reporting one outage as two back-to-back ones does not matter either. */
  lemma {:induction false} SplitIrrelevant(rest: seq<Incident>, s: Subject, a: int, b: int, c: int,
                                           windows: seq<Window>,
                        rangeStart: int, rangeEnd: int)
    requires a <= b <= c
    ensures Adjust(rest + [Recovered(s, At(a), At(c))], windows, rangeStart, rangeEnd)
         == Adjust(rest + [Recovered(s, At(a), At(b)), Recovered(s, At(b), At(c))], windows, rangeStart, rangeEnd)
  {
    var whole, first, second := Recovered(s, At(a), At(c)), Recovered(s, At(a), At(b)), Recovered(s, At(b), At(c));
    var xs, ys := rest + [whole], rest + [first, second];
    assert forall i :: i in xs <==> i in rest || i == whole;
    assert forall i :: i in ys <==> i in rest || i == first || i == second;
    forall t ensures RawAt(xs, t) <==> RawAt(ys, t) {
      assert Down(whole, t) <==> Down(first, t) || Down(second, t);
    }
    forall t ensures CountedAt(xs, windows, t) <==> CountedAt(ys, windows, t) {
      assert Down(whole, t) <==> Down(first, t) || Down(second, t);
    }
    assert RawSet(xs, rangeStart, rangeEnd) == RawSet(ys, rangeStart, rangeEnd);
    assert CountedSet(xs, windows, rangeStart, rangeEnd) == CountedSet(ys, windows, rangeStart, rangeEnd);
  }

  /** `wider` excuses at least what `narrower` does: windows were added or extended. */
  ghost predicate Extends(wider: seq<Window>, narrower: seq<Window>) {
    forall w | w in narrower ::
      exists v | v in wider :: v.scope == w.scope && forall t | InWindow(w, t) :: InWindow(v, t)
  }

  lemma {:induction false} ExtendsExcuses(wider: seq<Window>, narrower: seq<Window>, s: Subject, t: int)
    requires Extends(wider, narrower) && Excused(s, narrower, t)
    ensures Excused(s, wider, t)
  {
    var w :| w in narrower && AppliesToIncident(w, s) && InWindow(w, t);
    var v :| v in wider && v.scope == w.scope && forall t | InWindow(w, t) :: InWindow(v, t);
    assert AppliesToIncident(v, s);
  }

  lemma {:induction false} MoreMaintenance(incidents: seq<Incident>, wider: seq<Window>, narrower: seq<Window>,
                                           rangeStart: int, rangeEnd: int)
    requires Extends(wider, narrower)
    ensures var a := Adjust(incidents, wider, rangeStart, rangeEnd);
            var b := Adjust(incidents, narrower, rangeStart, rangeEnd);
            a.raw == b.raw && a.counted <= b.counted && a.exactCoverage == b.exactCoverage
  {
    forall t | CountedAt(incidents, wider, t) ensures CountedAt(incidents, narrower, t) {
      var i :| i in incidents && Down(i, t) && !Excused(i.subject, wider, t);
      if Excused(i.subject, narrower, t) { ExtendsExcuses(wider, narrower, i.subject, t); }
    }
    SubsetSize(CountedSet(incidents, wider, rangeStart, rangeEnd),
               CountedSet(incidents, narrower, rangeStart, rangeEnd));
  }

  /** An out-of-memory kill is never excused, whatever the windows. */
  lemma {:induction false} OutOfMemoryAlwaysCounts(i: Incident, incidents: seq<Incident>, windows: seq<Window>, t: int)
    requires i in incidents && i.subject.entity == ContainerEntity && i.subject.startReason == OOM_KILLED
    requires Down(i, t)
    ensures CountedAt(incidents, windows, t)
  {
    assert !Excused(i.subject, windows, t);
  }

  // ---- The four services

  function Scoped(id: ServiceId, incidents: seq<Incident>): seq<Incident> {
    if id.Overall? || incidents == [] then incidents else
      (if incidents[0].subject.entity == id.entity then [incidents[0]] else []) + Scoped(id, incidents[1..])
  }

  lemma {:induction false} ScopedMember(id: ServiceId, incidents: seq<Incident>)
    ensures forall i :: i in Scoped(id, incidents) <==> i in incidents && (id.Overall? || i.subject.entity == id.entity)
  {
    if !id.Overall? && incidents != [] {
      ScopedMember(id, incidents[1..]);
      assert incidents == [incidents[0]] + incidents[1..];
    }
  }

  const SERVICE_IDS := [Overall, Service(HostEntity), Service(ContainerEntity), Service(BackupEntity)]

  function ServiceIncidents(id: ServiceId, active: seq<Incident>, recovered: seq<Incident>): seq<Incident> {
    Scoped(id, recovered) + Scoped(id, active)
  }

  function ServiceAdjustment(id: ServiceId, active: seq<Incident>, recovered: seq<Incident>, windows: seq<Window>,
                             rangeStart: int, rangeEnd: int): Adjustment {
    Adjust(ServiceIncidents(id, active, recovered), windows, rangeStart, rangeEnd)
  }

  lemma {:induction false} ServiceMember(id: ServiceId, active: seq<Incident>, recovered: seq<Incident>)
    ensures forall i :: i in ServiceIncidents(id, active, recovered) <==>
              (i in active || i in recovered) && (id.Overall? || i.subject.entity == id.entity)
  {
    ScopedMember(id, recovered);
    ScopedMember(id, active);
  }

  function ServiceSet(id: ServiceId, active: seq<Incident>, recovered: seq<Incident>, windows: seq<Window>,
                      rangeStart: int, rangeEnd: int): set<int> {
    CountedSet(ServiceIncidents(id, active, recovered), windows, rangeStart, rangeEnd)
  }

  lemma {:induction false} FloorOfUnion(a: nat, b: nat, c: nat, u: nat)
    requires a <= u && b <= u && c <= u <= a + b + c
    ensures Max(a / 1000, Max(b / 1000, c / 1000)) <= u / 1000 <= a / 1000 + b / 1000 + c / 1000 + 2
  {
  }

  lemma {:induction false} OverallSet(active: seq<Incident>, recovered: seq<Incident>, windows: seq<Window>,
                                      rangeStart: int, rangeEnd: int)
    ensures ServiceSet(Overall, active, recovered, windows, rangeStart, rangeEnd)
         == ServiceSet(Service(HostEntity), active, recovered, windows, rangeStart, rangeEnd)
          + ServiceSet(Service(ContainerEntity), active, recovered, windows, rangeStart, rangeEnd)
          + ServiceSet(Service(BackupEntity), active, recovered, windows, rangeStart, rangeEnd)
  {
    forall t
      ensures CountedAt(ServiceIncidents(Overall, active, recovered), windows, t)
         <==> (CountedAt(ServiceIncidents(Service(HostEntity), active, recovered), windows, t)
            || CountedAt(ServiceIncidents(Service(ContainerEntity), active, recovered), windows, t)
            || CountedAt(ServiceIncidents(Service(BackupEntity), active, recovered), windows, t))
    {
      hide Excused, Down, Scoped;
      ServiceMember(Overall, active, recovered);
      ServiceMember(Service(HostEntity), active, recovered);
      ServiceMember(Service(ContainerEntity), active, recovered);
      ServiceMember(Service(BackupEntity), active, recovered);
      if i :| i in ServiceIncidents(Overall, active, recovered) && Down(i, t) && !Excused(i.subject, windows, t) {
        assert i in ServiceIncidents(Service(i.subject.entity), active, recovered);
      }
    }
  }

  ghost predicate AllKnown(incidents: seq<Incident>) { forall i | i in incidents :: KnownStart(i) }

  lemma {:induction false} OverallExact(active: seq<Incident>, recovered: seq<Incident>)
    ensures AllKnown(ServiceIncidents(Overall, active, recovered)) <==>
            (&& AllKnown(ServiceIncidents(Service(HostEntity), active, recovered))
             && AllKnown(ServiceIncidents(Service(ContainerEntity), active, recovered))
             && AllKnown(ServiceIncidents(Service(BackupEntity), active, recovered)))
  {
    ServiceMember(Overall, active, recovered);
    ServiceMember(Service(HostEntity), active, recovered);
    ServiceMember(Service(ContainerEntity), active, recovered);
    ServiceMember(Service(BackupEntity), active, recovered);
    if i :| i in ServiceIncidents(Overall, active, recovered) && !KnownStart(i) {
      assert i in ServiceIncidents(Service(i.subject.entity), active, recovered);
    }
  }

  /** Overall downtime is the union of the three services', and is exact when all three are. */
  lemma {:induction false} OverallIsUnion(active: seq<Incident>, recovered: seq<Incident>, windows: seq<Window>,
                                          rangeStart: int, rangeEnd: int)
    ensures var o := ServiceAdjustment(Overall, active, recovered, windows, rangeStart, rangeEnd);
            var h := ServiceAdjustment(Service(HostEntity), active, recovered, windows, rangeStart, rangeEnd);
            var c := ServiceAdjustment(Service(ContainerEntity), active, recovered, windows, rangeStart, rangeEnd);
            var b := ServiceAdjustment(Service(BackupEntity), active, recovered, windows, rangeStart, rangeEnd);
            && Max(h.counted, Max(c.counted, b.counted)) <= o.counted <= h.counted + c.counted + b.counted + 2
            && (o.exactCoverage <==> h.exactCoverage && c.exactCoverage && b.exactCoverage)
  {
    OverallSet(active, recovered, windows, rangeStart, rangeEnd);
    hide CountedSet, RawSet, Scoped;
    var o, h, c, b := ServiceSet(Overall, active, recovered, windows, rangeStart, rangeEnd),
                      ServiceSet(Service(HostEntity), active, recovered, windows, rangeStart, rangeEnd),
                      ServiceSet(Service(ContainerEntity), active, recovered, windows, rangeStart, rangeEnd),
                      ServiceSet(Service(BackupEntity), active, recovered, windows, rangeStart, rangeEnd);
    UnionSize(h, c);
    UnionSize(h + c, b);
    SubsetSize(h, o);
    SubsetSize(c, o);
    SubsetSize(b, o);
    FloorOfUnion(|h|, |c|, |b|, |o|);
    OverallExact(active, recovered);
  }
}
