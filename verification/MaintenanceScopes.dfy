/**
 Which incidents a maintenance window excuses, by the fields of its scope
 (apps/web/lib/reliability-maintenance-metrics.ts).
 */
module MaintenanceScopes {
  import opened Wrappers
  import opened Sets
  import opened Intervals
  import opened Downtime

  /** The scopes a window may have to excuse an incident of this subject: none for an out-of-memory kill. */
  function ScopesOf(s: Subject): set<Scope> {
    if s.entity == ContainerEntity && s.startReason == "OOMKilledを検知" then {}
    else
      {ServiceScope(Some(Overall)), ServiceScope(Some(Service(s.entity))), HostScope(Some(s.hostId))} +
      match s.entity
      case HostEntity => {}
      case ContainerEntity => {ContainerScope(Some(s.hostId), s.containerName)}
      case BackupEntity => {BackupScope(Some(s.hostId), Some(s.backupTarget), Some(s.gameMode), Some(s.backupType))}
  }

  /** One incident under one window. */
  lemma {:induction false} WindowExcuses(i: Incident, w: Window, t: int)
    ensures CountedAt([i], [w], t) <==> Down(i, t) && !(InWindow(w, t) && w.scope in ScopesOf(i.subject))
  {
    assert i in [i] && w in [w];
    assert Excused(i.subject, [w], t) <==> AppliesToIncident(w, i.subject) && InWindow(w, t);
  }

  /**
   By scope: a container window excuses exactly the incidents of that container on that host that are not
   out-of-memory kills, and so on.
   */
  lemma {:induction false} ScopeByField(i: Incident, w: Window, t: int)
    requires Down(i, t) && InWindow(w, t)
    ensures var s := i.subject;
            CountedAt([i], [w], t) <==>
            || (s.entity == ContainerEntity && s.startReason == "OOMKilledを検知")
            || match w.scope
               case ServiceScope(id) =>
                 && id != Some(Overall)
                 && (s.entity == HostEntity ==> id != Some(Service(HostEntity)))
                 && (s.entity == ContainerEntity ==> id != Some(Service(ContainerEntity)))
                 && (s.entity == BackupEntity ==> id != Some(Service(BackupEntity)))
               case HostScope(host) => host != Some(s.hostId)
               case ContainerScope(host, name) =>
                 s.entity != ContainerEntity || host != Some(s.hostId) || name != s.containerName
               case BackupScope(host, target, mode, kind) =>
                 || s.entity != BackupEntity || host != Some(s.hostId) || target != Some(s.backupTarget)
                 || mode != Some(s.gameMode) || kind != Some(s.backupType)
  {
    WindowExcuses(i, w, t);
    hide CountedAt, Down, InWindow;
  }

  /** An incident is down at the instant, and no window then in force has a scope that excuses it. */
  predicate StandsOut(incidents: seq<Incident>, windows: seq<Window>, t: int) {
    exists i | i in incidents ::
      Down(i, t) && forall w | w in windows && InWindow(w, t) :: w.scope !in ScopesOf(i.subject)
  }

  function StandingOut(incidents: seq<Incident>, windows: seq<Window>, rangeStart: int, rangeEnd: int): set<int> {
    set t | rangeStart <= t < rangeEnd && StandsOut(incidents, windows, t)
  }

  lemma {:induction false} ExcusedByScope(s: Subject, windows: seq<Window>, t: int)
    ensures Excused(s, windows, t) <==> exists w | w in windows && InWindow(w, t) :: w.scope in ScopesOf(s)
  {
    forall w ensures AppliesToIncident(w, s) <==> w.scope in ScopesOf(s) {}
    hide ScopesOf, InWindow, AppliesToIncident;
  }

  /** The counted seconds, for any incidents and windows: those of the instants at which something stands out. */
  lemma {:induction false} CountedByScope(incidents: seq<Incident>, windows: seq<Window>, rangeStart: int,
                                          rangeEnd: int)
    ensures Adjust(incidents, windows, rangeStart, rangeEnd).counted ==
            |StandingOut(incidents, windows, rangeStart, rangeEnd)| / 1000
  {
    hide ScopesOf, InWindow, Down, Excused;
    forall t ensures CountedAt(incidents, windows, t) <==> StandsOut(incidents, windows, t) {
      forall i | i in incidents
        ensures Excused(i.subject, windows, t) <==>
                exists w | w in windows && InWindow(w, t) :: w.scope in ScopesOf(i.subject)
      {
        ExcusedByScope(i.subject, windows, t);
      }
    }
    assert CountedSet(incidents, windows, rangeStart, rangeEnd) ==
           StandingOut(incidents, windows, rangeStart, rangeEnd);
  }

  /** A window for anything else changes no figure. */
  lemma {:induction false} ForeignWindow(incidents: seq<Incident>, windows: seq<Window>, w: Window, rangeStart: int,
                                         rangeEnd: int)
    requires forall i | i in incidents :: w.scope !in ScopesOf(i.subject)
    ensures Adjust(incidents, windows + [w], rangeStart, rangeEnd) == Adjust(incidents, windows, rangeStart, rangeEnd)
  {
    CountedByScope(incidents, windows, rangeStart, rangeEnd);
    CountedByScope(incidents, windows + [w], rangeStart, rangeEnd);
    forall t ensures StandsOut(incidents, windows + [w], t) <==> StandsOut(incidents, windows, t) {
      assert forall v :: v in windows + [w] <==> v in windows || v == w;
    }
    hide StandsOut, ScopesOf;
    assert StandingOut(incidents, windows + [w], rangeStart, rangeEnd) ==
           StandingOut(incidents, windows, rangeStart, rangeEnd);
  }

  /** A window of a fitting scope that covers the range leaves nothing of an incident to count. */
  lemma {:induction false} FullWindow(i: Incident, w: Window, rangeStart: int, rangeEnd: int)
    requires w.scope in ScopesOf(i.subject)
    requires forall t | rangeStart <= t < rangeEnd :: InWindow(w, t)
    ensures Adjust([i], [w], rangeStart, rangeEnd).counted == 0
  {
    CountedByScope([i], [w], rangeStart, rangeEnd);
    assert w in [w];
    hide ScopesOf;
    assert StandingOut([i], [w], rangeStart, rangeEnd) == {};
  }
}
