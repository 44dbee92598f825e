/** What the SLO budget of a service and a range says (apps/web/lib/reliability-slo.ts), for all inputs. */
module SloBudgets {
  import opened Wrappers
  import opened Downtime
  import opened Reals
  import opened BurnRate

  /** What is handed to the budgets: no adjustments, or those of the range. */
  function Given(s: Snapshot, windows: Option<seq<Window>>, hours: nat): Option<seq<(ServiceId, Adjustment)>> {
    if windows.None? then None
    else Some(BuildReliabilityMaintenanceAdjustments(
      s.active, s.recovered, windows.value, s.generatedAt - hours * 3_600_000, s.generatedAt))
  }

  /** `k` is the first report of the service, or there is none. */
  predicate FirstReport(entity: EntityType, reports: seq<ServiceReport>, k: nat) {
    k <= |reports| && (forall j | 0 <= j < k :: reports[j].id != Some(entity))
    && (k < |reports| ==> reports[k].id == Some(entity))
  }

  lemma {:induction false} ReportFound(entity: EntityType, reports: seq<ServiceReport>, k: nat)
    requires FirstReport(entity, reports, k)
    ensures FindReport(entity, reports) == if k < |reports| then Some(reports[k]) else None
  {
    if k > 0 { ReportFound(entity, reports[1..], k - 1); }
  }

  /** The service's card has its figures; the overall one always does. */
  predicate HasFigures(id: ServiceId, reports: seq<ServiceReport>, k: nat) {
    id.Overall? || (k < |reports| && reports[k].knownDowntime.Some? && reports[k].incidentFreeRatio.Some?)
  }

  /** The figures cover everything: the card's do, and every open incident has a known start. */
  ghost predicate CoversAll(s: Snapshot, id: ServiceId, reports: seq<ServiceReport>, overallExact: bool, k: nat) {
    && (if id.Overall? then overallExact else k < |reports| && reports[k].exactCoverage)
    && AllKnown(ServiceIncidents(id, s.active, s.recovered))
  }

  /** Whether the budget has the counted seconds of its range, and how far they go. */
  lemma {:induction false} KnownMeaning(s: Snapshot, windows: Option<seq<Window>>, policies: Option<seq<Policy>>,
                                        id: ServiceId, hours: nat, reports: seq<ServiceReport>,
                                        overallDowntime: int, overallExact: bool, k: nat)
    requires hours > 0 && (id.Service? ==> FirstReport(id.entity, reports, k))
    ensures var b := BudgetFor(id, reports, overallDowntime, overallExact, policies, hours, Given(s, windows, hours));
            if windows.None? || !HasFigures(id, reports, k) then b.observed.known.None? && !b.observed.exact
            else
              && b.observed.known == Some(Lookback(s, windows.value, id, hours))
              && (b.observed.exact <==> CoversAll(s, id, reports, overallExact, k))
  {
    hide RawSet, CountedSet, FindAdjustment, FindReport, ServiceIncidents, PolicyOf, Allowed, FreeRatio;
    if id.Service? { ReportFound(id.entity, reports, k); }
    if windows.Some? {
      FindBuilt(id, s.active, s.recovered, windows.value, s.generatedAt - hours * 3_600_000, s.generatedAt);
    }
  }

  /** What the budget shows of its source: nothing counted without adjustments or figures. */
  lemma {:induction false} ObservedMeaning(s: Snapshot, windows: Option<seq<Window>>, policies: Option<seq<Policy>>,
                                           id: ServiceId, hours: nat, reports: seq<ServiceReport>,
                                           overallDowntime: int, overallExact: bool, k: nat)
    requires hours > 0 && (id.Service? ==> FirstReport(id.entity, reports, k))
    ensures var b := BudgetFor(id, reports, overallDowntime, overallExact, policies, hours, Given(s, windows, hours));
            && b.serviceId == id
            && b.observed.raw == (if id.Overall? then Some(overallDowntime)
                                  else if k < |reports| then reports[k].knownDowntime else None)
            && if windows.None? || !HasFigures(id, reports, k) then
                 b.observed.known.None? && b.observed.excluded.None? && b.observed.percent.None? && !b.observed.exact
               else
                 var n, whole := Lookback(s, windows.value, id, hours), hours * 3600;
                 && b.observed.known == Some(n)
                 && b.observed.excluded == Some(ServiceAdjustment(id, s.active, s.recovered, windows.value,
                                                s.generatedAt - hours * 3_600_000, s.generatedAt).excluded)
                 && b.observed.percent == Some((1.0 - n as real / whole as real) * 100.0)
                 && (b.observed.exact <==> CoversAll(s, id, reports, overallExact, k))
  {
    hide RawSet, CountedSet, FindAdjustment, FindReport, ServiceIncidents, PolicyOf, Allowed, FreeRatio, CoversAll;
    KnownMeaning(s, windows, policies, id, hours, reports, overallDowntime, overallExact, k);
    if id.Service? { ReportFound(id.entity, reports, k); }
    if windows.Some? {
      FindBuilt(id, s.active, s.recovered, windows.value, s.generatedAt - hours * 3_600_000, s.generatedAt);
      LookbackMonotone(s, windows.value, id, hours, hours);
      BudgetArithmetic(Lookback(s, windows.value, id, hours), hours, 50.0);
    }
  }

  lemma {:induction false} SourceWhole(id: ServiceId, reports: seq<ServiceReport>, overallDowntime: int,
                                       overallExact: bool, hours: nat,
                                       adjustments: Option<seq<(ServiceId, Adjustment)>>)
    requires hours > 0
    ensures var source := SourceFor(id, reports, overallDowntime, overallExact, hours, adjustments);
            && (source.Some? ==> (source.value.known.None? <==> source.value.ratio.None?))
            && (adjustments.None? ==> source.None? || source.value.known.None?)
  {
    hide FindAdjustment, FindReport, FreeRatio;
  }

  /** The rest of a budget, from what it shows of its source. */
  lemma {:induction false} FromObserved(id: ServiceId, reports: seq<ServiceReport>, overallDowntime: int,
                                        overallExact: bool, policies: Option<seq<Policy>>, hours: nat,
                                        adjustments: Option<seq<(ServiceId, Adjustment)>>)
    requires hours > 0
    ensures var b := BudgetFor(id, reports, overallDowntime, overallExact, policies, hours, adjustments);
            && (b.burnRate.None? <==> b.remaining.None?) && (b.remaining.None? ==> !b.remainingExact)
            && if policies.None? then b.state == BudgetUnavailable && b.allowed.None? && b.remaining.None?
               else if TargetOf(id, policies.value).None? then
                 b.state == BudgetUnconfigured && b.allowed.None? && b.remaining.None?
               else
                 var allowed := Allowed(hours * 3600, TargetOf(id, policies.value).value);
                 && b.allowed == Some(allowed)
                 && if b.observed.known.None? then b.state == BudgetUnavailable && b.remaining.None?
                    else
                      var n := b.observed.known.value as real;
                      && b.state == (if n >= allowed then Exhausted
                                     else if b.observed.exact then WithinBudget else BudgetCoverageUnknown)
                      && b.remaining == Some(if n >= allowed then 0.0 else allowed - n)
                      && (b.remainingExact <==> n >= allowed || b.observed.exact)
  {
    hide SourceFor, PolicyOf, Allowed;
    SourceWhole(id, reports, overallDowntime, overallExact, hours, adjustments);
    var source := SourceFor(id, reports, overallDowntime, overallExact, hours, adjustments);
    if policies.Some? && TargetOf(id, policies.value).Some? && source.Some? && source.value.known.Some? {
      QuotientCompares(source.value.known.value as real,
                       Allowed(hours * 3600, TargetOf(id, policies.value).value), 1.0);
    }
  }

  /**
   The state: unavailable without policies or figures, unconfigured without a target, exhausted once the counted
   seconds reach the `allowed` ones, and below that within budget exactly on full coverage.
   */
  lemma {:induction false} StateMeaning(s: Snapshot, windows: Option<seq<Window>>, policies: Option<seq<Policy>>,
                                        id: ServiceId, hours: nat, reports: seq<ServiceReport>,
                                        overallDowntime: int, overallExact: bool, k: nat, allowed: real)
    requires hours > 0 && (id.Service? ==> FirstReport(id.entity, reports, k))
    requires policies.Some? && TargetOf(id, policies.value).Some? ==>
               allowed == (hours * 3600) as real * (1.0 - TargetOf(id, policies.value).value / 100.0)
    ensures var b := BudgetFor(id, reports, overallDowntime, overallExact, policies, hours, Given(s, windows, hours));
            && (b.burnRate.None? <==> b.remaining.None?) && (b.remaining.None? ==> !b.remainingExact)
            && if policies.None? then b.state == BudgetUnavailable && b.allowed.None? && b.remaining.None?
               else if TargetOf(id, policies.value).None? then
                 b.state == BudgetUnconfigured && b.allowed.None? && b.remaining.None?
               else
                 && b.allowed == Some(allowed)
                 && if windows.None? || !HasFigures(id, reports, k) then
                      b.state == BudgetUnavailable && b.remaining.None?
                    else
                      var n := Lookback(s, windows.value, id, hours) as real;
                      && b.state == (if n >= allowed then Exhausted
                                     else if CoversAll(s, id, reports, overallExact, k) then WithinBudget
                                     else BudgetCoverageUnknown)
                      && b.remaining == Some(if n >= allowed then 0.0 else allowed - n)
                      && (b.remainingExact <==> n >= allowed || CoversAll(s, id, reports, overallExact, k))
  {
    hide *;
    if policies.Some? && TargetOf(id, policies.value).Some? {
      AllowedSeconds(hours, TargetOf(id, policies.value).value);
    }
    KnownMeaning(s, windows, policies, id, hours, reports, overallDowntime, overallExact, k);
    FromObserved(id, reports, overallDowntime, overallExact, policies, hours, Given(s, windows, hours));
  }

  lemma {:induction false} AllowedSeconds(hours: nat, target: TargetPercent)
    requires hours > 0
    ensures Allowed(hours * 3600, target) == (hours * 3600) as real * (1.0 - target / 100.0)
  {
  }
}
