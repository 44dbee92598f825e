/**
 Error-budget burn rates over three nested lookback windows
 (apps/web/lib/reliability-burn-rate.ts) and the SLO budget of a range
 (apps/web/lib/reliability-slo.ts).
 */
module BurnRate {
  import opened Wrappers
  import opened Sets
  import opened Intervals
  import opened Downtime
  import opened Reals

  // ---- Inputs

  /** The open interval `parseTargetPercent` admits. */
  type TargetPercent = x: real | 0.0 < x < 100.0 witness 50.0

  datatype Policy = Policy(serviceId: ServiceId, target: Option<TargetPercent>, enabled: bool)

  datatype Snapshot = Snapshot(
    generatedAt: int,
    backupDataAvailable: bool,
    active: seq<Incident>,
    recovered: seq<Incident>)

  datatype WindowId = OneHour | SixHours | OneDay

  function Hours(w: WindowId): nat {
    match w case OneHour => 1 case SixHours => 6 case OneDay => 24
  }

  const CRITICAL_SHORT := 14.4
  const CRITICAL_LONG := 6.0
  const WARNING_SHORT := 6.0
  const WARNING_LONG := 3.0

  // ---- Adjustments by service

  function BuildReliabilityMaintenanceAdjustments(active: seq<Incident>, recovered: seq<Incident>, windows: seq<Window>,
                                                  rangeStart: int, rangeEnd: int): seq<(ServiceId, Adjustment)> {
    seq(|SERVICE_IDS|, k requires 0 <= k < |SERVICE_IDS| =>
      (SERVICE_IDS[k], ServiceAdjustment(SERVICE_IDS[k], active, recovered, windows, rangeStart, rangeEnd)))
  }

  function FindAdjustment(id: ServiceId, adjustments: seq<(ServiceId, Adjustment)>): Option<Adjustment> {
    if adjustments == [] then None
    else if adjustments[0].0 == id then Some(adjustments[0].1)
    else FindAdjustment(id, adjustments[1..])
  }

  lemma {:induction false} FindFirst(id: ServiceId, adjustments: seq<(ServiceId, Adjustment)>, k: nat)
    requires k < |adjustments| && adjustments[k].0 == id
    requires forall j | 0 <= j < k :: adjustments[j].0 != id
    ensures FindAdjustment(id, adjustments) == Some(adjustments[k].1)
  {
    if k > 0 { FindFirst(id, adjustments[1..], k - 1); }
  }

  lemma {:induction false} FindBuilt(id: ServiceId, active: seq<Incident>, recovered: seq<Incident>,
                                     windows: seq<Window>,
                  rangeStart: int, rangeEnd: int)
    ensures FindAdjustment(id, BuildReliabilityMaintenanceAdjustments(active, recovered, windows, rangeStart, rangeEnd))
         == Some(ServiceAdjustment(id, active, recovered, windows, rangeStart, rangeEnd))
  {
    hide ServiceAdjustment, FindAdjustment;
    var all := BuildReliabilityMaintenanceAdjustments(active, recovered, windows, rangeStart, rangeEnd);
    var k := match id
      case Overall => 0
      case Service(HostEntity) => 1
      case Service(ContainerEntity) => 2
      case Service(BackupEntity) => 3;
    FindFirst(id, all, k);
  }

  // ---- Burn windows and alert state

  datatype BurnWindow = BurnWindow(
    id: WindowId, counted: Option<int>, allowed: Option<real>, burnRate: Option<real>, exactCoverage: bool)

  datatype BurnState = Unconfigured | Healthy | Warning | Critical | CoverageUnknown | DataUnavailable

  function Allowed(seconds: int, target: TargetPercent): (r: real)
    requires seconds > 0
    ensures r > 0.0
  {
    seconds as real * (1.0 - target / 100.0)
  }

  function BuildConfiguredWindow(s: Snapshot, windows: seq<Window>, policy: Policy, id: ServiceId,
                                 w: WindowId): BurnWindow {
    var rangeStart := s.generatedAt - Hours(w) * 3_600_000;
    var adjustment := FindAdjustment(id,
      BuildReliabilityMaintenanceAdjustments(s.active, s.recovered, windows, rangeStart, s.generatedAt));
    if adjustment.None? || policy.target.None? then BurnWindow(w, None, None, None, false)
    else
      var allowed := Allowed(Hours(w) * 3600, policy.target.value);
      var backupRequired := id == Overall || id == Service(BackupEntity);
      BurnWindow(w, Some(adjustment.value.counted), Some(allowed), Some(adjustment.value.counted as real / allowed),
                 adjustment.value.exactCoverage && (!backupRequired || s.backupDataAvailable))
  }

  function BuildConfiguredWindows(s: Snapshot, windows: seq<Window>, policy: Policy, id: ServiceId): seq<BurnWindow> {
    [BuildConfiguredWindow(s, windows, policy, id, OneHour),
     BuildConfiguredWindow(s, windows, policy, id, SixHours),
     BuildConfiguredWindow(s, windows, policy, id, OneDay)]
  }

  function FindWindow(windows: seq<BurnWindow>, id: WindowId): Option<BurnWindow> {
    if windows == [] then None
    else if windows[0].id == id then Some(windows[0])
    else FindWindow(windows[1..], id)
  }

  predicate Reaches(w: Option<BurnWindow>, threshold: real) {
    w.Some? && w.value.exactCoverage && w.value.burnRate.Some? && w.value.burnRate.value >= threshold
  }

  function StateFor(windows: seq<BurnWindow>): BurnState {
    if Reaches(FindWindow(windows, OneHour), CRITICAL_SHORT) && Reaches(FindWindow(windows, SixHours), CRITICAL_LONG)
    then Critical
    else if Reaches(FindWindow(windows, SixHours), WARNING_SHORT) && Reaches(FindWindow(windows, OneDay), WARNING_LONG)
    then Warning
    else if forall w | w in windows :: w.exactCoverage then Healthy
    else CoverageUnknown
  }

  /** The `new Map(...)` of policies keeps the last one of a service. */
  function PolicyOf(id: ServiceId, policies: seq<Policy>): Option<Policy> {
    if policies == [] then None
    else if policies[|policies| - 1].serviceId == id then Some(policies[|policies| - 1])
    else PolicyOf(id, policies[..|policies| - 1])
  }

  datatype BurnService = BurnService(serviceId: ServiceId, state: BurnState, windows: seq<BurnWindow>)

  function BurnServiceFor(s: Snapshot, policies: Option<seq<Policy>>, windows: Option<seq<Window>>,
                          id: ServiceId): BurnService {
    if policies.None? || windows.None? then BurnService(id, DataUnavailable, [])
    else
      var policy := PolicyOf(id, policies.value);
      if policy.None? || !policy.value.enabled || policy.value.target.None? then BurnService(id, Unconfigured, [])
      else
        var built := BuildConfiguredWindows(s, windows.value, policy.value, id);
        BurnService(id, StateFor(built), built)
  }

  function BuildReliabilityBurnRates(s: Snapshot, policies: Option<seq<Policy>>,
                                     windows: Option<seq<Window>>): seq<BurnService> {
    seq(|SERVICE_IDS|, k requires 0 <= k < |SERVICE_IDS| => BurnServiceFor(s, policies, windows, SERVICE_IDS[k]))
  }

  // ---- Lookback monotonicity

  /** Whole seconds counted against a service over the last `hours` hours. */
  function Lookback(s: Snapshot, windows: seq<Window>, id: ServiceId, hours: nat): int {
    ServiceAdjustment(id, s.active, s.recovered, windows, s.generatedAt - hours * 3_600_000, s.generatedAt).counted
  }

  lemma {:induction false} LookbackMonotone(s: Snapshot, windows: seq<Window>, id: ServiceId, short: nat, long: nat)
    requires short <= long
    ensures 0 <= Lookback(s, windows, id, short) <= Lookback(s, windows, id, long)
    ensures Lookback(s, windows, id, short) <= short * 3600
  {
    var incidents := ServiceIncidents(id, s.active, s.recovered);
    SubsetSize(CountedSet(incidents, windows, s.generatedAt - short * 3_600_000, s.generatedAt),
               CountedSet(incidents, windows, s.generatedAt - long * 3_600_000, s.generatedAt));
    Conservation(incidents, windows, s.generatedAt - short * 3_600_000, s.generatedAt);
  }

  lemma {:induction false} WindowMeaning(s: Snapshot, windows: seq<Window>, policy: Policy, id: ServiceId, w: WindowId)
    requires policy.target.Some?
    ensures var b, n := BuildConfiguredWindow(s, windows, policy, id, w), Lookback(s, windows, id, Hours(w));
            && b.counted == Some(n)
            && b.burnRate == Some(n as real / Allowed(Hours(w) * 3600, policy.target.value))
  {
    hide ServiceAdjustment, FindAdjustment, BuildReliabilityMaintenanceAdjustments, Allowed;
    FindBuilt(id, s.active, s.recovered, windows, s.generatedAt - Hours(w) * 3_600_000, s.generatedAt);
  }

  lemma {:induction false} TargetShare(target: TargetPercent)
    ensures 1.0 - target / 100.0 > 0.0
    ensures 100.0 / (100.0 - target) == 1.0 / (1.0 - target / 100.0)
  {
    Cancels(1.0, 1.0 - target / 100.0, 100.0);
  }

  lemma {:induction false} FractionBounds(a: real, b: real, whole: real, target: TargetPercent)
    requires 0.0 <= a <= b && a <= whole && whole > 0.0
    ensures var allowed := whole * (1.0 - target / 100.0);
            allowed > 0.0 && 0.0 <= a / allowed <= b / allowed && a / allowed <= 100.0 / (100.0 - target)
  {
    var rest: real := 1.0 - target / 100.0;
    TargetShare(target);
    ProductPositive(whole, rest);
    QuotientGrows(a, b, whole * rest);
    QuotientCompares(a, whole * rest, 0.0);
    Cancels(1.0, rest, whole);
    QuotientGrows(a, whole, whole * rest);
  }

  /** Counted seconds of three nested lookbacks, as rates of the budgets of one, six and twenty-four hours. */
  lemma {:induction false} RatesOrdered(n1: real, n6: real, n24: real, target: TargetPercent)
    requires 0.0 <= n1 <= n6 <= n24 && n1 <= 3600.0 && n6 <= 21600.0 && n24 <= 86400.0
    ensures n1 / Allowed(3600, target) <= 6.0 * (n6 / Allowed(21600, target)) <= 24.0 * (n24 / Allowed(86400, target))
    ensures 0.0 <= n1 / Allowed(3600, target) <= 100.0 / (100.0 - target)
    ensures 0.0 <= n6 / Allowed(21600, target) <= 100.0 / (100.0 - target)
    ensures 0.0 <= n24 / Allowed(86400, target) <= 100.0 / (100.0 - target)
  {
    var hour: real := 3600.0 * (1.0 - target / 100.0);
    FractionBounds(n1, n6, 3600.0, target);
    FractionBounds(n6, n24, 21600.0, target);
    FractionBounds(n24, n24, 86400.0, target);
    Rescale(n6, hour, 6.0);
    Rescale(n24, hour, 24.0);
    QuotientGrows(n1, n6, hour);
    QuotientGrows(n6, n24, hour);
  }

  lemma {:induction false} Rescale(n: real, unit: real, k: real)
    requires unit > 0.0 && k > 0.0
    ensures k * (n / (k * unit)) == n / unit
  {
    ProductPositive(k, unit);
    QuotientCompares(n, k * unit, 0.0);
    QuotientOf(k * (n / (k * unit)), unit, n);
  }

  /** `burn1h <= 6 burn6h <= 24 burn24h`, and none exceeds 100 / (100 - target). */
  lemma {:induction false} BurnOrdering(s: Snapshot, windows: seq<Window>, policy: Policy, id: ServiceId)
    requires policy.target.Some?
    ensures var b := BuildConfiguredWindows(s, windows, policy, id);
            && b[0].burnRate.Some? && b[1].burnRate.Some? && b[2].burnRate.Some?
            && b[0].burnRate.value <= 6.0 * b[1].burnRate.value <= 24.0 * b[2].burnRate.value
            && forall k | 0 <= k < 3 :: 0.0 <= b[k].burnRate.value <= 100.0 / (100.0 - policy.target.value)
  {
    hide BuildConfiguredWindow, Lookback, Allowed;
    var n1, n6, n24 := Lookback(s, windows, id, 1), Lookback(s, windows, id, 6), Lookback(s, windows, id, 24);
    WindowMeaning(s, windows, policy, id, OneHour);
    WindowMeaning(s, windows, policy, id, SixHours);
    WindowMeaning(s, windows, policy, id, OneDay);
    LookbackMonotone(s, windows, id, 1, 6);
    LookbackMonotone(s, windows, id, 6, 24);
    LookbackMonotone(s, windows, id, 24, 24);
    RatesOrdered(n1 as real, n6 as real, n24 as real, policy.target.value);
  }

  // ---- Which targets can alert at all

  ghost function StateOf(s: Snapshot, windows: seq<Window>, target: TargetPercent, id: ServiceId): BurnState {
    StateFor(BuildConfiguredWindows(s, windows, Policy(id, Some(target), true), id))
  }

  lemma {:induction false} StateMeaning(b: seq<BurnWindow>)
    requires |b| == 3 && b[0].id == OneHour && b[1].id == SixHours && b[2].id == OneDay
    ensures FindWindow(b, OneHour) == Some(b[0]) && FindWindow(b, SixHours) == Some(b[1])
            && FindWindow(b, OneDay) == Some(b[2])
  {
    assert FindWindow(b[1..], SixHours) == Some(b[1]);
    assert FindWindow(b[1..], OneDay) == FindWindow(b[1..][1..], OneDay) == Some(b[2]);
  }

  /** The service of a host incident open since `since`, seen with complete data. */
  ghost function Outage(id: ServiceId, since: int): Snapshot {
    var entity := if id.Overall? then HostEntity else id.entity;
    Snapshot(0, true, [Active(Subject(entity, "h", None, "", "", "", ""), At(since), true)], [])
  }

  lemma {:induction false} OutageLookback(id: ServiceId, hours: nat)
    requires 0 < hours <= 24
    ensures var s := Outage(id, -86_400_000);
            && Lookback(s, [], id, hours) == hours * 3600
            && ServiceAdjustment(id, s.active, s.recovered, [], s.generatedAt - hours * 3_600_000,
                                 s.generatedAt).exactCoverage
  {
    var s := Outage(id, -86_400_000);
    var from: int := 0 - hours * 3_600_000;
    var i, incidents := s.active[0], ServiceIncidents(id, s.active, s.recovered);
    ServiceMember(id, s.active, s.recovered);
    assert i in s.active && i in incidents;
    forall t | from <= t < 0 ensures CountedAt(incidents, [], t) {
      assert Down(i, t) && !Excused(i.subject, [], t);
    }
    assert CountedSet(incidents, [], from, 0) == Points(Interval(from, 0));
    PointsSize(Interval(from, 0));
  }

  lemma {:induction false} OutageWindow(id: ServiceId, target: TargetPercent, w: WindowId)
    ensures var b := BuildConfiguredWindow(Outage(id, -86_400_000), [], Policy(id, Some(target), true), id, w);
            b.exactCoverage && b.burnRate == Some(100.0 / (100.0 - target))
  {
    hide ServiceAdjustment;
    var s := Outage(id, -86_400_000);
    OutageLookback(id, Hours(w));
    WindowMeaning(s, [], Policy(id, Some(target), true), id, w);
    FindBuilt(id, s.active, s.recovered, [], s.generatedAt - Hours(w) * 3_600_000, s.generatedAt);
    TargetShare(target);
    Cancels(1.0, 1.0 - target / 100.0, (Hours(w) * 3600) as real);
  }

  /** Critical is reachable exactly for targets of at least 100 - 100 / 14.4 percent. */
  lemma {:induction false} CriticalReachable(target: TargetPercent, id: ServiceId)
    ensures (exists s, windows :: StateOf(s, windows, target, id) == Critical) <==>
            100.0 / (100.0 - target) >= CRITICAL_SHORT
  {
    hide BuildConfiguredWindow;
    if s, windows :| StateOf(s, windows, target, id) == Critical {
      var b := BuildConfiguredWindows(s, windows, Policy(id, Some(target), true), id);
      BurnOrdering(s, windows, Policy(id, Some(target), true), id);
      WindowIds(s, windows, Policy(id, Some(target), true), id);
      StateMeaning(b);
    }
    if 100.0 / (100.0 - target) >= CRITICAL_SHORT {
      OutageState(target, id);
      assert StateOf(Outage(id, -86_400_000), [], target, id) == Critical;
    }
  }

  /** Some alert is reachable exactly for targets of at least 100 - 100 / 6 percent. */
  lemma {:induction false} AlertReachable(target: TargetPercent, id: ServiceId)
    ensures (exists s, windows :: StateOf(s, windows, target, id) in {Critical, Warning}) <==>
            100.0 / (100.0 - target) >= WARNING_SHORT
  {
    hide BuildConfiguredWindow;
    if s, windows :| StateOf(s, windows, target, id) in {Critical, Warning} {
      var b := BuildConfiguredWindows(s, windows, Policy(id, Some(target), true), id);
      BurnOrdering(s, windows, Policy(id, Some(target), true), id);
      WindowIds(s, windows, Policy(id, Some(target), true), id);
      StateMeaning(b);
    }
    if 100.0 / (100.0 - target) >= WARNING_SHORT {
      OutageState(target, id);
      assert StateOf(Outage(id, -86_400_000), [], target, id) in {Critical, Warning};
    }
  }

  lemma {:induction false} WindowIds(s: Snapshot, windows: seq<Window>, policy: Policy, id: ServiceId)
    ensures var b := BuildConfiguredWindows(s, windows, policy, id);
            b[0].id == OneHour && b[1].id == SixHours && b[2].id == OneDay
  {
  }

  lemma {:induction false} OutageState(target: TargetPercent, id: ServiceId)
    ensures StateOf(Outage(id, -86_400_000), [], target, id)
         == (if 100.0 / (100.0 - target) >= CRITICAL_SHORT then Critical
             else if 100.0 / (100.0 - target) >= WARNING_SHORT then Warning else Healthy)
  {
    hide BuildConfiguredWindow;
    OutageWindow(id, target, OneHour);
    OutageWindow(id, target, SixHours);
    OutageWindow(id, target, OneDay);
    WindowIds(Outage(id, -86_400_000), [], Policy(id, Some(target), true), id);
    StateMeaning(BuildConfiguredWindows(Outage(id, -86_400_000), [], Policy(id, Some(target), true), id));
  }

  /** Every open incident of the service has a known start, and backup data is there where it matters. */
  ghost predicate Complete(s: Snapshot, id: ServiceId) {
    && AllKnown(ServiceIncidents(id, s.active, s.recovered))
    && (id == Overall || id == Service(BackupEntity) ==> s.backupDataAvailable)
  }

  lemma {:induction false} WindowCoverage(s: Snapshot, windows: seq<Window>, policy: Policy, id: ServiceId, w: WindowId)
    requires policy.target.Some?
    ensures BuildConfiguredWindow(s, windows, policy, id, w).exactCoverage <==> Complete(s, id)
  {
    hide RawSet, CountedSet, ServiceIncidents;
    FindBuilt(id, s.active, s.recovered, windows, s.generatedAt - Hours(w) * 3_600_000, s.generatedAt);
  }

  /** The counted seconds of a lookback are at least `times` the budget of its length. */
  ghost predicate Burns(s: Snapshot, windows: seq<Window>, target: TargetPercent, id: ServiceId, w: WindowId,
                        times: real) {
    Lookback(s, windows, id, Hours(w)) as real >= times * Allowed(Hours(w) * 3600, target)
  }

  lemma {:induction false} ReachesMeaning(s: Snapshot, windows: seq<Window>, target: TargetPercent, id: ServiceId,
                                          w: WindowId, times: real)
    ensures Reaches(Some(BuildConfiguredWindow(s, windows, Policy(id, Some(target), true), id, w)), times) <==>
            Complete(s, id) && Burns(s, windows, target, id, w, times)
  {
    hide BuildConfiguredWindow, Complete, Lookback, Allowed;
    var policy := Policy(id, Some(target), true);
    WindowCoverage(s, windows, policy, id, w);
    WindowMeaning(s, windows, policy, id, w);
    QuotientCompares(Lookback(s, windows, id, Hours(w)) as real, Allowed(Hours(w) * 3600, target), times);
  }

  /** The state, in seconds: unknown exactly on incomplete data, and otherwise as the two pairs of lookbacks burn. */
  lemma {:induction false} AlertsExactly(s: Snapshot, windows: seq<Window>, target: TargetPercent, id: ServiceId)
    ensures StateOf(s, windows, target, id) ==
            if !Complete(s, id) then CoverageUnknown
            else if Burns(s, windows, target, id, OneHour, 14.4)
              && Burns(s, windows, target, id, SixHours, 6.0) then Critical
            else if Burns(s, windows, target, id, SixHours, 6.0)
              && Burns(s, windows, target, id, OneDay, 3.0) then Warning
            else Healthy
  {
    hide BuildConfiguredWindow, Complete, Burns, Reaches;
    var policy := Policy(id, Some(target), true);
    var b := BuildConfiguredWindows(s, windows, policy, id);
    WindowIds(s, windows, policy, id);
    StateMeaning(b);
    WindowCoverage(s, windows, policy, id, OneHour);
    WindowCoverage(s, windows, policy, id, SixHours);
    WindowCoverage(s, windows, policy, id, OneDay);
    ReachesMeaning(s, windows, target, id, OneHour, 14.4);
    ReachesMeaning(s, windows, target, id, SixHours, 6.0);
    ReachesMeaning(s, windows, target, id, OneDay, 3.0);
    assert forall w | w in b :: w == b[0] || w == b[1] || w == b[2];
    assert b[0] in b && b[1] in b && b[2] in b;
  }

  // ---- What is reported

  /** The target a service is measured against, if its policy is there, enabled and has one. */
  function TargetOf(id: ServiceId, policies: seq<Policy>): Option<TargetPercent> {
    var policy := PolicyOf(id, policies);
    if policy.Some? && policy.value.enabled then policy.value.target else None
  }

  lemma {:induction false} PolicyIsOwn(id: ServiceId, policies: seq<Policy>)
    ensures PolicyOf(id, policies).Some? ==> PolicyOf(id, policies).value.serviceId == id
  {
    if policies != [] { PolicyIsOwn(id, policies[..|policies| - 1]); }
  }

  /** The target of a service is that of its last policy, if that is enabled. */
  lemma {:induction false} TargetMeaning(id: ServiceId, policies: seq<Policy>, k: int)
    requires -1 <= k < |policies| && forall j | k < j < |policies| :: policies[j].serviceId != id
    requires k >= 0 ==> policies[k].serviceId == id
    ensures TargetOf(id, policies) == if k >= 0 && policies[k].enabled then policies[k].target else None
  {
    if k < |policies| - 1 { TargetMeaning(id, policies[..|policies| - 1], k); }
  }

  /**
   Every service is reported once: as unavailable without policies or windows, unconfigured without a target, else
   in its state.
   */
  lemma {:induction false} ReportedStates(s: Snapshot, policies: Option<seq<Policy>>, windows: Option<seq<Window>>,
                                          k: nat)
    requires k < |SERVICE_IDS|
    ensures var rates, id := BuildReliabilityBurnRates(s, policies, windows), SERVICE_IDS[k];
            && |rates| == |SERVICE_IDS| && rates[k].serviceId == id
            && rates[k].state ==
               if policies.None? || windows.None? then DataUnavailable
               else if TargetOf(id, policies.value).None? then Unconfigured
               else StateOf(s, windows.value, TargetOf(id, policies.value).value, id)
  {
    hide StateFor, BuildConfiguredWindows, PolicyOf;
    if policies.Some? { PolicyIsOwn(SERVICE_IDS[k], policies.value); }
  }

  /**
   A reported alert: complete data, a target high enough for it to be reachable, and the budget burnt in both
   lookbacks.
   */
  lemma {:induction false} ReportedAlerts(s: Snapshot, policies: seq<Policy>, windows: seq<Window>, k: nat)
    requires k < |SERVICE_IDS|
    ensures var state, id := BuildReliabilityBurnRates(s, Some(policies), Some(windows))[k].state, SERVICE_IDS[k];
            var target := TargetOf(id, policies);
            && (state == Critical <==>
                  target.Some? && Complete(s, id) && Burns(s, windows, target.value, id, OneHour, 14.4)
                                       && Burns(s, windows, target.value, id, SixHours, 6.0))
            && (state == Warning <==>
                  target.Some? && Complete(s, id) && !Burns(s, windows, target.value, id, OneHour, 14.4)
                                      && Burns(s, windows, target.value, id, SixHours, 6.0)
                                      && Burns(s, windows, target.value, id, OneDay, 3.0))
            && (state == Critical ==> 100.0 / (100.0 - target.value) >= CRITICAL_SHORT)
            && (state in {Critical, Warning} ==> 100.0 / (100.0 - target.value) >= WARNING_SHORT)
            && (state == Unconfigured <==> target.None?)
            && (state == CoverageUnknown <==> target.Some? && !Complete(s, id))
            && state != DataUnavailable
  {
    hide Complete, Burns, StateOf, BuildReliabilityBurnRates, TargetOf;
    var id := SERVICE_IDS[k];
    ReportedStates(s, Some(policies), Some(windows), k);
    if TargetOf(id, policies).Some? {
      var target := TargetOf(id, policies).value;
      AlertsExactly(s, windows, target, id);
      CriticalReachable(target, id);
      AlertReachable(target, id);
    }
  }

  // ---- Maintenance and alerts

  function Severity(s: BurnState): nat { match s case Critical => 2 case Warning => 1 case _ => 0 }

  lemma {:induction false} MoreMaintenanceLookback(s: Snapshot, wider: seq<Window>, narrower: seq<Window>,
                                                   id: ServiceId, hours: nat)
    requires Extends(wider, narrower)
    ensures Lookback(s, wider, id, hours) <= Lookback(s, narrower, id, hours)
  {
    MoreMaintenance(ServiceIncidents(id, s.active, s.recovered), wider, narrower,
                    s.generatedAt - hours * 3_600_000, s.generatedAt);
  }

  lemma {:induction false} WindowExact(s: Snapshot, us: seq<Window>, vs: seq<Window>, policy: Policy, id: ServiceId,
                                       w: WindowId)
    ensures BuildConfiguredWindow(s, us, policy, id, w).exactCoverage
            == BuildConfiguredWindow(s, vs, policy, id, w).exactCoverage
  {
    hide RawSet, CountedSet;
    FindBuilt(id, s.active, s.recovered, us, s.generatedAt - Hours(w) * 3_600_000, s.generatedAt);
    FindBuilt(id, s.active, s.recovered, vs, s.generatedAt - Hours(w) * 3_600_000, s.generatedAt);
  }

  lemma {:induction false} MaintenanceLowersRate(s: Snapshot, wider: seq<Window>, narrower: seq<Window>,
                                                 policy: Policy, id: ServiceId, w: WindowId)
    requires Extends(wider, narrower) && policy.target.Some?
    ensures var a := BuildConfiguredWindow(s, wider, policy, id, w);
            var b := BuildConfiguredWindow(s, narrower, policy, id, w);
            && a.exactCoverage == b.exactCoverage
            && a.burnRate.Some? && b.burnRate.Some? && a.burnRate.value <= b.burnRate.value
  {
    hide BuildConfiguredWindow, FindAdjustment, Extends, Lookback, Allowed;
    WindowMeaning(s, wider, policy, id, w);
    WindowMeaning(s, narrower, policy, id, w);
    MoreMaintenanceLookback(s, wider, narrower, id, Hours(w));
    WindowExact(s, wider, narrower, policy, id, w);
    QuotientGrows(Lookback(s, wider, id, Hours(w)) as real, Lookback(s, narrower, id, Hours(w)) as real,
                  Allowed(Hours(w) * 3600, policy.target.value));
  }

  /** Scheduling or extending maintenance never raises an alert or its severity. */
  lemma {:induction false} MaintenanceNeverEscalates(s: Snapshot, wider: seq<Window>, narrower: seq<Window>,
                                                     target: TargetPercent, id: ServiceId)
    requires Extends(wider, narrower)
    ensures Severity(StateOf(s, wider, target, id)) <= Severity(StateOf(s, narrower, target, id))
  {
    hide BuildConfiguredWindow;
    var policy := Policy(id, Some(target), true);
    MaintenanceLowersRate(s, wider, narrower, policy, id, OneHour);
    MaintenanceLowersRate(s, wider, narrower, policy, id, SixHours);
    MaintenanceLowersRate(s, wider, narrower, policy, id, OneDay);
    WindowIds(s, wider, policy, id);
    WindowIds(s, narrower, policy, id);
    StateMeaning(BuildConfiguredWindows(s, wider, policy, id));
    StateMeaning(BuildConfiguredWindows(s, narrower, policy, id));
  }

  // ---- SLO budgets of a range

  /** What the service card of a range reports; `id` is None for notifications. */
  datatype ServiceReport = ServiceReport(
    id: Option<EntityType>, knownDowntime: Option<int>, incidentFreeRatio: Option<real>, exactCoverage: bool)

  datatype Source = Source(raw: Option<int>, known: Option<int>, excluded: Option<int>, ratio: Option<real>,
                           exactCoverage: bool)

  datatype BudgetState = BudgetUnconfigured | WithinBudget | Exhausted | BudgetCoverageUnknown | BudgetUnavailable

  /** What a budget says of its source, whatever the policy. */
  datatype Observed = Observed(
    percent: Option<real>, exact: bool, raw: Option<int>, known: Option<int>, excluded: Option<int>)

  datatype Budget = Budget(
    serviceId: ServiceId, state: BudgetState, observed: Observed, allowed: Option<real>,
    remaining: Option<real>, remainingExact: bool, burnRate: Option<real>)

  function FindReport(id: EntityType, reports: seq<ServiceReport>): Option<ServiceReport> {
    if reports == [] then None
    else if reports[0].id == Some(id) then Some(reports[0])
    else FindReport(id, reports[1..])
  }

  function FreeRatio(counted: int, hours: nat): real
    requires hours > 0
  {
    MaxReal(0.0, MinReal(1.0, 1.0 - counted as real / (hours * 3600) as real))
  }

  function SourceFor(id: ServiceId, reports: seq<ServiceReport>, overallDowntime: int, overallExact: bool, hours: nat,
                     adjustments: Option<seq<(ServiceId, Adjustment)>>): Option<Source>
    requires hours > 0
  {
    var adjustment := if adjustments.None? then None else FindAdjustment(id, adjustments.value);
    match id
    case Overall =>
      Some(if adjustment.None? then Source(Some(overallDowntime), None, None, None, false)
           else var a := adjustment.value;
             Source(Some(overallDowntime), Some(a.counted), Some(a.excluded), Some(FreeRatio(a.counted, hours)),
                    overallExact && a.exactCoverage))
    case Service(entity) =>
      var report := FindReport(entity, reports);
      if report.None? then None
      else
        var s := report.value;
        Some(if s.knownDowntime.None? || s.incidentFreeRatio.None? || adjustment.None?
             then Source(s.knownDowntime, None, None, None, false)
             else var a := adjustment.value;
               Source(s.knownDowntime, Some(a.counted), Some(a.excluded), Some(FreeRatio(a.counted, hours)),
                      s.exactCoverage && a.exactCoverage))
  }

  function BudgetFor(id: ServiceId, reports: seq<ServiceReport>, overallDowntime: int, overallExact: bool,
                     policies: Option<seq<Policy>>, hours: nat,
                     adjustments: Option<seq<(ServiceId, Adjustment)>>): Budget
    requires hours > 0
  {
    var source := SourceFor(id, reports, overallDowntime, overallExact, hours, adjustments);
    var observed :=
      if source.None? then Observed(None, false, None, None, None)
      else
        var s := source.value;
        Observed(if s.ratio.None? then None else Some(s.ratio.value * 100.0), s.exactCoverage,
                 s.raw, s.known, s.excluded);
    if policies.None? then Budget(id, BudgetUnavailable, observed, None, None, false, None)
    else
      var policy := PolicyOf(id, policies.value);
      if policy.None? || !policy.value.enabled || policy.value.target.None?
      then Budget(id, BudgetUnconfigured, observed, None, None, false, None)
      else
        var allowed := Allowed(hours * 3600, policy.value.target.value);
        if adjustments.None? || source.None? || source.value.known.None? || source.value.ratio.None?
        then Budget(id, BudgetUnavailable, observed, Some(allowed), None, false, None)
        else
          var known := source.value.known.value as real;
          var burnRate := known / allowed;
          Budget(id,
                 if burnRate >= 1.0 then Exhausted
                 else if source.value.exactCoverage then WithinBudget else BudgetCoverageUnknown,
                 observed, Some(allowed), Some(MaxReal(0.0, allowed - known)),
                 source.value.exactCoverage || burnRate >= 1.0, Some(burnRate))
  }

  function BudgetOf(s: Snapshot, windows: seq<Window>, policies: seq<Policy>, id: ServiceId, hours: nat,
                    reports: seq<ServiceReport>, overallDowntime: int, overallExact: bool): Budget
    requires hours > 0
  {
    BudgetFor(id, reports, overallDowntime, overallExact, Some(policies), hours,
      Some(BuildReliabilityMaintenanceAdjustments(
        s.active, s.recovered, windows, s.generatedAt - hours * 3_600_000, s.generatedAt)))
  }

  /** The 24-hour SLO card and the 24-hour burn window, computed in two files, agree. */
  lemma {:induction false} BudgetAgreesWithBurnWindow(s: Snapshot, windows: seq<Window>, policies: seq<Policy>,
                                                      id: ServiceId,
                                   reports: seq<ServiceReport>, overallDowntime: int, overallExact: bool)
    requires BudgetOf(s, windows, policies, id, 24, reports, overallDowntime, overallExact).burnRate.Some?
    ensures var service := BurnServiceFor(s, Some(policies), Some(windows), id);
            && |service.windows| == 3 && service.windows[2].id == OneDay
            && service.windows[2].burnRate ==
               BudgetOf(s, windows, policies, id, 24, reports, overallDowntime, overallExact).burnRate
  {
    hide ServiceAdjustment;
    var from := s.generatedAt - 24 * 3_600_000;
    FindBuilt(id, s.active, s.recovered, windows, from, s.generatedAt);
  }

  /**
   What a budget says: the observed availability is the unclamped share of the
   range, the budget is exhausted exactly when that share is at or below the
   target, and the remaining seconds are what the counted ones leave.
   */
  lemma {:induction false} BudgetMeaning(s: Snapshot, windows: seq<Window>, policies: seq<Policy>, id: ServiceId,
                                         hours: nat,
                      reports: seq<ServiceReport>, overallDowntime: int, overallExact: bool)
    requires hours > 0
    requires BudgetOf(s, windows, policies, id, hours, reports, overallDowntime, overallExact).burnRate.Some?
    ensures var b := BudgetOf(s, windows, policies, id, hours, reports, overallDowntime, overallExact);
            var n := Lookback(s, windows, id, hours) as real;
            var policy := PolicyOf(id, policies);
            && policy.Some? && policy.value.target.Some?
            && b.observed.percent == Some((1.0 - n / (hours * 3600) as real) * 100.0)
            && (b.state == Exhausted <==> b.observed.percent.value <= policy.value.target.value)
            && (b.state == Exhausted <==> b.remaining == Some(0.0))
            && b.allowed.Some? && b.remaining.Some?
            && b.remaining.value + MinReal(n, b.allowed.value) == b.allowed.value
            && (b.state == WithinBudget ==> b.remainingExact)
  {
    LookbackMonotone(s, windows, id, hours, hours);
    BudgetShape(s, windows, policies, id, hours, reports, overallDowntime, overallExact);
    hide BudgetOf, Lookback, PolicyOf, Allowed, FreeRatio;
    BudgetArithmetic(Lookback(s, windows, id, hours), hours, PolicyOf(id, policies).value.target.value);
  }

  lemma {:induction false} BudgetShape(s: Snapshot, windows: seq<Window>, policies: seq<Policy>, id: ServiceId,
                                       hours: nat,
                    reports: seq<ServiceReport>, overallDowntime: int, overallExact: bool)
    requires hours > 0
    requires BudgetOf(s, windows, policies, id, hours, reports, overallDowntime, overallExact).burnRate.Some?
    ensures var b, n := BudgetOf(s, windows, policies, id, hours, reports, overallDowntime, overallExact),
                        Lookback(s, windows, id, hours);
            var policy := PolicyOf(id, policies);
            && policy.Some? && policy.value.target.Some?
            && var allowed := Allowed(hours * 3600, policy.value.target.value);
            && b.allowed == Some(allowed)
            && b.burnRate == Some(n as real / allowed)
            && b.observed.percent == Some(FreeRatio(n, hours) * 100.0)
            && b.remaining == Some(MaxReal(0.0, allowed - n as real))
            && (b.state == Exhausted <==> b.burnRate.value >= 1.0)
            && (b.state == WithinBudget ==> b.remainingExact)
  {
    hide ServiceAdjustment, FindAdjustment, FindReport, FreeRatio, Allowed, MaxReal;
    FindBuilt(id, s.active, s.recovered, windows, s.generatedAt - hours * 3_600_000, s.generatedAt);
  }

  lemma {:induction false} BudgetArithmetic(n: int, hours: nat, target: TargetPercent)
    requires 0 <= n <= hours * 3600 && hours > 0
    ensures FreeRatio(n, hours) == 1.0 - n as real / (hours * 3600) as real
    ensures n as real / Allowed(hours * 3600, target) >= 1.0 <==> n as real >= Allowed(hours * 3600, target)
    ensures n as real >= Allowed(hours * 3600, target) <==> FreeRatio(n, hours) * 100.0 <= target
  {
    var x, whole, rest: real := n as real, (hours * 3600) as real, 1.0 - target / 100.0;
    TargetShare(target);
    ProductPositive(whole, rest);
    QuotientCompares(x, whole, rest);
    QuotientCompares(x, whole, 0.0);
    QuotientCompares(x, whole, 1.0);
    QuotientCompares(x, whole * rest, 1.0);
  }
}
