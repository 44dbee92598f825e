/**
 The capacity forecast that reads the fitted trend (apps/web/lib/capacity.ts):
 when usage reaches a threshold, and which state that makes.
 */
module Forecast {
  import opened Wrappers
  import opened Reals
  import R = Regression

  datatype TrendPoint = TrendPoint(at: int, value: Option<real>, sampleCount: int)

  datatype State = Insufficient | Healthy | Growth | ForecastWarning | ForecastCritical | Warning | Critical

  datatype Confidence = NoConfidence | Low | Medium | High

  datatype Report = Report(
    currentPercent: Option<real>, state: State, slope: Option<real>, rSquared: Option<real>, confidence: Confidence,
    coverageRatio: real, spanRatio: real, validPointCount: nat, expectedPointCount: nat,
    daysToWarning: Option<real>, daysToCritical: Option<real>)

  const MAX_ACCEPTED_PERCENT := 200.0
  const MINIMUM_POINT_COUNT := 24
  const MINIMUM_COVERAGE := 0.4
  const MINIMUM_SPAN := 0.5
  const MINIMUM_R_SQUARED := 0.3
  const MEDIUM_R_SQUARED := 0.5
  const HIGH_R_SQUARED := 0.75
  const MEDIUM_COVERAGE := 0.65
  const HIGH_COVERAGE := 0.8
  const MINIMUM_GROWTH := 0.05
  const WARNING_HORIZON := 30.0
  const CRITICAL_HORIZON := 7.0
  const MAXIMUM_FORECAST_DAYS := 365.0

  function DaysToThreshold(current: real, slope: real, threshold: real): Option<real> {
    if current >= threshold then Some(0.0)
    else if slope < MINIMUM_GROWTH then None
    else
      var days := (threshold - current) / slope;
      if 0.0 <= days <= MAXIMUM_FORECAST_DAYS then Some(days) else None
  }

  predicate Accepted(p: TrendPoint) { p.value.Some? && 0.0 <= p.value.value <= MAX_ACCEPTED_PERCENT }

  function Accept(points: seq<TrendPoint>): seq<R.Sample> {
    if points == [] then []
    else
      var p := points[|points| - 1];
      Accept(points[..|points| - 1]) +
      if Accepted(p) then [R.Sample(p.at, p.value.value, (if p.sampleCount > 1 then p.sampleCount else 1) as real)]
      else []
  }

  /** The value of the last point that has one. */
  function Latest(points: seq<TrendPoint>): Option<real> {
    if points == [] then None
    else if points[|points| - 1].value.Some? then points[|points| - 1].value
    else Latest(points[..|points| - 1])
  }

  method LatestPercent(points: seq<TrendPoint>) returns (r: Option<real>)
    ensures r == Latest(points)
    ensures r.Some? <==> exists p | p in points :: p.value.Some?
    ensures r.Some? ==> exists k | 0 <= k < |points| ::
              points[k].value == r && forall j | k < j < |points| :: points[j].value.None?
  {
    var index := |points| - 1;
    assert points[..index + 1] == points;
    while index >= 0
      invariant -1 <= index < |points|
      invariant Latest(points) == Latest(points[..index + 1])
      invariant forall k | index < k < |points| :: points[k].value.None?
    {
      assert points[..index + 1][..index] == points[..index];
      if points[index].value.Some? { return points[index].value; }
      index := index - 1;
    }
    return None;
  }

  function ConfidenceFor(rSquared: real, coverage: real, span: real): (c: Confidence)
    ensures c != NoConfidence
  {
    if rSquared >= HIGH_R_SQUARED && coverage >= HIGH_COVERAGE && span >= HIGH_COVERAGE then High
    else if rSquared >= MEDIUM_R_SQUARED && coverage >= MEDIUM_COVERAGE && span >= MEDIUM_COVERAGE then Medium
    else Low
  }

  function ExpectedPoints(hours: nat, bucketSeconds: int): (n: nat)
    ensures n >= 1
  {
    var bucket := if bucketSeconds > 1 then bucketSeconds else 1;
    var expected := (hours * 3600) / bucket;
    if expected > 1 then expected else 1
  }

  function Coverage(points: seq<TrendPoint>, bucketSeconds: int, hours: nat): real {
    MinReal(1.0, |Accept(points)| as real / ExpectedPoints(hours, bucketSeconds) as real)
  }

  function Span(fit: Option<R.Fit>, hours: nat): real {
    if fit.Some? then MinReal(1.0, fit.value.spanDays / MaxReal(1.0 / 24.0, hours as real / 24.0)) else 0.0
  }

  /** Enough good data for a forecast at all. */
  predicate Usable(points: seq<TrendPoint>, bucketSeconds: int, hours: nat) {
    var fit := R.Regress(Accept(points));
    && fit.Some? && |Accept(points)| >= MINIMUM_POINT_COUNT
    && Coverage(points, bucketSeconds, hours) >= MINIMUM_COVERAGE
    && Span(fit, hours) >= MINIMUM_SPAN
    && fit.value.rSquared >= MINIMUM_R_SQUARED
  }

  /** The trend grows enough, and `days` days along it the value is at or above the threshold. */
  predicate ReachesWithin(current: real, slope: real, threshold: real, days: real) {
    slope >= MINIMUM_GROWTH && current + slope * days >= threshold
  }

  /** What the trend line from the current value says, in terms of values rather than days. */
  function Foreseen(current: real, slope: real, warningPercent: real, criticalPercent: real): State {
    if ReachesWithin(current, slope, criticalPercent, CRITICAL_HORIZON) then ForecastCritical
    else if ReachesWithin(current, slope, warningPercent, WARNING_HORIZON) then ForecastWarning
    else if slope >= MINIMUM_GROWTH then Growth
    else Healthy
  }

  /** The reported days are those after which the line from the current value meets the threshold. */
  lemma {:induction false} DaysMeaning(current: real, slope: real, threshold: real, horizon: real)
    requires current < threshold && 0.0 <= horizon <= MAXIMUM_FORECAST_DAYS
    ensures var d := DaysToThreshold(current, slope, threshold);
            && (d.Some? && d.value <= horizon <==> ReachesWithin(current, slope, threshold, horizon))
            && (d.Some? ==> d.value > 0.0 && current + slope * d.value == threshold)
  {
    if slope >= MINIMUM_GROWTH {
      QuotientCompares(threshold - current, slope, horizon);
      QuotientCompares(threshold - current, slope, MAXIMUM_FORECAST_DAYS);
      QuotientCompares(threshold - current, slope, 0.0);
    }
  }

  /** The state of current usage: its threshold if it is over one, otherwise what usable data foresee. */
  function StateOf(points: seq<TrendPoint>, current: Option<real>, bucketSeconds: int, hours: nat,
                   warningPercent: real, criticalPercent: real): State {
    var fit := R.Regress(Accept(points));
    if current.None? then Insufficient
    else if current.value >= criticalPercent then Critical
    else if current.value >= warningPercent then Warning
    else if !Usable(points, bucketSeconds, hours) then Insufficient
    else Foreseen(current.value, fit.value.slopePerDay, warningPercent, criticalPercent)
  }

  /** Whether a confidence is given: at the critical threshold for any fit, otherwise for usable data only. */
  predicate Trusts(points: seq<TrendPoint>, state: State, bucketSeconds: int, hours: nat) {
    match state
    case Insufficient => false
    case Critical => R.Regress(Accept(points)).Some?
    case _ => Usable(points, bucketSeconds, hours)
  }

  /** The forecast of a history, from its fit, coverage and span. */
  function ForecastOf(points: seq<TrendPoint>, currentOverride: Option<real>, bucketSeconds: int, hours: nat,
                      warningPercent: real, criticalPercent: real): Report {
    var fit := R.Regress(Accept(points));
    var current := if currentOverride.Some? then currentOverride else Latest(points);
    var coverage, span := Coverage(points, bucketSeconds, hours), Span(fit, hours);
    var state := StateOf(points, current, bucketSeconds, hours, warningPercent, criticalPercent);
    Report(current, state,
           if fit.Some? then Some(fit.value.slopePerDay) else None,
           if fit.Some? then Some(fit.value.rSquared) else None,
           if Trusts(points, state, bucketSeconds, hours) then ConfidenceFor(fit.value.rSquared, coverage, span)
           else NoConfidence,
           coverage, span, |Accept(points)|, ExpectedPoints(hours, bucketSeconds),
           match state
           case Insufficient => None
           case Critical => Some(0.0)
           case Warning => Some(0.0)
           case _ => DaysToThreshold(current.value, fit.value.slopePerDay, warningPercent),
           match state
           case Insufficient => None
           case Critical => Some(0.0)
           case _ => if Usable(points, bucketSeconds, hours)
                     then DaysToThreshold(current.value, fit.value.slopePerDay, criticalPercent) else None)
  }

  method PercentForecast(points: seq<TrendPoint>, currentOverride: Option<real>, bucketSeconds: int, hours: nat,
                         warningPercent: real, criticalPercent: real) returns (r: Report)
    ensures r == ForecastOf(points, currentOverride, bucketSeconds, hours, warningPercent, criticalPercent)
  {
    hide R.Regress, Accept, Coverage, Span, DaysToThreshold, ReachesWithin, ConfidenceFor, Latest;
    var valid := Accept(points);
    var fitted := R.Regress(valid);
    var expected := ExpectedPoints(hours, bucketSeconds);
    var coverage := Coverage(points, bucketSeconds, hours);
    var span := Span(fitted, hours);
    var current := currentOverride;
    if current.None? { current := LatestPercent(points); }
    var slope := if fitted.Some? then Some(fitted.value.slopePerDay) else None;
    var rSquared := if fitted.Some? then Some(fitted.value.rSquared) else None;
    if current.None? {
      return Report(None, Insufficient, slope, rSquared, NoConfidence, coverage, span, |valid|, expected, None, None);
    }
    if current.value >= criticalPercent {
      var confidence := if fitted.Some? then ConfidenceFor(fitted.value.rSquared, coverage, span) else NoConfidence;
      return Report(current, Critical, slope, rSquared, confidence, coverage, span, |valid|, expected, Some(0.0),
                    Some(0.0));
    }
    if current.value >= warningPercent {
      var usable := fitted.Some? && |valid| >= MINIMUM_POINT_COUNT && coverage >= MINIMUM_COVERAGE
                    && span >= MINIMUM_SPAN && fitted.value.rSquared >= MINIMUM_R_SQUARED;
      var daysToCritical :=
        if usable then DaysToThreshold(current.value, fitted.value.slopePerDay, criticalPercent) else None;
      var confidence := if usable then ConfidenceFor(fitted.value.rSquared, coverage, span) else NoConfidence;
      return Report(current, Warning, slope, rSquared, confidence, coverage, span, |valid|, expected, Some(0.0),
                    daysToCritical);
    }
    if fitted.None? || |valid| < MINIMUM_POINT_COUNT || coverage < MINIMUM_COVERAGE || span < MINIMUM_SPAN
       || fitted.value.rSquared < MINIMUM_R_SQUARED
    {
      return Report(current, Insufficient, slope, rSquared, NoConfidence, coverage, span, |valid|, expected, None,
                    None);
    }
    var daysToWarning := DaysToThreshold(current.value, fitted.value.slopePerDay, warningPercent);
    var daysToCritical := DaysToThreshold(current.value, fitted.value.slopePerDay, criticalPercent);
    DaysMeaning(current.value, fitted.value.slopePerDay, warningPercent, WARNING_HORIZON);
    DaysMeaning(current.value, fitted.value.slopePerDay, criticalPercent, CRITICAL_HORIZON);
    var state := Healthy;
    if daysToCritical.Some? && daysToCritical.value <= CRITICAL_HORIZON {
      state := ForecastCritical;
    } else if daysToWarning.Some? && daysToWarning.value <= WARNING_HORIZON {
      state := ForecastWarning;
    } else if fitted.value.slopePerDay >= MINIMUM_GROWTH {
      state := Growth;
    }
    return Report(current, state, slope, rSquared, ConfidenceFor(fitted.value.rSquared, coverage, span), coverage, span,
                  |valid|, expected, daysToWarning, daysToCritical);
  }

  function Rank(state: State): nat {
    match state
    case Insufficient => 0
    case Healthy => 0
    case Growth => 1
    case ForecastWarning => 2
    case ForecastCritical => 3
    case Warning => 4
    case Critical => 5
  }

  /** With the same history, higher usage never makes the state less severe. */
  lemma {:induction false} RisingUsageNeverLowersState(points: seq<TrendPoint>, low: real, high: real,
                                                       bucketSeconds: int, hours: nat,
                                    warningPercent: real, criticalPercent: real)
    requires low <= high
    ensures Rank(StateOf(points, Some(low), bucketSeconds, hours, warningPercent, criticalPercent))
            <= Rank(StateOf(points, Some(high), bucketSeconds, hours, warningPercent, criticalPercent))
  {
    hide Usable, R.Regress;
  }

  /** A reported critical day never comes before the warning day, and whenever one is reported so is the other. */
  lemma {:induction false} WarningComesFirst(current: real, slope: real, warningPercent: real, criticalPercent: real)
    requires warningPercent <= criticalPercent
    ensures var w := DaysToThreshold(current, slope, warningPercent);
            var c := DaysToThreshold(current, slope, criticalPercent);
            c.Some? ==> w.Some? && 0.0 <= w.value <= c.value <= MAXIMUM_FORECAST_DAYS
  {
    var c := DaysToThreshold(current, slope, criticalPercent);
    if c.Some? && current < warningPercent {
      DaysMeaning(current, slope, criticalPercent, MAXIMUM_FORECAST_DAYS);
      DaysMeaning(current, slope, warningPercent, c.value);
      DaysMeaning(current, slope, warningPercent, MAXIMUM_FORECAST_DAYS);
      hide DaysToThreshold;
    }
  }
}
