/**
 What a capacity forecast says, in the numbers a reader of the report sees
 (apps/web/lib/capacity.ts).
 */
module ForecastMeaning {
  import opened Wrappers
  import opened Reals
  import R = Regression
  import opened Forecast

  /** The points with a value from 0 to 200 percent. */
  function Present(points: seq<TrendPoint>): set<int> {
    set k | 0 <= k < |points| && points[k].value.Some? && 0.0 <= points[k].value.value <= 200.0
  }

  /** The whole buckets of at least a second that the range holds, at least one. */
  predicate HoldsBuckets(hours: nat, bucketSeconds: int, buckets: nat) {
    var width := if bucketSeconds < 1 then 1 else bucketSeconds;
    || (buckets >= 1 && buckets * width <= hours * 3600 < (buckets + 1) * width)
    || (buckets == 1 && hours * 3600 < width)
  }

  lemma {:induction false} AcceptedCount(points: seq<TrendPoint>)
    ensures |Accept(points)| == |Present(points)|
  {
    if points == [] {
      assert Present(points) == {};
    } else {
      var n := |points| - 1;
      AcceptedCount(points[..n]);
      assert Present(points) == Present(points[..n]) + if n in Present(points) then {n} else {};
    }
  }

  lemma {:induction false} BucketsCounted(hours: nat, bucketSeconds: int, buckets: nat)
    requires HoldsBuckets(hours, bucketSeconds, buckets)
    ensures ExpectedPoints(hours, bucketSeconds) == buckets
  {
    AtLeastOne(hours * 3600, if bucketSeconds < 1 then 1 else bucketSeconds, buckets);
  }

  lemma {:induction false} AtLeastOne(n: nat, width: nat, buckets: nat)
    requires width > 0
    requires (buckets >= 1 && buckets * width <= n < (buckets + 1) * width) || (buckets == 1 && n < width)
    ensures n / width == buckets || (buckets == 1 && n / width == 0)
  {
    if n < width {
      DivisionUnique(n, width, 0);
    } else {
      DivisionUnique(n, width, buckets);
    }
  }

  lemma {:induction false} DivisionUnique(n: nat, d: nat, q: nat)
    requires d > 0 && q * d <= n < (q + 1) * d
    ensures n / d == q
  {
    var r := n / d;
    assert r * d <= n < r * d + d;
    if r < q { ProductsApart(r, q, d); }
    if q < r { ProductsApart(q, r, d); }
  }

  lemma {:induction false} ProductsApart(a: int, b: int, d: nat)
    requires a < b
    ensures (a + 1) * d <= b * d
  {
    assert 0 <= (b - a - 1) * d;
  }

  /** Coverage is the share of the buckets of the range that have a value, and one when they all do. */
  lemma {:induction false} CoverageIsShare(points: seq<TrendPoint>, currentOverride: Option<real>, bucketSeconds: int,
                                           hours: nat, warningPercent: real, criticalPercent: real, buckets: nat)
    requires HoldsBuckets(hours, bucketSeconds, buckets)
    ensures var r := ForecastOf(points, currentOverride, bucketSeconds, hours, warningPercent, criticalPercent);
            && r.validPointCount == |Present(points)| && r.expectedPointCount == buckets
            && 0.0 <= r.coverageRatio <= 1.0
            && (r.coverageRatio == 1.0 <==> |Present(points)| >= buckets)
            && (|Present(points)| <= buckets ==> r.coverageRatio * buckets as real == |Present(points)| as real)
  {
    hide *;
    AcceptedCount(points);
    BucketsCounted(hours, bucketSeconds, buckets);
    CoverageOf(points, currentOverride, bucketSeconds, hours, warningPercent, criticalPercent);
    CappedShare(|Present(points)|, buckets);
  }

  lemma {:induction false} CoverageOf(points: seq<TrendPoint>, currentOverride: Option<real>, bucketSeconds: int,
                                      hours: nat, warningPercent: real, criticalPercent: real)
    ensures var r := ForecastOf(points, currentOverride, bucketSeconds, hours, warningPercent, criticalPercent);
            && r.validPointCount == |Accept(points)| && r.expectedPointCount == ExpectedPoints(hours, bucketSeconds)
            && r.coverageRatio == MinReal(1.0, r.validPointCount as real / r.expectedPointCount as real)
  {
    hide Accept, StateOf, Trusts, Usable, Span, R.Regress, ExpectedPoints, DaysToThreshold, ConfidenceFor, Latest;
  }

  lemma {:induction false} CappedShare(n: nat, d: nat)
    requires d >= 1
    ensures var share := MinReal(1.0, n as real / d as real);
            0.0 <= share <= 1.0 && (share == 1.0 <==> n >= d) && (n <= d ==> share * d as real == n as real)
  {
    QuotientCompares(n as real, d as real, 1.0);
    QuotientCompares(n as real, d as real, 0.0);
  }

  /** The samples the trend is fitted to: the points with such a value, weighted by their sample count, at least one. */
  lemma {:induction false} FittedSamples(points: seq<TrendPoint>, x: R.Sample)
    ensures x in Accept(points) <==>
            exists k | k in Present(points) ::
              && x.at == points[k].at && Some(x.value) == points[k].value
              && x.weight == (if points[k].sampleCount < 1 then 1 else points[k].sampleCount) as real
  {
    if points != [] {
      var n := |points| - 1;
      var front, p := points[..n], points[n];
      FittedSamples(front, x);
      assert forall k :: k in Present(points) <==> k in Present(front) || (k == n && n in Present(points));
      if k :| k in Present(front) && x.at == front[k].at && Some(x.value) == front[k].value
              && x.weight == (if front[k].sampleCount < 1 then 1 else front[k].sampleCount) as real
      {
        assert k in Present(points) && points[k] == front[k];
      }
      assert Accept(points) == Accept(front) + if n in Present(points)
        then [R.Sample(p.at, p.value.value, (if p.sampleCount > 1 then p.sampleCount else 1) as real)] else [];
      assert n in Present(points) ==> points[n] == p;
    }
  }

  /** Of the points with such a value, these are an earliest and a latest. */
  ghost predicate Extremes(points: seq<TrendPoint>, first: int, last: int) {
    && first in Present(points) && last in Present(points)
    && forall k | k in Present(points) :: points[first].at <= points[k].at <= points[last].at
  }

  /**
   The span is the share of the range, at least an hour, from the earliest to the latest value; zero without a fit.
   */
  lemma {:induction false} SpanIsShare(points: seq<TrendPoint>, currentOverride: Option<real>, bucketSeconds: int,
                                       hours: nat, warningPercent: real, criticalPercent: real, first: int, last: int)
    requires Extremes(points, first, last)
    ensures var r := ForecastOf(points, currentOverride, bucketSeconds, hours, warningPercent, criticalPercent);
            var range, covered := (if hours < 1 then 1 else hours) * 3_600_000, points[last].at - points[first].at;
            if r.slope.None? then r.spanRatio == 0.0
            else
              && 0.0 < r.spanRatio <= 1.0
              && (r.spanRatio == 1.0 <==> covered >= range)
              && (covered <= range ==> r.spanRatio * range as real == covered as real)
  {
    var samples := Accept(points);
    hide Accept, StateOf, Trusts, Usable, Coverage, R.Regress, DaysToThreshold, ConfidenceFor, Latest;
    if R.Regress(samples).Some? {
      var fit := R.Regress(samples).value;
      FitSpan(points, first, last);
      SpanShare(fit.spanDays, hours, points[last].at - points[first].at);
    }
  }

  lemma {:induction false} FitSpan(points: seq<TrendPoint>, first: int, last: int)
    requires Extremes(points, first, last) && R.Regress(Accept(points)).Some?
    ensures R.Regress(Accept(points)).value.spanDays == R.Days(points[last].at - points[first].at)
    ensures points[last].at > points[first].at
  {
    var samples := Accept(points);
    hide R.Regress, R.Spans;
    AcceptedCount(points);
    assert first in Present(points);
    var a, b := R.ReportedSpan(samples);
    assert Present(points) != {};
    assert R.Spans(samples, a, b);
    SpanEnds(points, first, last, a, b);
  }

  lemma {:induction false} SpanEnds(points: seq<TrendPoint>, first: int, last: int, a: R.Sample, b: R.Sample)
    requires Extremes(points, first, last) && R.Spans(Accept(points), a, b)
    ensures a.at == points[first].at && b.at == points[last].at
  {
    FittedSamples(points, a);
    FittedSamples(points, b);
    var x, y := SampleOf(points[first]), SampleOf(points[last]);
    FittedSamples(points, x);
    FittedSamples(points, y);
    hide Accept;
    assert x in Accept(points) && y in Accept(points);
  }

  function SampleOf(p: TrendPoint): R.Sample
    requires p.value.Some?
  {
    R.Sample(p.at, p.value.value, (if p.sampleCount < 1 then 1 else p.sampleCount) as real)
  }

  lemma {:induction false} SpanShare(spanDays: real, hours: nat, covered: int)
    requires spanDays == R.Days(covered) && covered > 0
    ensures var range := (if hours < 1 then 1 else hours) * 3_600_000;
            var span := MinReal(1.0, spanDays / MaxReal(1.0 / 24.0, hours as real / 24.0));
            && 0.0 < span <= 1.0 && (span == 1.0 <==> covered >= range)
            && (covered <= range ==> span * range as real == covered as real)
  {
    var days := MaxReal(1.0 / 24.0, hours as real / 24.0);
    var range := (if hours < 1 then 1 else hours) * 3_600_000;
    assert days * 86400000.0 == range as real;
    assert spanDays * 86400000.0 == covered as real;
    QuotientCompares(spanDays, days, 1.0);
    QuotientCompares(spanDays, days, 0.0);
    assert (spanDays / days) * days == spanDays;
    Regroup(spanDays / days, days, 86400000.0);
  }

  lemma {:induction false} Regroup(a: real, b: real, c: real)
    ensures a * (b * c) == (a * b) * c
  {
  }

  /** Enough good data: 24 values, in four tenths of the buckets, over half the range, and an R squared of 0.3. */
  predicate GoodData(points: seq<TrendPoint>, r: Report) {
    && |Present(points)| >= 24 && r.coverageRatio >= 0.4 && r.spanRatio >= 0.5
    && r.rSquared.Some? && r.rSquared.value >= 0.3
  }

  lemma {:induction false} GoodDataUsable(points: seq<TrendPoint>, currentOverride: Option<real>, bucketSeconds: int,
                                          hours: nat, warningPercent: real, criticalPercent: real)
    ensures Usable(points, bucketSeconds, hours) <==>
            GoodData(points, ForecastOf(points, currentOverride, bucketSeconds, hours, warningPercent, criticalPercent))
  {
    AcceptedCount(points);
    hide Accept, StateOf, Trusts, Coverage, Span, R.Regress, DaysToThreshold, ConfidenceFor, Latest, Present;
  }

  /**
   The state, from the report's own figures: at or over a threshold whatever the data; otherwise nothing without good
   data; and with them what the trend of 0.05 percent a day or more reaches in 7 and in 30 days.
   */
  lemma {:induction false} StateMeaning(points: seq<TrendPoint>, currentOverride: Option<real>, bucketSeconds: int,
                                        hours: nat, warningPercent: real, criticalPercent: real)
    ensures var r := ForecastOf(points, currentOverride, bucketSeconds, hours, warningPercent, criticalPercent);
            && (r.currentPercent.None? ==> r.state == Insufficient)
            && (r.currentPercent.Some? ==>
                  var now := r.currentPercent.value;
                  if now >= criticalPercent then r.state == Critical
                  else if now >= warningPercent then r.state == Warning
                  else if !GoodData(points, r) then r.state == Insufficient
                  else if r.slope.None? then false
                  else if r.slope.value < 0.05 then r.state == Healthy
                  else if now + r.slope.value * 7.0 >= criticalPercent then r.state == ForecastCritical
                  else if now + r.slope.value * 30.0 >= warningPercent then r.state == ForecastWarning
                  else r.state == Growth)
  {
    GoodDataUsable(points, currentOverride, bucketSeconds, hours, warningPercent, criticalPercent);
    hide Accept, Coverage, Span, R.Regress, DaysToThreshold, ConfidenceFor, Latest, GoodData, Trusts;
  }

  /** Usage now: the given one, or else the last value there is. */
  lemma {:induction false} CurrentMeaning(points: seq<TrendPoint>, currentOverride: Option<real>, bucketSeconds: int,
                                          hours: nat, warningPercent: real, criticalPercent: real, k: int)
    requires 0 <= k < |points| && points[k].value.Some? && forall j | k < j < |points| :: points[j].value.None?
    ensures var r := ForecastOf(points, currentOverride, bucketSeconds, hours, warningPercent, criticalPercent);
            r.currentPercent == if currentOverride.Some? then currentOverride else points[k].value
  {
    LatestAt(points, k);
    hide Accept, StateOf, Trusts, Usable, Coverage, Span, R.Regress, DaysToThreshold, ConfidenceFor, Latest;
  }

  lemma {:induction false} LatestAt(points: seq<TrendPoint>, k: int)
    requires 0 <= k < |points| && points[k].value.Some? && forall j | k < j < |points| :: points[j].value.None?
    ensures Latest(points) == points[k].value
  {
    if k < |points| - 1 { LatestAt(points[..|points| - 1], k); }
  }

  /** The confidence, from the report's own figures: given for good data, and at the critical threshold for any fit. */
  lemma {:induction false} ConfidenceMeaning(points: seq<TrendPoint>, currentOverride: Option<real>, bucketSeconds: int,
                                             hours: nat, warningPercent: real, criticalPercent: real)
    ensures var r := ForecastOf(points, currentOverride, bucketSeconds, hours, warningPercent, criticalPercent);
            if r.state == Insufficient || r.rSquared.None? || (r.state != Critical && !GoodData(points, r)) then
              r.confidence == NoConfidence
            else if r.rSquared.value >= 0.75 && r.coverageRatio >= 0.8 && r.spanRatio >= 0.8 then r.confidence == High
            else if r.rSquared.value >= 0.5 && r.coverageRatio >= 0.65 && r.spanRatio >= 0.65 then
              r.confidence == Medium
            else r.confidence == Low
  {
    GoodDataUsable(points, currentOverride, bucketSeconds, hours, warningPercent, criticalPercent);
    hide Accept, StateOf, Coverage, Span, R.Regress, DaysToThreshold, Latest, GoodData;
  }

  function Trust(c: Confidence): nat {
    match c case NoConfidence => 0 case Low => 1 case Medium => 2 case High => 3
  }

  /** With the same usage and thresholds, data that are at least as good in every figure never lower the confidence. */
  lemma {:induction false} BetterDataKeepConfidence(worse: seq<TrendPoint>, better: seq<TrendPoint>, now: real,
                                                    bucketSeconds: int, hours: nat, warningPercent: real,
                                                    criticalPercent: real)
    requires var a := ForecastOf(worse, Some(now), bucketSeconds, hours, warningPercent, criticalPercent);
             var b := ForecastOf(better, Some(now), bucketSeconds, hours, warningPercent, criticalPercent);
             && |Present(worse)| <= |Present(better)|
             && a.coverageRatio <= b.coverageRatio && a.spanRatio <= b.spanRatio
             && (a.rSquared.Some? ==> b.rSquared.Some? && a.rSquared.value <= b.rSquared.value)
    ensures var a := ForecastOf(worse, Some(now), bucketSeconds, hours, warningPercent, criticalPercent);
            var b := ForecastOf(better, Some(now), bucketSeconds, hours, warningPercent, criticalPercent);
            Trust(a.confidence) <= Trust(b.confidence)
  {
    StateMeaning(worse, Some(now), bucketSeconds, hours, warningPercent, criticalPercent);
    StateMeaning(better, Some(now), bucketSeconds, hours, warningPercent, criticalPercent);
    ConfidenceMeaning(worse, Some(now), bucketSeconds, hours, warningPercent, criticalPercent);
    ConfidenceMeaning(better, Some(now), bucketSeconds, hours, warningPercent, criticalPercent);
    GivenCurrent(worse, now, bucketSeconds, hours, warningPercent, criticalPercent);
    GivenCurrent(better, now, bucketSeconds, hours, warningPercent, criticalPercent);
    hide ForecastOf, Present;
  }

  lemma {:induction false} GivenCurrent(points: seq<TrendPoint>, now: real, bucketSeconds: int, hours: nat,
                                        warningPercent: real, criticalPercent: real)
    ensures ForecastOf(points, Some(now), bucketSeconds, hours, warningPercent, criticalPercent).currentPercent ==
            Some(now)
  {
  }

  /**
   The day a trend reaches a threshold, as the report may give it: within a year, and none below 0.05 percent a day.
   */
  ghost predicate DayOf(now: real, slope: real, threshold: real, day: Option<real>) {
    if now >= threshold then day == Some(0.0)
    else if slope < 0.05 || now + slope * 365.0 < threshold then day.None?
    else day.Some? && now + slope * day.value == threshold
  }

  lemma {:induction false} DayMeaning(now: real, slope: real, threshold: real)
    ensures DayOf(now, slope, threshold, DaysToThreshold(now, slope, threshold))
  {
    if now < threshold && slope >= 0.05 {
      DaysMeaning(now, slope, threshold, 365.0);
      QuotientCompares(threshold - now, slope, 365.0);
    }
  }

  /** The reported days, for every state. */
  lemma {:induction false} DaysReported(points: seq<TrendPoint>, currentOverride: Option<real>, bucketSeconds: int,
                                        hours: nat, warningPercent: real, criticalPercent: real)
    requires warningPercent <= criticalPercent
    ensures var r := ForecastOf(points, currentOverride, bucketSeconds, hours, warningPercent, criticalPercent);
            if r.state == Insufficient then r.daysToWarning.None? && r.daysToCritical.None?
            else
              && r.currentPercent.Some?
              && var now := r.currentPercent.value;
              && (if now >= warningPercent then r.daysToWarning == Some(0.0)
                  else r.slope.Some? && DayOf(now, r.slope.value, warningPercent, r.daysToWarning))
              && (if now >= criticalPercent then r.daysToCritical == Some(0.0)
                  else if !GoodData(points, r) then r.daysToCritical.None?
                  else r.slope.Some? && DayOf(now, r.slope.value, criticalPercent, r.daysToCritical))
  {
    StateMeaning(points, currentOverride, bucketSeconds, hours, warningPercent, criticalPercent);
    GoodDataUsable(points, currentOverride, bucketSeconds, hours, warningPercent, criticalPercent);
    var r := ForecastOf(points, currentOverride, bucketSeconds, hours, warningPercent, criticalPercent);
    if r.currentPercent.Some? && r.slope.Some? {
      DayMeaning(r.currentPercent.value, r.slope.value, warningPercent);
      DayMeaning(r.currentPercent.value, r.slope.value, criticalPercent);
    }
    hide Accept, StateOf, Coverage, Span, R.Regress, DaysToThreshold, ConfidenceFor, Latest, GoodData, DayOf, Foreseen;
  }
}
