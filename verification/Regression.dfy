/**
 The weighted least-squares trend behind capacity forecasts
 (apps/web/lib/capacity.ts), in exact arithmetic.
 */
module Regression {
  import opened Wrappers
  import opened Sorting
  import opened Reals

  datatype Sample = Sample(at: int, value: real, weight: real)

  /** A sample in the units of the fit: days since the first sample, value, weight. */
  datatype Point = Point(x: real, y: real, w: real)

  datatype Fit = Fit(slopePerDay: real, rSquared: real, pointCount: nat, spanDays: real)

  /** `Number.EPSILON`. */
  const EPSILON: real := 1.0 / 4503599627370496.0

  function Days(ms: int): real { ms as real / 86400000.0 }

  predicate NotAfter(a: Sample, b: Sample) { a.at <= b.at }

  /** A sample without weight is left out. */
  function One(x: Sample, first: int): seq<Point> {
    if x.weight <= 0.0 then [] else [Point(Days(x.at - first), x.value, x.weight)]
  }

  function Normalized(samples: seq<Sample>, first: int): seq<Point> {
    if samples == [] then []
    else Normalized(samples[..|samples| - 1], first) + One(samples[|samples| - 1], first)
  }

  function Sum(ps: seq<Point>, f: Point -> real): real {
    if ps == [] then 0.0 else Sum(ps[..|ps| - 1], f) + f(ps[|ps| - 1])
  }

  function Weight(ps: seq<Point>): real { Sum(ps, (p: Point) => p.w) }

  function SumX(ps: seq<Point>): real { Sum(ps, (p: Point) => p.x * p.w) }

  function SumY(ps: seq<Point>): real { Sum(ps, (p: Point) => p.y * p.w) }

  function SpreadX(p: Point, mx: real): real { p.w * Square(p.x - mx) }

  function SpreadY(p: Point, my: real): real { p.w * Square(p.y - my) }

  function Joint(p: Point, mx: real, my: real): real { p.w * (p.x - mx) * (p.y - my) }

  function Miss(p: Point, intercept: real, slope: real): real { p.w * Square(p.y - (intercept + slope * p.x)) }

  function VarianceX(ps: seq<Point>, mx: real): real { Sum(ps, (p: Point) => SpreadX(p, mx)) }

  function VarianceY(ps: seq<Point>, my: real): real { Sum(ps, (p: Point) => SpreadY(p, my)) }

  function Covariance(ps: seq<Point>, mx: real, my: real): real { Sum(ps, (p: Point) => Joint(p, mx, my)) }

  /** The weighted squared distance of the points from the line `intercept + slope * x`. */
  function Residual(ps: seq<Point>, intercept: real, slope: real): real {
    Sum(ps, (p: Point) => Miss(p, intercept, slope))
  }

  /** The clamp of a ratio into the unit interval. */
  function Clamp(ratio: real): (r: real)
    ensures 0.0 <= r <= 1.0
    ensures 0.0 <= ratio <= 1.0 ==> r == ratio
  {
    MaxReal(0.0, MinReal(1.0, ratio))
  }

  ghost predicate Weighted(ps: seq<Point>) { forall p | p in ps :: p.w > 0.0 }

  function MeanX(ps: seq<Point>): real
    requires Weight(ps) > 0.0
  {
    SumX(ps) / Weight(ps)
  }

  function MeanY(ps: seq<Point>): real
    requires Weight(ps) > 0.0
  {
    SumY(ps) / Weight(ps)
  }

  /** The points can carry a slope: they have weight and do not all lie at one time. */
  predicate Fittable(ps: seq<Point>) { Weight(ps) > 0.0 && VarianceX(ps, MeanX(ps)) > EPSILON }

  function Slope(ps: seq<Point>): real
    requires Fittable(ps)
  {
    Covariance(ps, MeanX(ps), MeanY(ps)) / VarianceX(ps, MeanX(ps))
  }

  function Intercept(ps: seq<Point>): real
    requires Fittable(ps)
  {
    MeanY(ps) - Slope(ps) * MeanX(ps)
  }

  function RSquared(ps: seq<Point>): (r: real)
    requires Fittable(ps)
    ensures 0.0 <= r <= 1.0
  {
    var total := VarianceY(ps, MeanY(ps));
    if total <= EPSILON then 1.0
    else Clamp(1.0 - Residual(ps, Intercept(ps), Slope(ps)) / total)
  }

  function Regress(samples: seq<Sample>): Option<Fit> {
    if |samples| < 2 then None
    else
      var sorted := Sort(samples, NotAfter);
      assert |sorted| == |samples| by { SameElements(sorted, samples); }
      var first, last := sorted[0].at, sorted[|sorted| - 1].at;
      if last <= first then None
      else
        var ps := Normalized(sorted, first);
        if |ps| < 2 || !Fittable(ps) then None
        else Some(Fit(Slope(ps), RSquared(ps), |ps|, Days(last - first)))
  }

  // ---- The fitted line is the best line

  lemma {:induction false} WeightPositive(ps: seq<Point>)
    requires Weighted(ps)
    ensures Weight(ps) >= 0.0
    ensures ps != [] ==> Weight(ps) > 0.0
  {
    if ps != [] {
      WeightPositive(ps[..|ps| - 1]);
      assert ps[|ps| - 1] in ps;
    }
  }

  /** The moments of the points about a centre, put together as the residual of a line needs them. */
  function Expansion(a: real, b: real, mx: real, my: real,
                     vy: real, cov: real, vx: real, weight: real, sy: real, sx: real): real {
    var e := a + b * mx - my;
    vy - 2.0 * b * cov + b * b * vx + e * e * weight - 2.0 * e * (sy - my * weight) + 2.0 * e * b * (sx - mx * weight)
  }

  lemma {:induction false} ExpandOne(p: Point, a: real, b: real, mx: real, my: real)
    ensures Miss(p, a, b) ==
            Expansion(a, b, mx, my, SpreadY(p, my), Joint(p, mx, my), SpreadX(p, mx), p.w, p.y * p.w, p.x * p.w)
  {
    var e, u, v := a + b * mx - my, p.y - my, p.x - mx;
    assert p.y - (a + b * p.x) == u - b * v - e;
    assert (u - b * v - e) * (u - b * v - e)
           == u * u - 2.0 * b * (v * u) + b * b * (v * v) + e * e - 2.0 * e * u + 2.0 * e * b * v;
  }

  lemma {:induction false} ExpansionAdds(a: real, b: real, mx: real, my: real,
                      vy: real, cov: real, vx: real, weight: real, sy: real, sx: real,
                      vy': real, cov': real, vx': real, weight': real, sy': real, sx': real)
    ensures Expansion(a, b, mx, my, vy + vy', cov + cov', vx + vx', weight + weight', sy + sy', sx + sx')
            == Expansion(a, b, mx, my, vy, cov, vx, weight, sy, sx)
               + Expansion(a, b, mx, my, vy', cov', vx', weight', sy', sx')
  {
  }

  function Moments(ps: seq<Point>, a: real, b: real, mx: real, my: real): real {
    Expansion(a, b, mx, my, VarianceY(ps, my), Covariance(ps, mx, my), VarianceX(ps, mx), Weight(ps), SumY(ps),
              SumX(ps))
  }

  lemma {:induction false} SumsUnfold(ps: seq<Point>, a: real, b: real, mx: real, my: real)
    requires ps != []
    ensures var p, before := ps[|ps| - 1], ps[..|ps| - 1];
            && Residual(ps, a, b) == Residual(before, a, b) + Miss(p, a, b)
            && VarianceX(ps, mx) == VarianceX(before, mx) + SpreadX(p, mx)
            && VarianceY(ps, my) == VarianceY(before, my) + SpreadY(p, my)
            && Covariance(ps, mx, my) == Covariance(before, mx, my) + Joint(p, mx, my)
            && Weight(ps) == Weight(before) + p.w
            && SumX(ps) == SumX(before) + p.x * p.w
            && SumY(ps) == SumY(before) + p.y * p.w
  {
    hide Miss, SpreadX, SpreadY, Joint;
  }

  lemma {:induction false} MomentsUnfold(ps: seq<Point>, a: real, b: real, mx: real, my: real)
    requires ps != []
    ensures var p, before := ps[|ps| - 1], ps[..|ps| - 1];
            Moments(ps, a, b, mx, my) == Moments(before, a, b, mx, my) + Miss(p, a, b)
  {
    hide Expansion, Residual, VarianceX, VarianceY, Covariance, Weight, SumX, SumY, Miss, SpreadX, SpreadY, Joint;
    var p, before := ps[|ps| - 1], ps[..|ps| - 1];
    SumsUnfold(ps, a, b, mx, my);
    ExpandOne(p, a, b, mx, my);
    ExpansionAdds(a, b, mx, my,
                  VarianceY(before, my), Covariance(before, mx, my), VarianceX(before, mx), Weight(before),
                  SumY(before), SumX(before),
                  SpreadY(p, my), Joint(p, mx, my), SpreadX(p, mx), p.w, p.y * p.w, p.x * p.w);
    assert Moments(ps, a, b, mx, my) ==
           Expansion(a, b, mx, my, VarianceY(before, my) + SpreadY(p, my),
                     Covariance(before, mx, my) + Joint(p, mx, my),
                     VarianceX(before, mx) + SpreadX(p, mx), Weight(before) + p.w, SumY(before) + p.y * p.w,
                     SumX(before) + p.x * p.w)
    by {
      assert VarianceY(ps, my) == VarianceY(before, my) + SpreadY(p, my);
      assert Covariance(ps, mx, my) == Covariance(before, mx, my) + Joint(p, mx, my);
      assert VarianceX(ps, mx) == VarianceX(before, mx) + SpreadX(p, mx);
      assert SumX(ps) == SumX(before) + p.x * p.w;
      assert SumY(ps) == SumY(before) + p.y * p.w;
    }
  }

  /** The residual of any line, from the moments about any centre. */
  lemma {:induction false} Expand(ps: seq<Point>, a: real, b: real, mx: real, my: real)
    ensures Residual(ps, a, b) == Moments(ps, a, b, mx, my)
  {
    if ps == [] {
      assert Expansion(a, b, mx, my, 0.0, 0.0, 0.0, 0.0, 0.0, 0.0) == 0.0;
    } else {
      hide Moments, Residual;
      Expand(ps[..|ps| - 1], a, b, mx, my);
      SumsUnfold(ps, a, b, mx, my);
      MomentsUnfold(ps, a, b, mx, my);
    }
  }

  /** Unexplained variance, plus what a line of another slope and another height at the mean adds. */
  function Missed(vy: real, vx: real, weight: real, fitted: real, slope: real, height: real): real {
    vy - fitted * fitted * vx + vx * Square(slope - fitted) + Square(height) * weight
  }

  lemma {:induction false} Completed(residual: real, a: real, b: real, mx: real, my: real,
                  vy: real, cov: real, vx: real, weight: real, sy: real, sx: real, slope: real, height: real)
    requires residual == Expansion(a, b, mx, my, vy, cov, vx, weight, sy, sx)
    requires sx == mx * weight && sy == my * weight && cov == slope * vx && height == a + b * mx - my
    ensures residual == Missed(vy, vx, weight, slope, b, height)
  {
    assert Square(b - slope) == b * b - 2.0 * b * slope + slope * slope;
    assert vx * (b * b - 2.0 * b * slope + slope * slope) == b * b * vx - 2.0 * b * (slope * vx) + slope * slope * vx;
  }

  lemma {:induction false} Centred(ps: seq<Point>)
    requires Fittable(ps)
    ensures SumX(ps) == MeanX(ps) * Weight(ps)
    ensures SumY(ps) == MeanY(ps) * Weight(ps)
    ensures Covariance(ps, MeanX(ps), MeanY(ps)) == Slope(ps) * VarianceX(ps, MeanX(ps))
  {
    hide Weight, VarianceX, Covariance, SumX, SumY;
  }

  /** How much any line misses the points by, against the fitted one. */
  lemma {:induction false} Excess(ps: seq<Point>, a: real, b: real, height: real)
    requires Fittable(ps) && height == a + b * MeanX(ps) - MeanY(ps)
    ensures Residual(ps, a, b) ==
            Missed(VarianceY(ps, MeanY(ps)), VarianceX(ps, MeanX(ps)), Weight(ps), Slope(ps), b, height)
  {
    hide Residual, Weight, VarianceX, VarianceY, Covariance, SumX, SumY, Expansion, Missed, MeanX, MeanY, Slope;
    var mx, my := MeanX(ps), MeanY(ps);
    Expand(ps, a, b, mx, my);
    Centred(ps);
    Completed(Residual(ps, a, b), a, b, mx, my, VarianceY(ps, my), Covariance(ps, mx, my), VarianceX(ps, mx),
              Weight(ps), SumY(ps), SumX(ps), Slope(ps), height);
  }

  /** The fitted line minimises the weighted squared residual over all lines, and no other line does. */
  lemma {:induction false} BestLine(ps: seq<Point>, a: real, b: real)
    requires Fittable(ps)
    ensures Residual(ps, Intercept(ps), Slope(ps)) <= Residual(ps, a, b)
    ensures Residual(ps, Intercept(ps), Slope(ps)) == Residual(ps, a, b) <==> a == Intercept(ps) && b == Slope(ps)
  {
    hide Residual, Weight, VarianceX, VarianceY, Slope, MeanX, MeanY;
    var height := a + b * MeanX(ps) - MeanY(ps);
    Excess(ps, a, b, height);
    Excess(ps, Intercept(ps), Slope(ps), 0.0);
    SquareTimes(VarianceX(ps, MeanX(ps)), b - Slope(ps));
    SquareTimes(Weight(ps), height);
  }

  /** What the fit leaves over is the variance it does not explain. */
  lemma {:induction false} ResidualIsUnexplained(ps: seq<Point>)
    requires Fittable(ps)
    ensures Residual(ps, Intercept(ps), Slope(ps)) ==
            VarianceY(ps, MeanY(ps)) - Slope(ps) * Slope(ps) * VarianceX(ps, MeanX(ps))
  {
    hide Residual, Weight, VarianceX, VarianceY, Slope, MeanX, MeanY;
    Excess(ps, Intercept(ps), Slope(ps), 0.0);
  }

  lemma {:induction false} ResidualNonNegative(ps: seq<Point>, a: real, b: real)
    requires Weighted(ps)
    ensures Residual(ps, a, b) >= 0.0
  {
    if ps != [] {
      var p := ps[|ps| - 1];
      ResidualNonNegative(ps[..|ps| - 1], a, b);
      SumsUnfold(ps, a, b, 0.0, 0.0);
      assert p in ps;
      SquareTimes(p.w, p.y - (a + b * p.x));
      hide Residual, VarianceX, VarianceY, Covariance, Weight, SumX, SumY, SpreadX, SpreadY, Joint, Square;
    }
  }

  /** R squared needs no clamp: it is the explained share of the variance, and lies between zero and one as it is. */
  lemma {:induction false} RSquaredUnclamped(ps: seq<Point>)
    requires Weighted(ps) && Fittable(ps) && VarianceY(ps, MeanY(ps)) > EPSILON
    ensures var total := VarianceY(ps, MeanY(ps));
            && RSquared(ps) == 1.0 - Residual(ps, Intercept(ps), Slope(ps)) / total
            && RSquared(ps) == Slope(ps) * Slope(ps) * VarianceX(ps, MeanX(ps)) / total
            && 0.0 <= RSquared(ps) <= 1.0
            && (RSquared(ps) == 1.0 <==> Residual(ps, Intercept(ps), Slope(ps)) == 0.0)
            && (RSquared(ps) == 0.0 <==> Slope(ps) == 0.0)
  {
    hide Residual, Weight, VarianceX, VarianceY, Slope, MeanX, MeanY, Intercept;
    var total, vx := VarianceY(ps, MeanY(ps)), VarianceX(ps, MeanX(ps));
    ResidualIsUnexplained(ps);
    ResidualNonNegative(ps, Intercept(ps), Slope(ps));
    SquareTimes(vx, Slope(ps));
    assert Slope(ps) * Slope(ps) * vx == vx * Square(Slope(ps));
    Share(total, Slope(ps) * Slope(ps) * vx);
  }

  /** Values that do not vary count as explained. */
  lemma {:induction false} FlatValues(ps: seq<Point>)
    requires Fittable(ps) && VarianceY(ps, MeanY(ps)) <= 1.0 / 4503599627370496.0
    ensures RSquared(ps) == 1.0
  {
    hide VarianceX, VarianceY, Residual, Weight, Slope, MeanX, MeanY;
  }

  // ---- The fit does not depend on the clock's origin nor on the order of the samples

  function Move(x: Sample, ms: int): Sample { x.(at := x.at + ms) }

  function Shift(samples: seq<Sample>, ms: int): seq<Sample> {
    seq(|samples|, i requires 0 <= i < |samples| => Move(samples[i], ms))
  }

  lemma {:induction false} ShiftCons(x: Sample, xs: seq<Sample>, ms: int)
    ensures Shift([x] + xs, ms) == [Move(x, ms)] + Shift(xs, ms)
    ensures Shift([x] + xs, ms)[1..] == Shift(xs, ms)
    ensures ([x] + xs)[1..] == xs
  {
  }

  lemma {:induction false} InsertShifts(x: Sample, xs: seq<Sample>, ms: int)
    ensures Insert(Move(x, ms), Shift(xs, ms), NotAfter) == Shift(Insert(x, xs, NotAfter), ms)
  {
    if xs == [] {
      assert Shift([x], ms) == [Move(x, ms)];
    } else {
      assert xs == [xs[0]] + xs[1..];
      ShiftCons(xs[0], xs[1..], ms);
      ShiftCons(x, xs, ms);
      InsertShifts(x, xs[1..], ms);
      ShiftCons(xs[0], Insert(x, xs[1..], NotAfter), ms);
      hide Shift;
    }
  }

  lemma {:induction false} SortShifts(xs: seq<Sample>, ms: int)
    ensures Sort(Shift(xs, ms), NotAfter) == Shift(Sort(xs, NotAfter), ms)
  {
    if xs != [] {
      assert xs == [xs[0]] + xs[1..];
      ShiftCons(xs[0], xs[1..], ms);
      SortShifts(xs[1..], ms);
      InsertShifts(xs[0], Sort(xs[1..], NotAfter), ms);
      hide Shift, Insert;
    }
  }

  lemma {:induction false} NormalizedShifts(xs: seq<Sample>, first: int, ms: int)
    ensures Normalized(Shift(xs, ms), first + ms) == Normalized(xs, first)
  {
    if xs != [] {
      NormalizedShifts(xs[..|xs| - 1], first, ms);
      assert Shift(xs, ms)[..|xs| - 1] == Shift(xs[..|xs| - 1], ms);
    }
  }

  /** Moving every timestamp by the same amount changes nothing: not the slope, R squared, span or count. */
  lemma {:induction false} ShiftInvariant(samples: seq<Sample>, ms: int)
    ensures Regress(Shift(samples, ms)) == Regress(samples)
  {
    hide Fittable, Slope, RSquared, Sort, Normalized;
    if |samples| >= 2 {
      var sorted := Sort(samples, NotAfter);
      SortShifts(samples, ms);
      assert |sorted| == |samples| by { SameElements(sorted, samples); }
      assert |Shift(samples, ms)| == |samples| && |Shift(sorted, ms)| == |sorted|;
      NormalizedShifts(sorted, sorted[0].at, ms);
    }
  }

  lemma {:induction false} Cancel<T>(a: multiset<T>, b: multiset<T>, x: T)
    requires a + multiset{x} == b + multiset{x}
    ensures a == b
  {
    assert a == (a + multiset{x}) - multiset{x};
    assert b == (b + multiset{x}) - multiset{x};
  }

  function Without<T>(xs: seq<T>, i: nat): (r: seq<T>)
    requires i < |xs|
    ensures |r| == |xs| - 1 && multiset(r) + multiset{xs[i]} == multiset(xs)
  {
    assert xs == xs[..i] + [xs[i]] + xs[i + 1..];
    xs[..i] + xs[i + 1..]
  }

  lemma {:induction false} SumWithout(ps: seq<Point>, i: nat, f: Point -> real)
    requires i < |ps|
    ensures Sum(ps, f) == Sum(Without(ps, i), f) + f(ps[i])
  {
    var n := |ps| - 1;
    if i < n {
      SumWithout(ps[..n], i, f);
      assert Without(ps, i)[..n - 1] == Without(ps[..n], i);
    } else {
      assert Without(ps, i) == ps[..n];
    }
  }

  lemma {:induction false} SumPermutes(ps: seq<Point>, qs: seq<Point>, f: Point -> real)
    requires multiset(ps) == multiset(qs)
    ensures Sum(ps, f) == Sum(qs, f)
  {
    SameElements(ps, qs);
    if ps != [] {
      var n := |ps| - 1;
      assert ps[n] in qs;
      var i :| 0 <= i < |qs| && qs[i] == ps[n];
      assert ps == ps[..n] + [ps[n]];
      Cancel(multiset(ps[..n]), multiset(Without(qs, i)), ps[n]);
      SumPermutes(ps[..n], Without(qs, i), f);
      SumWithout(qs, i, f);
    }
  }

  lemma {:induction false} NormalizedWithout(xs: seq<Sample>, i: nat, first: int)
    requires i < |xs|
    ensures multiset(Normalized(xs, first)) == multiset(Normalized(Without(xs, i), first)) + multiset(One(xs[i], first))
  {
    hide One;
    var n := |xs| - 1;
    if i < n {
      NormalizedWithout(xs[..n], i, first);
      assert Without(xs, i)[..n - 1] == Without(xs[..n], i);
    } else {
      assert Without(xs, i) == xs[..n];
    }
  }

  lemma {:induction false} NormalizedPermutes(xs: seq<Sample>, ys: seq<Sample>, first: int)
    requires multiset(xs) == multiset(ys)
    ensures multiset(Normalized(xs, first)) == multiset(Normalized(ys, first))
  {
    SameElements(xs, ys);
    if xs != [] {
      var n := |xs| - 1;
      assert xs[n] in ys;
      var i :| 0 <= i < |ys| && ys[i] == xs[n];
      assert xs == xs[..n] + [xs[n]] && Without(xs, n) == xs[..n];
      Cancel(multiset(xs[..n]), multiset(Without(ys, i)), xs[n]);
      NormalizedPermutes(xs[..n], Without(ys, i), first);
      NormalizedWithout(ys, i, first);
      NormalizedWithout(xs, n, first);
    }
  }

  lemma {:induction false} MomentsPermute(ps: seq<Point>, qs: seq<Point>, a: real, b: real, mx: real, my: real)
    requires multiset(ps) == multiset(qs)
    ensures Weight(ps) == Weight(qs) && SumX(ps) == SumX(qs) && SumY(ps) == SumY(qs)
    ensures VarianceX(ps, mx) == VarianceX(qs, mx) && VarianceY(ps, my) == VarianceY(qs, my)
    ensures Covariance(ps, mx, my) == Covariance(qs, mx, my) && Residual(ps, a, b) == Residual(qs, a, b)
  {
    hide SpreadX, SpreadY, Joint, Miss;
    SumPermutes(ps, qs, (p: Point) => p.w);
    SumPermutes(ps, qs, (p: Point) => p.x * p.w);
    SumPermutes(ps, qs, (p: Point) => p.y * p.w);
    SumPermutes(ps, qs, (p: Point) => SpreadX(p, mx));
    SumPermutes(ps, qs, (p: Point) => SpreadY(p, my));
    SumPermutes(ps, qs, (p: Point) => Joint(p, mx, my));
    SumPermutes(ps, qs, (p: Point) => Miss(p, a, b));
  }

  lemma {:induction false} LinePermutes(ps: seq<Point>, qs: seq<Point>)
    requires multiset(ps) == multiset(qs)
    ensures Fittable(ps) == Fittable(qs)
    ensures Weight(ps) > 0.0 ==> Weight(qs) > 0.0 && MeanX(ps) == MeanX(qs) && MeanY(ps) == MeanY(qs)
    ensures Fittable(ps) ==> Slope(ps) == Slope(qs)
  {
    hide Weight, SumX, SumY, VarianceX, VarianceY, Covariance;
    MomentsPermute(ps, qs, 0.0, 0.0, 0.0, 0.0);
    if Weight(ps) > 0.0 { MomentsPermute(ps, qs, 0.0, 0.0, MeanX(ps), MeanY(ps)); }
  }

  lemma {:induction false} FitPermutes(ps: seq<Point>, qs: seq<Point>)
    requires multiset(ps) == multiset(qs)
    ensures Fittable(ps) == Fittable(qs)
    ensures Fittable(ps) ==> Slope(ps) == Slope(qs) && RSquared(ps) == RSquared(qs)
  {
    hide Weight, VarianceX, VarianceY, Residual, MeanX, MeanY, Slope;
    LinePermutes(ps, qs);
    if Fittable(ps) {
      assert Intercept(ps) == Intercept(qs);
      MomentsPermute(ps, qs, Intercept(ps), Slope(ps), 0.0, MeanY(ps));
    }
  }

  lemma {:induction false} EndsAgree(xs: seq<Sample>, ys: seq<Sample>)
    requires multiset(xs) == multiset(ys) && xs != [] && ys != []
    requires SortedBy(xs, NotAfter) && SortedBy(ys, NotAfter)
    ensures xs[0].at == ys[0].at && xs[|xs| - 1].at == ys[|ys| - 1].at
  {
    SameElements(xs, ys);
    assert xs[0] in ys && ys[0] in xs;
    assert xs[|xs| - 1] in ys && ys[|ys| - 1] in xs;
  }

  /** Samples in any order give the same slope, R squared, span and count. */
  lemma {:induction false} OrderInvariant(xs: seq<Sample>, ys: seq<Sample>)
    requires multiset(xs) == multiset(ys)
    ensures Regress(xs) == Regress(ys)
  {
    hide Fittable, Slope, RSquared, Sort, Normalized;
    SameElements(xs, ys);
    if |xs| >= 2 {
      var sx, sy := Sort(xs, NotAfter), Sort(ys, NotAfter);
      SameElements(sx, xs);
      SameElements(sy, ys);
      SortSorts(xs, NotAfter);
      SortSorts(ys, NotAfter);
      EndsAgree(sx, sy);
      NormalizedPermutes(sx, sy, sx[0].at);
      var ps, qs := Normalized(sx, sx[0].at), Normalized(sy, sx[0].at);
      SameElements(ps, qs);
      FitPermutes(ps, qs);
    }
  }

  // ---- What a fit says

  /** The points a fit is made of. */
  function PointsOf(samples: seq<Sample>): seq<Point>
    requires samples != []
  {
    var sorted := Sort(samples, NotAfter);
    assert |sorted| == |samples| by { SameElements(sorted, samples); }
    Normalized(sorted, sorted[0].at)
  }

  lemma {:induction false} NormalizedWeighted(xs: seq<Sample>, first: int)
    ensures Weighted(Normalized(xs, first))
    ensures (forall x | x in xs :: x.weight > 0.0) ==> |Normalized(xs, first)| == |xs|
  {
    if xs != [] {
      NormalizedWeighted(xs[..|xs| - 1], first);
      assert xs[|xs| - 1] in xs;
    }
  }

  /** Whatever is reported fits the samples at least as well as any other line, with an R squared in range. */
  lemma {:induction false} ReportedFit(samples: seq<Sample>, a: real, b: real)
    requires Regress(samples).Some?
    ensures var fit, ps := Regress(samples).value, PointsOf(samples);
            && Fittable(ps)
            && Residual(ps, Intercept(ps), fit.slopePerDay) <= Residual(ps, a, b)
            && fit.rSquared == RSquared(ps) && 0.0 <= fit.rSquared <= 1.0
            && 2 <= fit.pointCount == |ps| <= |samples|
            && fit.spanDays > 0.0
            && ((forall x | x in samples :: x.weight > 0.0) ==> fit.pointCount == |samples|)
  {
    hide Slope, Residual, Weight, VarianceX, VarianceY, MeanX, MeanY, Normalized, Sort, RSquared, Weighted;
    var sorted := Sort(samples, NotAfter);
    SameElements(sorted, samples);
    NormalizedWeighted(sorted, sorted[0].at);
    NormalizedShorter(sorted, sorted[0].at);
    BestLine(PointsOf(samples), a, b);
  }

  lemma {:induction false} NormalizedShorter(xs: seq<Sample>, first: int)
    ensures |Normalized(xs, first)| <= |xs|
  {
    if xs != [] { NormalizedShorter(xs[..|xs| - 1], first); }
  }

  lemma {:induction false} OnTheLine(ps: seq<Point>, a: real, b: real)
    requires forall p | p in ps :: p.y == a + b * p.x
    ensures Residual(ps, a, b) == 0.0
  {
    if ps != [] {
      var p := ps[|ps| - 1];
      OnTheLine(ps[..|ps| - 1], a, b);
      assert p in ps;
      assert Miss(p, a, b) == 0.0;
    }
  }

  /** Points on one line give back that line, and R squared is one. */
  lemma {:induction false} ExactLine(ps: seq<Point>, a: real, b: real)
    requires Weighted(ps) && Fittable(ps)
    requires forall p | p in ps :: p.y == a + b * p.x
    ensures Slope(ps) == b && Intercept(ps) == a && RSquared(ps) == 1.0
  {
    OnTheLine(ps, a, b);
    BestLine(ps, a, b);
    ResidualNonNegative(ps, Intercept(ps), Slope(ps));
    hide Residual, Weight, VarianceX, VarianceY, Slope, MeanX, MeanY, Intercept;
    if VarianceY(ps, MeanY(ps)) > EPSILON { RSquaredUnclamped(ps); }
  }

  /** All samples lie within the span, which the first and the last of them bound. */
  ghost predicate Spans(samples: seq<Sample>, first: Sample, last: Sample) {
    first in samples && last in samples && forall x | x in samples :: first.at <= x.at <= last.at
  }

  lemma {:induction false} EndsBound(xs: seq<Sample>)
    requires xs != [] && SortedBy(xs, NotAfter)
    ensures Spans(xs, xs[0], xs[|xs| - 1])
  {
    var n := |xs| - 1;
    forall i | 0 <= i <= n ensures xs[0].at <= xs[i].at <= xs[n].at {
      assert i > 0 ==> NotAfter(xs[0], xs[i]);
      assert i < n ==> NotAfter(xs[i], xs[n]);
    }
  }

  lemma {:induction false} SameSpan(xs: seq<Sample>, ys: seq<Sample>, first: Sample, last: Sample)
    requires Spans(xs, first, last) && forall x :: x in xs <==> x in ys
    ensures Spans(ys, first, last)
  {
  }

  lemma {:induction false} SortedSpans(samples: seq<Sample>)
    requires samples != []
    ensures var sorted := Sort(samples, NotAfter);
            |sorted| == |samples| && Spans(samples, sorted[0], sorted[|sorted| - 1])
  {
    hide Sort, Spans, SortedBy;
    var sorted := Sort(samples, NotAfter);
    SameElements(sorted, samples);
    SortSorts(samples, NotAfter);
    EndsBound(sorted);
    SameSpan(sorted, samples, sorted[0], sorted[|sorted| - 1]);
  }

  /** The reported span is that of all samples, and points are days since the first of them. */
  lemma {:induction false} ReportedSpan(samples: seq<Sample>) returns (first: Sample, last: Sample)
    requires samples != []
    ensures Spans(samples, first, last)
    ensures Regress(samples).Some? ==> Regress(samples).value.spanDays == Days(last.at - first.at)
    ensures Regress(samples).Some? ==> Regress(samples).value.spanDays * 86400000.0 == (last.at - first.at) as real
    ensures |samples| < 2 || first.at == last.at ==> Regress(samples).None?
    ensures PointsOf(samples) == Normalized(Sort(samples, NotAfter), first.at)
  {
    hide Normalized, Fittable, Slope, RSquared, Sort, Spans;
    SortedSpans(samples);
    var sorted := Sort(samples, NotAfter);
    first, last := sorted[0], sorted[|sorted| - 1];
  }

  lemma {:induction false} NormalizedMember(xs: seq<Sample>, first: int, p: Point)
    ensures p in Normalized(xs, first) <==> exists x | x in xs :: p in One(x, first)
  {
    if xs != [] {
      var front, last := xs[..|xs| - 1], xs[|xs| - 1];
      NormalizedMember(front, first, p);
      assert xs == front + [last];
      hide One;
    }
  }

  /** The point a sample is fitted as: days since the first one, value and weight. */
  predicate FittedAs(x: Sample, first: int, p: Point) {
    x.weight > 0.0 && p.x * 86400000.0 == (x.at - first) as real && p.y == x.value && p.w == x.weight
  }

  lemma {:induction false} OneMeaning(x: Sample, first: int, p: Point)
    ensures p in One(x, first) <==> FittedAs(x, first, p)
  {
  }

  lemma {:induction false} NormalizedMeaning(xs: seq<Sample>, first: int, p: Point)
    ensures p in Normalized(xs, first) <==> exists x | x in xs :: FittedAs(x, first, p)
  {
    NormalizedMember(xs, first, p);
    forall x ensures p in One(x, first) <==> FittedAs(x, first, p) { OneMeaning(x, first, p); }
    hide One, FittedAs, Normalized;
  }

  /** The points fitted are exactly those of the samples with weight, counted from the earliest of all. */
  lemma {:induction false} PointsMeaning(samples: seq<Sample>, first: Sample, p: Point)
    requires first in samples && forall x | x in samples :: first.at <= x.at
    ensures p in PointsOf(samples) <==> exists x | x in samples :: FittedAs(x, first.at, p)
  {
    hide Sort, FittedAs, Normalized;
    var sorted := Sort(samples, NotAfter);
    SortedSpans(samples);
    SameElements(sorted, samples);
    NormalizedMeaning(sorted, first.at, p);
  }

  /** No fit is reported exactly when there are too few samples or points, or too little spread in time. */
  lemma {:induction false} NoFit(samples: seq<Sample>)
    ensures Regress(samples).None? <==>
            || |samples| < 2 || (forall x, y | x in samples && y in samples :: x.at == y.at) || |PointsOf(samples)| < 2
            || (Weight(PointsOf(samples)) > 0.0 &&
                VarianceX(PointsOf(samples), MeanX(PointsOf(samples))) <= 1.0 / 4503599627370496.0)
  {
    if |samples| >= 2 {
      var first, last := ReportedSpan(samples);
      var ps := PointsOf(samples);
      NormalizedWeighted(Sort(samples, NotAfter), first.at);
      WeightPositive(ps);
      hide Normalized, Sort, Weight, VarianceX, Slope, RSquared, PointsOf, Weighted;
      if Regress(samples).None? && first.at != last.at && |ps| >= 2 {
        SpreadDecides(samples, first, last);
      }
    }
  }

  lemma {:induction false} SpreadDecides(samples: seq<Sample>, first: Sample, last: Sample)
    requires |samples| >= 2 && Spans(samples, first, last) && first.at < last.at && |PointsOf(samples)| >= 2
    ensures Regress(samples).Some? <==> Fittable(PointsOf(samples))
  {
    var sorted := Sort(samples, NotAfter);
    SameElements(sorted, samples);
    SortSorts(samples, NotAfter);
    assert first in sorted && last in sorted;
    hide Normalized, Fittable, Slope, RSquared, Sort;
  }
}
