/**
 Half-open millisecond intervals, seen as the sets of instants they cover
 (apps/web/lib/reliability-metrics.ts, reliability-maintenance-metrics.ts).
 */
module Intervals {
  import opened Sets
  import opened Sorting

  datatype Interval = Interval(start: int, end: int)

  function Min(a: int, b: int): int { if a <= b then a else b }

  function Max(a: int, b: int): int { if a >= b then a else b }

  // ---- The instants an interval, or a list of intervals, covers

  predicate Within(t: int, i: Interval) { i.start <= t < i.end }

  function Points(i: Interval): set<int> { set t | i.start <= t < i.end && Within(t, i) }

  function Cover(xs: seq<Interval>): set<int> {
    if xs == [] then {} else Cover(xs[..|xs| - 1]) + Points(xs[|xs| - 1])
  }

  lemma {:induction false} CoverSnoc(xs: seq<Interval>, x: Interval)
    ensures Cover(xs + [x]) == Cover(xs) + Points(x)
  {
    assert (xs + [x])[..|xs|] == xs;
  }

  lemma {:induction false} CoverMember(xs: seq<Interval>, t: int)
    ensures t in Cover(xs) <==> exists i | i in xs :: Within(t, i)
  {
    if xs != [] {
      var front, last := xs[..|xs| - 1], xs[|xs| - 1];
      CoverMember(front, t);
      assert xs == front + [last];
      assert forall i :: i in xs <==> i in front || i == last;
    }
  }

  lemma {:induction false} CoverAppend(xs: seq<Interval>, ys: seq<Interval>)
    ensures Cover(xs + ys) == Cover(xs) + Cover(ys)
  {
    if ys == [] {
      assert xs + ys == xs;
    } else {
      var front, last := ys[..|ys| - 1], ys[|ys| - 1];
      CoverAppend(xs, front);
      assert xs + ys == (xs + front) + [last];
      CoverSnoc(xs + front, last);
    }
  }

  lemma {:induction false} SameCover(xs: seq<Interval>, ys: seq<Interval>)
    requires forall i :: i in xs <==> i in ys
    ensures Cover(xs) == Cover(ys)
  {
    forall t ensures t in Cover(xs) <==> t in Cover(ys) {
      CoverMember(xs, t);
      CoverMember(ys, t);
    }
  }

  // ---- Sizes of sets

  lemma {:induction false} PointsSize(i: Interval)
    requires i.start <= i.end
    ensures |Points(i)| == i.end - i.start
    decreases i.end - i.start
  {
    if i.start < i.end {
      var shorter := Interval(i.start, i.end - 1);
      PointsSize(shorter);
      assert Points(i) == Points(shorter) + {i.end - 1};
    } else {
      assert Points(i) == {};
    }
  }

  // ---- The two interval algorithms

  predicate StartsNoLater(a: Interval, b: Interval) {
    a.start < b.start || (a.start == b.start && a.end <= b.end)
  }

  function Ordered(xs: seq<Interval>): seq<Interval> { Sort(xs, StartsNoLater) }

  ghost predicate StartSorted(xs: seq<Interval>) {
    forall i, j | 0 <= i < j < |xs| :: xs[i].start <= xs[j].start
  }

  lemma {:induction false} SortedPair(xs: seq<Interval>, i: nat, j: nat)
    requires StartSorted(xs) && i < j < |xs|
    ensures xs[i].start <= xs[j].start
  {
  }

  lemma {:induction false} OrderedSorts(xs: seq<Interval>)
    ensures StartSorted(Ordered(xs))
  {
    SortSorts(xs, StartsNoLater);
    var r := Ordered(xs);
    assert forall i, j | 0 <= i < j < |r| :: StartsNoLater(r[i], r[j]);
  }

  lemma {:induction false} OrderedKeeps(xs: seq<Interval>)
    ensures forall i :: i in Ordered(xs) <==> i in xs
    ensures |Ordered(xs)| == |xs|
    ensures Cover(Ordered(xs)) == Cover(xs)
  {
    SameElements(Ordered(xs), xs);
    SameCover(Ordered(xs), xs);
  }

  ghost predicate Proper(xs: seq<Interval>) { forall i | i in xs :: i.start <= i.end }

  /** `visited` covers `closed`, which is `milliseconds` long and lies before `current`, and `current`. */
  ghost predicate Swept(visited: seq<Interval>, closed: set<int>, milliseconds: int, current: Interval) {
    && Cover(visited) == closed + Points(current)
    && |closed| == milliseconds
    && (forall t | t in closed :: t < current.start)
    && current.start <= current.end
  }

  lemma {:induction false} PointsJoin(a: Interval, b: Interval)
    requires a.start <= b.start <= a.end && b.start <= b.end
    ensures Points(Interval(a.start, Max(a.end, b.end))) == Points(a) + Points(b)
  {
  }

  lemma {:induction false} SweepStart(first: Interval)
    requires first.start <= first.end
    ensures Swept([first], {}, 0, first)
  {
    assert [first] == [] + [first];
    CoverSnoc([], first);
  }

  lemma {:induction false} SweepJoin(visited: seq<Interval>, closed: set<int>, milliseconds: int, a: Interval,
                                     b: Interval)
    requires Swept(visited, closed, milliseconds, a)
    requires a.start <= b.start <= a.end && b.start <= b.end
    ensures Swept(visited + [b], closed, milliseconds, Interval(a.start, Max(a.end, b.end)))
  {
    CoverSnoc(visited, b);
    PointsJoin(a, b);
  }

  lemma {:induction false} SweepNext(visited: seq<Interval>, closed: set<int>, milliseconds: int, current: Interval,
                                     next: Interval)
    requires Swept(visited, closed, milliseconds, current)
    requires current.end < next.start <= next.end
    ensures Swept(visited + [next], Cover(visited), milliseconds + current.end - current.start, next)
  {
    SweepClose(visited, closed, milliseconds, current);
    CoverSnoc(visited, next);
  }

  lemma {:induction false} SweepClose(visited: seq<Interval>, closed: set<int>, milliseconds: int, current: Interval)
    requires Swept(visited, closed, milliseconds, current)
    ensures |Cover(visited)| == milliseconds + current.end - current.start
    ensures forall t | t in Cover(visited) :: t < current.end
  {
    PointsSize(current);
    UnionSize(closed, Points(current));
  }

  lemma {:induction false} SweepFinish(intervals: seq<Interval>)
    ensures Ordered(intervals) == [] ==> |Cover(intervals)| == 0
    ensures Cover(Ordered(intervals)) == Cover(intervals)
    ensures Proper(intervals) ==> Proper(Ordered(intervals))
    ensures StartSorted(Ordered(intervals))
  {
    OrderedKeeps(intervals);
    OrderedSorts(intervals);
  }

  lemma {:induction false} ProperAt(xs: seq<Interval>, k: nat)
    requires k < |xs| && Proper(xs)
    ensures xs[k].start <= xs[k].end
  {
  }

  /** The sweep: whole seconds of the union's exact length. */
  method UnionSeconds(intervals: seq<Interval>) returns (seconds: int)
    ensures Proper(intervals) ==> seconds == |Cover(intervals)| / 1000
  {
    hide Swept, Cover, Points, Proper, StartSorted, Ordered;
    var sorted := Ordered(intervals);
    SweepFinish(intervals);
    if |sorted| == 0 { return 0; }
    ghost var proper := Proper(sorted);
    var current := sorted[0];
    var milliseconds := 0;
    ghost var closed: set<int> := {};
    assert sorted[..1] == [current];
    if proper { ProperAt(sorted, 0); SweepStart(current); }
    var k := 1;
    while k < |sorted|
      invariant 1 <= k <= |sorted|
      invariant current.start <= sorted[k - 1].start
      invariant proper ==> Swept(sorted[..k], closed, milliseconds, current)
    {
      var interval := sorted[k];
      assert sorted[..k + 1] == sorted[..k] + [interval];
      SortedPair(sorted, k - 1, k);
      if proper { ProperAt(sorted, k); }
      if interval.start <= current.end {
        if proper { SweepJoin(sorted[..k], closed, milliseconds, current, interval); }
        current := Interval(current.start, Max(current.end, interval.end));
      } else {
        if proper { SweepNext(sorted[..k], closed, milliseconds, current, interval); }
        closed := Cover(sorted[..k]);
        milliseconds := milliseconds + (current.end - current.start);
        current := interval;
      }
      k := k + 1;
    }
    assert sorted[..k] == sorted;
    if proper { SweepClose(sorted, closed, milliseconds, current); }
    seconds := (milliseconds + current.end - current.start) / 1000;
  }

  function Clip(source: Interval, i: Interval): Interval {
    Interval(Max(source.start, i.start), Min(source.end, i.end))
  }

  function NonEmpty(xs: seq<Interval>): (r: seq<Interval>)
    ensures forall i | i in r :: i in xs && i.start < i.end
    ensures (forall i | i in xs :: i.start < i.end) ==> r == xs
  {
    if xs == [] then [] else
      assert xs == [xs[0]] + xs[1..];
      (if xs[0].start < xs[0].end then [xs[0]] else []) + NonEmpty(xs[1..])
  }

  function ClipAll(source: Interval, xs: seq<Interval>): seq<Interval> {
    if xs == [] then [] else ClipAll(source, xs[..|xs| - 1]) + NonEmpty([Clip(source, xs[|xs| - 1])])
  }

  lemma {:induction false} ClipPoints(source: Interval, i: Interval)
    ensures Cover(NonEmpty([Clip(source, i)])) == Points(source) * Points(i)
  {
    var c := Clip(source, i);
    assert Points(c) == Points(source) * Points(i);
    if c.start < c.end {
      assert NonEmpty([c]) == [c] == [] + [c];
      CoverSnoc([], c);
    } else {
      assert NonEmpty([c]) == [];
    }
  }

  lemma {:induction false} ClipAllCover(source: Interval, xs: seq<Interval>)
    ensures Cover(ClipAll(source, xs)) == Points(source) * Cover(xs)
    ensures forall i | i in ClipAll(source, xs) :: source.start <= i.start < i.end <= source.end
  {
    if xs != [] {
      var front, last := xs[..|xs| - 1], Clip(source, xs[|xs| - 1]);
      ClipAllCover(source, front);
      CoverAppend(ClipAll(source, front), NonEmpty([last]));
      ClipPoints(source, xs[|xs| - 1]);
    }
  }

  /** Members come in order and consecutive ones do not even touch. */
  ghost predicate Separated(xs: seq<Interval>) {
    forall i, j | 0 <= i < j < |xs| :: xs[i].end < xs[j].start
  }

  lemma {:induction false} FreeBefore(sorted: seq<Interval>, k: nat, cursor: int, stop: int)
    requires k <= |sorted| && StartSorted(sorted)
    requires forall j | 0 <= j < k :: sorted[j].end <= cursor
    requires k < |sorted| ==> stop <= sorted[k].start
    ensures Points(Interval(cursor, stop)) !! Cover(sorted)
  {
    forall t | t in Points(Interval(cursor, stop)) ensures t !in Cover(sorted) {
      CoverMember(sorted, t);
    }
  }

  lemma {:induction false} PartCovered(xs: seq<Interval>, k: nat, from: int, to: int)
    requires k < |xs| && xs[k].start <= from && to <= xs[k].end
    ensures Points(Interval(from, to)) <= Cover(xs)
  {
    forall t | t in Points(Interval(from, to)) ensures t in Cover(xs) {
      CoverMember(xs, t);
      assert xs[k] in xs && Within(t, xs[k]);
    }
  }

  /** `rest` covers exactly the part of [`start`, `cursor`) that `exclusions` leaves. */
  ghost predicate Scanned(start: int, cursor: int, exclusions: seq<Interval>, rest: seq<Interval>) {
    && start <= cursor
    && Cover(rest) == Points(Interval(start, cursor)) - Cover(exclusions)
  }

  lemma {:induction false} ScanGap(start: int, cursor: int, stop: int, exclusions: seq<Interval>, rest: seq<Interval>)
    requires Scanned(start, cursor, exclusions, rest) && cursor <= stop
    requires Points(Interval(cursor, stop)) !! Cover(exclusions)
    ensures Scanned(start, stop, exclusions, rest + [Interval(cursor, stop)])
  {
    CoverSnoc(rest, Interval(cursor, stop));
    assert Points(Interval(start, stop)) == Points(Interval(start, cursor)) + Points(Interval(cursor, stop));
  }

  lemma {:induction false} ScanExcluded(start: int, cursor: int, stop: int, exclusions: seq<Interval>,
                                        rest: seq<Interval>)
    requires Scanned(start, cursor, exclusions, rest) && cursor <= stop
    requires Points(Interval(cursor, stop)) <= Cover(exclusions)
    ensures Scanned(start, stop, exclusions, rest)
  {
    assert Points(Interval(start, stop)) == Points(Interval(start, cursor)) + Points(Interval(cursor, stop));
  }

  /** Non-empty, separated members inside [`start`, `stop`], the last ending before `limit`. */
  ghost predicate Laid(rest: seq<Interval>, start: int, stop: int, limit: int) {
    && Separated(rest)
    && (forall i | i in rest :: start <= i.start < i.end <= stop)
    && (rest != [] ==> rest[|rest| - 1].end < limit)
  }

  lemma {:induction false} ScanStart(source: Interval, exclusions: seq<Interval>)
    ensures Laid([], source.start, source.end, source.start)
    ensures Scanned(source.start, source.start, exclusions, [])
  {
  }

  lemma {:induction false} LayNext(rest: seq<Interval>, start: int, stop: int, limit: int, i: Interval)
    requires Laid(rest, start, stop, limit) && limit <= i.start && start <= i.start < i.end <= stop
    ensures Laid(rest + [i], start, stop, i.end + 1)
  {
    assert forall k | 0 <= k < |rest| :: rest[k] in rest && rest[k].end <= rest[|rest| - 1].end by {
      forall k | 0 <= k < |rest| ensures rest[k].end <= rest[|rest| - 1].end {
        assert rest[|rest| - 1] in rest;
      }
    }
  }

  /** A finished scan of the ordered, clipped exclusions is what the subtraction promises. */
  lemma {:induction false} ScanComplete(source: Interval, exclusions: seq<Interval>, rest: seq<Interval>, limit: int)
    requires Scanned(source.start, source.end, Ordered(ClipAll(source, exclusions)), rest)
    requires Laid(rest, source.start, source.end, limit)
    ensures Separated(rest) && forall i | i in rest :: source.start <= i.start < i.end <= source.end
    ensures Cover(rest) == Points(source) - Cover(exclusions)
  {
    OrderedKeeps(ClipAll(source, exclusions));
    ClipAllCover(source, exclusions);
    assert source == Interval(source.start, source.end);
  }

  lemma {:induction false} ClippedInside(source: Interval, exclusions: seq<Interval>, k: nat)
    requires k < |Ordered(ClipAll(source, exclusions))|
    ensures var i := Ordered(ClipAll(source, exclusions))[k];
            source.start <= i.start < i.end <= source.end
  {
    OrderedKeeps(ClipAll(source, exclusions));
    ClipAllCover(source, exclusions);
  }

  lemma {:induction false} NothingToScan(source: Interval, exclusions: seq<Interval>)
    requires Ordered(ClipAll(source, exclusions)) == []
    ensures Cover([source]) == Points(source) - Cover(exclusions) && Separated([source])
  {
    OrderedKeeps(ClipAll(source, exclusions));
    ClipAllCover(source, exclusions);
    CoverSnoc([], source);
    assert [source] == [] + [source];
  }

  /** The cursor scan: exact set difference, in order and never overlapping. */
  method SubtractIntervals(source: Interval, exclusions: seq<Interval>) returns (rest: seq<Interval>)
    ensures Cover(rest) == Points(source) - Cover(exclusions)
    ensures Separated(rest)
    ensures source.start < source.end ==> forall i | i in rest :: source.start <= i.start < i.end <= source.end
  {
    hide Scanned, Laid, Cover, Points, Ordered, ClipAll, StartSorted, NonEmpty, Separated;
    var clipped := Ordered(ClipAll(source, exclusions));
    assert StartSorted(clipped) by { OrderedSorts(ClipAll(source, exclusions)); }
    if |clipped| == 0 {
      NothingToScan(source, exclusions);
      return [source];
    }
    ClippedInside(source, exclusions, 0);
    rest := [];
    var cursor := source.start;
    ghost var limit := cursor;
    ScanStart(source, clipped);
    var k := 0;
    while k < |clipped|
      invariant 0 <= k <= |clipped|
      invariant source.start <= cursor <= source.end
      invariant limit <= cursor && Laid(rest, source.start, source.end, limit)
      invariant Scanned(source.start, cursor, clipped, rest)
      invariant forall j | 0 <= j < k :: clipped[j].end <= cursor
    {
      var exclusion := clipped[k];
      ClippedInside(source, exclusions, k);
      k := k + 1;
      if exclusion.end <= cursor { continue; }
      ghost var reached := cursor;
      if exclusion.start > cursor {
        var gap := Interval(cursor, Min(exclusion.start, source.end));
        FreeBefore(clipped, k - 1, cursor, gap.end);
        ScanGap(source.start, cursor, gap.end, clipped, rest);
        LayNext(rest, source.start, source.end, limit, gap);
        rest := rest + [gap];
        reached, limit := gap.end, gap.end + 1;
      }
      cursor := Max(cursor, exclusion.end);
      PartCovered(clipped, k - 1, reached, cursor);
      ScanExcluded(source.start, reached, cursor, clipped, rest);
      if cursor >= source.end { break; }
    }
    if cursor < source.end {
      FreeBefore(clipped, k, cursor, source.end);
      ScanGap(source.start, cursor, source.end, clipped, rest);
      LayNext(rest, source.start, source.end, limit, Interval(cursor, source.end));
      rest := rest + [Interval(cursor, source.end)];
      limit := source.end + 1;
    }
    ScanComplete(source, exclusions, rest, limit);
    rest := NonEmpty(rest);
  }
}
