/**
 Coalescing of chart regions with a one-second tolerance
 (apps/web/lib/history-status-overlays.ts). A key stands for the four fields two
 regions must share to merge, `keyLe` for the order `localeCompare` puts them in.
 */
module RegionMerge {
  import opened Sorting
  import opened Intervals

  datatype Region<K> = Region(key: K, start: int, end: int)

  const TOLERANCE_MS := 1_000

  ghost predicate TotalOrder<K(!new)>(le: (K, K) -> bool) {
    && TotalPreorder(le)
    && forall a, b :: le(a, b) && le(b, a) ==> a == b
  }

  predicate Precedes<K(==)>(keyLe: (K, K) -> bool, a: Region<K>, b: Region<K>) {
    if a.key != b.key then keyLe(a.key, b.key) else a.start <= b.start
  }

  function ByKey<K(==)>(regions: seq<Region<K>>, keyLe: (K, K) -> bool): seq<Region<K>> {
    Sort(regions, (a: Region<K>, b: Region<K>) => Precedes(keyLe, a, b))
  }

  function ByStart<K>(regions: seq<Region<K>>): seq<Region<K>> {
    Sort(regions, (a: Region<K>, b: Region<K>) => a.start <= b.start)
  }

  predicate Joins<K(==)>(previous: Region<K>, r: Region<K>) {
    previous.key == r.key && r.start <= previous.end + TOLERANCE_MS
  }

  function AddRegion<K(==)>(merged: seq<Region<K>>, r: Region<K>): seq<Region<K>> {
    if merged != [] && Joins(merged[|merged| - 1], r) then
      var n := |merged| - 1;
      merged[n := merged[n].(end := Max(merged[n].end, r.end))]
    else merged + [r]
  }

  function Coalesce<K(==)>(sorted: seq<Region<K>>): seq<Region<K>> {
    if sorted == [] then [] else AddRegion(Coalesce(sorted[..|sorted| - 1]), sorted[|sorted| - 1])
  }

  function Merged<K(==)>(regions: seq<Region<K>>, keyLe: (K, K) -> bool): seq<Region<K>> {
    ByStart(Coalesce(ByKey(regions, keyLe)))
  }

  method MergeRegions<K(==)>(regions: seq<Region<K>>, keyLe: (K, K) -> bool) returns (r: seq<Region<K>>)
    ensures r == Merged(regions, keyLe)
  {
    var sorted := ByKey(regions, keyLe);
    var merged: seq<Region<K>> := [];
    var k := 0;
    while k < |sorted|
      invariant 0 <= k <= |sorted|
      invariant merged == Coalesce(sorted[..k])
    {
      var region := sorted[k];
      assert sorted[..k + 1][..k] == sorted[..k];
      k := k + 1;
      if merged != [] {
        var n := |merged| - 1;
        var previous := merged[n];
        if previous.key == region.key && region.start <= previous.end + TOLERANCE_MS {
          merged := merged[n := previous.(end := Max(previous.end, region.end))];
          continue;
        }
      }
      merged := merged + [region];
    }
    assert sorted[..k] == sorted;
    return ByStart(merged);
  }

  // ---- What merging keeps

  ghost predicate Proper<K>(rs: seq<Region<K>>) { forall r | r in rs :: r.start <= r.end }

  predicate Contains<K>(r: Region<K>, t: int) { r.start <= t < r.end }

  /** `o` starts and ends where some inputs of its key do. */
  ghost predicate Bounded<K(!new)>(rs: seq<Region<K>>, o: Region<K>) {
    && (exists a | a in rs :: a.key == o.key && a.start == o.start)
    && (exists b | b in rs :: b.key == o.key && b.end == o.end)
  }

  /** Some output covers the whole of input `r`. */
  ghost predicate Absorbed<K(!new)>(out: seq<Region<K>>, r: Region<K>) {
    exists o | o in out :: o.key == r.key && o.start <= r.start && r.end <= o.end
  }

  /** `t` is in an input of the key, or in a gap of at most a second between two. */
  ghost predicate Justified<K(!new)>(rs: seq<Region<K>>, key: K, t: int) {
    || (exists r | r in rs :: r.key == key && Contains(r, t))
    || (exists a, b | a in rs && b in rs ::
          a.key == key && b.key == key && a.end <= t < b.start && b.start - a.end <= 1_000)
  }

  /** Regions of one key are more than a second apart. */
  ghost predicate Apart<K>(rs: seq<Region<K>>) {
    forall i, j | 0 <= i < |rs| && 0 <= j < |rs| && i != j && rs[i].key == rs[j].key ::
      rs[i].end + 1_000 < rs[j].start || rs[j].end + 1_000 < rs[i].start
  }

  ghost predicate Faithful<K(!new)>(rs: seq<Region<K>>, out: seq<Region<K>>) {
    && Proper(out)
    && (forall o | o in out :: Bounded(rs, o))
    && (forall r | r in rs :: Absorbed(out, r))
    && (forall o, t | o in out && Contains(o, t) :: Justified(rs, o.key, t))
  }

  ghost predicate KeySorted<K(!new)>(rs: seq<Region<K>>, keyLe: (K, K) -> bool) {
    forall i, j | 0 <= i < j < |rs| :: Precedes(keyLe, rs[i], rs[j])
  }

  lemma {:induction false} MoreInputs<K(!new)>(rs: seq<Region<K>>, r: Region<K>, o: Region<K>, t: int)
    ensures Bounded(rs, o) ==> Bounded(rs + [r], o)
    ensures Justified(rs, o.key, t) ==> Justified(rs + [r], o.key, t)
  {
    assert forall x | x in rs :: x in rs + [r];
  }

  lemma {:induction false} AddPushed<K(!new)>(rs: seq<Region<K>>, out: seq<Region<K>>, r: Region<K>)
    requires Faithful(rs, out) && r.start <= r.end
    ensures Faithful(rs + [r], out + [r])
  {
    hide Bounded, Justified;
    var rs', out' := rs + [r], out + [r];
    assert r in rs';
    forall o | o in out' ensures Bounded(rs', o) {
      if o in out { MoreInputs(rs, r, o, 0); } else { BoundedBySelf(rs', r); }
    }
    forall x | x in rs' ensures Absorbed(out', x) {
      if x in rs {
        var o :| o in out && o.key == x.key && o.start <= x.start && x.end <= o.end;
        assert o in out';
      } else {
        assert r in out';
      }
    }
    forall o, t | o in out' && Contains(o, t) ensures Justified(rs', o.key, t) {
      if o in out { MoreInputs(rs, r, o, t); } else { JustifiedBySelf(rs', r, t); }
    }
  }

  lemma {:induction false} BoundedBySelf<K(!new)>(rs: seq<Region<K>>, r: Region<K>)
    requires r in rs
    ensures Bounded(rs, r)
  {
  }

  lemma {:induction false} JustifiedBySelf<K(!new)>(rs: seq<Region<K>>, r: Region<K>, t: int)
    requires r in rs && Contains(r, t)
    ensures Justified(rs, r.key, t)
  {
  }

  lemma {:induction false} AddExtended<K(!new)>(rs: seq<Region<K>>, front: seq<Region<K>>, p: Region<K>, r: Region<K>)
    requires Faithful(rs, front + [p]) && r.start <= r.end
    requires Joins(p, r) && p.start <= r.start
    ensures Faithful(rs + [r], front + [p.(end := Max(p.end, r.end))])
  {
    hide Bounded, Justified;
    var rs', q := rs + [r], p.(end := Max(p.end, r.end));
    var out, out' := front + [p], front + [q];
    assert p in out && q in out' && r in rs';
    assert forall o | o in front :: o in out;
    forall o | o in out' ensures Bounded(rs', o) {
      if o in front { MoreInputs(rs, r, o, 0); } else { BoundedJoin(rs, p, r); }
    }
    forall x | x in rs' ensures Absorbed(out', x) {
      if x in rs {
        var o :| o in out && o.key == x.key && o.start <= x.start && x.end <= o.end;
        if o in front { assert o in out'; } else { assert o == p; }
      }
    }
    forall o, t | o in out' && Contains(o, t) ensures Justified(rs', o.key, t) {
      if o in front || (o == q && t < p.end) {
        if o in front { MoreInputs(rs, r, o, t); } else { assert Contains(p, t); MoreInputs(rs, r, p, t); }
      } else if r.start <= t {
        JustifiedBySelf(rs', r, t);
      } else {
        JustifiedGap(rs, p, r, t);
      }
    }
  }

  lemma {:induction false} BoundedJoin<K(!new)>(rs: seq<Region<K>>, p: Region<K>, r: Region<K>)
    requires Bounded(rs, p) && p.key == r.key
    ensures Bounded(rs + [r], p.(end := Max(p.end, r.end)))
  {
    var a :| a in rs && a.key == p.key && a.start == p.start;
    var b :| b in rs && b.key == p.key && b.end == p.end;
    assert a in rs + [r] && b in rs + [r] && r in rs + [r];
  }

  lemma {:induction false} JustifiedGap<K(!new)>(rs: seq<Region<K>>, p: Region<K>, r: Region<K>, t: int)
    requires Bounded(rs, p) && Joins(p, r) && p.end <= t < r.start
    ensures Justified(rs + [r], p.key, t)
  {
    var b :| b in rs && b.key == p.key && b.end == p.end;
    assert b in rs + [r] && r in rs + [r];
  }

  ghost predicate KeyOrdered<K(!new)>(out: seq<Region<K>>, keyLe: (K, K) -> bool) {
    forall i, j | 0 <= i < j < |out| :: keyLe(out[i].key, out[j].key)
  }

  /** Regions of one key come in order, more than a second apart. */
  ghost predicate Spaced<K>(out: seq<Region<K>>) {
    forall i, j | 0 <= i < j < |out| && out[i].key == out[j].key :: out[i].end + 1_000 < out[j].start
  }

  lemma {:induction false} NextKey<K(!new)>(sorted: seq<Region<K>>, keyLe: (K, K) -> bool, n: nat)
    requires TotalOrder(keyLe) && KeySorted(sorted, keyLe) && 0 < n < |sorted|
    ensures keyLe(sorted[n - 1].key, sorted[n].key)
  {
    assert Precedes(keyLe, sorted[n - 1], sorted[n]);
  }

  lemma {:induction false} AddKeepsOrder<K(!new)>(out: seq<Region<K>>, r: Region<K>, keyLe: (K, K) -> bool)
    requires TotalOrder(keyLe) && KeyOrdered(out, keyLe)
    requires out != [] ==> keyLe(out[|out| - 1].key, r.key)
    ensures var out' := AddRegion(out, r);
            KeyOrdered(out', keyLe) && out' != [] && out'[|out'| - 1].key == r.key
  {
  }

  lemma {:induction false} AddKeepsSpaced<K(!new)>(out: seq<Region<K>>, r: Region<K>, keyLe: (K, K) -> bool)
    requires TotalOrder(keyLe) && KeyOrdered(out, keyLe) && Spaced(out) && Proper(out)
    requires out != [] ==> keyLe(out[|out| - 1].key, r.key)
    ensures Spaced(AddRegion(out, r))
  {
    var out', n := AddRegion(out, r), |out| - 1;
    if out != [] && !Joins(out[n], r) {
      forall i | 0 <= i < |out| && out[i].key == r.key ensures out[i].end + TOLERANCE_MS < r.start {
        assert i < n ==> keyLe(out[i].key, out[n].key);
        assert out[n].key == r.key && out[n] in out;
      }
    }
  }

  lemma {:induction false} CoalesceOrdered<K(!new)>(sorted: seq<Region<K>>, keyLe: (K, K) -> bool)
    requires TotalOrder(keyLe) && KeySorted(sorted, keyLe)
    ensures var out := Coalesce(sorted);
            KeyOrdered(out, keyLe) && (sorted != [] ==> out != [] && out[|out| - 1].key == sorted[|sorted| - 1].key)
  {
    if sorted != [] {
      var n, r := |sorted| - 1, sorted[|sorted| - 1];
      CoalesceOrdered(sorted[..n], keyLe);
      if n > 0 { NextKey(sorted, keyLe, n); }
      AddKeepsOrder(Coalesce(sorted[..n]), r, keyLe);
    }
  }

  lemma {:induction false} AddFaithful<K(!new)>(rs: seq<Region<K>>, out: seq<Region<K>>, r: Region<K>)
    requires Faithful(rs, out) && r.start <= r.end
    requires forall o | o in out && o.key == r.key :: o.start <= r.start
    ensures Faithful(rs + [r], AddRegion(out, r))
  {
    hide Faithful;
    if out != [] && Joins(out[|out| - 1], r) {
      var front, p := out[..|out| - 1], out[|out| - 1];
      assert out == front + [p] && p in out;
      AddExtended(rs, front, p, r);
      assert AddRegion(out, r) == front + [p.(end := Max(p.end, r.end))];
    } else {
      AddPushed(rs, out, r);
    }
  }

  lemma {:induction false} CoalesceStep<K(!new)>(front: seq<Region<K>>, r: Region<K>, keyLe: (K, K) -> bool)
    requires TotalOrder(keyLe) && KeySorted(front + [r], keyLe) && KeySorted(front, keyLe) && Proper(front + [r])
    requires Faithful(front, Coalesce(front)) && Spaced(Coalesce(front))
    ensures Faithful(front + [r], AddRegion(Coalesce(front), r)) && Spaced(AddRegion(Coalesce(front), r))
  {
    hide Faithful, Spaced, AddRegion, KeyOrdered, TotalOrder, Coalesce, KeySorted;
    var sorted, out := front + [r], Coalesce(front);
    assert r.start <= r.end by { assert r in sorted; }
    hide Proper;
    CoalesceOrdered(front, keyLe);
    LastStart(front, out, keyLe, r);
    AddFaithful(front, out, r);
    if front != [] {
      NextKey(sorted, keyLe, |front|);
      assert sorted[|front|] == r && sorted[|front| - 1] == front[|front| - 1];
    } else {
      EmptyCoalesce<K>();
    }
    AddKeepsSpaced(out, r, keyLe);
  }

  lemma {:induction false} EmptyCoalesce<K(!new)>()
    ensures Coalesce<K>([]) == []
  {
  }

  lemma {:induction false} PrefixSorted<K(!new)>(sorted: seq<Region<K>>, keyLe: (K, K) -> bool, n: nat)
    requires KeySorted(sorted, keyLe) && Proper(sorted) && n <= |sorted|
    ensures KeySorted(sorted[..n], keyLe) && Proper(sorted[..n])
  {
  }

  lemma {:induction false} CoalesceFaithful<K(!new)>(sorted: seq<Region<K>>, keyLe: (K, K) -> bool)
    requires TotalOrder(keyLe) && KeySorted(sorted, keyLe) && Proper(sorted)
    ensures Faithful(sorted, Coalesce(sorted)) && Spaced(Coalesce(sorted))
  {
    hide Faithful, Spaced, AddRegion, KeySorted, Proper, TotalOrder;
    if sorted != [] {
      var n, r := |sorted| - 1, sorted[|sorted| - 1];
      assert sorted == sorted[..n] + [r];
      PrefixSorted(sorted, keyLe, n);
      CoalesceFaithful(sorted[..n], keyLe);
      CoalesceStep(sorted[..n], r, keyLe);
    } else {
      EmptyFaithful<K>();
    }
  }

  lemma {:induction false} EmptyFaithful<K(!new)>()
    ensures Faithful<K>([], []) && Spaced<K>([])
  {
  }

  /** The last output of the prefix starts no later than the next region of its key. */
  lemma {:induction false} LastStart<K(!new)>(front: seq<Region<K>>, out: seq<Region<K>>, keyLe: (K, K) -> bool,
                                       r: Region<K>)
    requires KeySorted(front + [r], keyLe) && Faithful(front, out)
    ensures forall o | o in out && o.key == r.key :: o.start <= r.start
    ensures Proper(out)
  {
    var all := front + [r];
    forall o | o in out && o.key == r.key ensures o.start <= r.start {
      assert Bounded(front, o);
      var a :| a in front && a.key == o.key && a.start == o.start;
      var i :| 0 <= i < |front| && front[i] == a;
      assert all[i] == a && all[|front|] == r && Precedes(keyLe, all[i], all[|front|]);
    }
  }

  // ---- Permutations

  lemma {:induction false} TwoPlaces<T>(xs: seq<T>, x: T) returns (i: int, j: int)
    requires multiset(xs)[x] >= 2
    ensures 0 <= i < j < |xs| && xs[i] == x && xs[j] == x
  {
    var front, last := xs[..|xs| - 1], xs[|xs| - 1];
    assert xs == front + [last];
    if last == x {
      assert x in multiset(front);
      i :| 0 <= i < |front| && front[i] == x;
      j := |front|;
    } else {
      i, j := TwoPlaces(front, x);
    }
  }

  lemma {:induction false} TwoSame<T>(ys: seq<T>, i: nat, j: nat)
    requires i < j < |ys| && ys[i] == ys[j]
    ensures multiset(ys)[ys[i]] >= 2
  {
    assert ys == ys[..i] + [ys[i]] + ys[i + 1..j] + [ys[j]] + ys[j + 1..];
  }

  /** Regions of one key that keep apart and are not reversed never repeat. */
  lemma {:induction false} ApartOnce<K(!new)>(xs: seq<Region<K>>, x: Region<K>)
    requires Apart(xs) && Proper(xs)
    ensures multiset(xs)[x] <= 1
  {
    if multiset(xs)[x] >= 2 {
      var a, b := TwoPlaces(xs, x);
      assert false;
    }
  }

  lemma {:induction false} ApartPermutes<K(!new)>(xs: seq<Region<K>>, ys: seq<Region<K>>)
    requires Apart(xs) && Proper(xs) && multiset(xs) == multiset(ys)
    ensures Apart(ys) && Proper(ys)
  {
    SameElements(xs, ys);
    forall i, j | 0 <= i < |ys| && 0 <= j < |ys| && i != j && ys[i].key == ys[j].key
      ensures ys[i].end + TOLERANCE_MS < ys[j].start || ys[j].end + TOLERANCE_MS < ys[i].start
    {
      ApartOnce(xs, ys[i]);
      if ys[i] == ys[j] {
        TwoSame(ys, if i < j then i else j, if i < j then j else i);
        assert false;
      } else {
        assert ys[i] in ys && ys[j] in ys;
        var a :| 0 <= a < |xs| && xs[a] == ys[i];
        var b :| 0 <= b < |xs| && xs[b] == ys[j];
      }
    }
  }

  lemma {:induction false} FaithfulPermutes<K(!new)>(rs: seq<Region<K>>, rs': seq<Region<K>>, out: seq<Region<K>>,
                                              out': seq<Region<K>>)
    requires Faithful(rs, out)
    requires forall r :: r in rs <==> r in rs'
    requires forall r :: r in out <==> r in out'
    ensures Faithful(rs', out')
  {
    hide Absorbed, Bounded, Justified, Contains;
    forall o | o in out' ensures Bounded(rs', o) { SameBounded(rs, rs', o); }
    forall r | r in rs' ensures Absorbed(out', r) { SameAbsorbed(out, out', r); }
    forall o, t | o in out' && Contains(o, t) ensures Justified(rs', o.key, t) { SameJustified(rs, rs', o.key, t); }
  }

  lemma {:induction false} SameBounded<K(!new)>(rs: seq<Region<K>>, rs': seq<Region<K>>, o: Region<K>)
    requires Bounded(rs, o) && forall r :: r in rs <==> r in rs'
    ensures Bounded(rs', o)
  {
  }

  lemma {:induction false} SameAbsorbed<K(!new)>(out: seq<Region<K>>, out': seq<Region<K>>, r: Region<K>)
    requires Absorbed(out, r) && forall o :: o in out <==> o in out'
    ensures Absorbed(out', r)
  {
  }

  lemma {:induction false} SameJustified<K(!new)>(rs: seq<Region<K>>, rs': seq<Region<K>>, key: K, t: int)
    requires Justified(rs, key, t) && forall r :: r in rs <==> r in rs'
    ensures Justified(rs', key, t)
  {
  }

  lemma {:induction false} SpacedIsApart<K(!new)>(out: seq<Region<K>>)
    requires Spaced(out)
    ensures Apart(out)
  {
  }

  lemma {:induction false} ByKeySorts<K(!new)>(regions: seq<Region<K>>, keyLe: (K, K) -> bool)
    requires TotalOrder(keyLe)
    ensures KeySorted(ByKey(regions, keyLe), keyLe)
    ensures multiset(ByKey(regions, keyLe)) == multiset(regions)
  {
    var le := (a: Region<K>, b: Region<K>) => Precedes(keyLe, a, b);
    SortSorts(regions, le);
    var s := ByKey(regions, keyLe);
    assert forall i, j | 0 <= i < j < |s| :: le(s[i], s[j]);
  }

  /**
   Merging covers every region, adds only gaps of at most a second, and leaves
   regions of one key more than a second apart.
   */
  lemma {:induction false} MergeKeeps<K(!new)>(regions: seq<Region<K>>, keyLe: (K, K) -> bool)
    requires TotalOrder(keyLe) && Proper(regions)
    ensures Faithful(regions, Merged(regions, keyLe))
    ensures Apart(Merged(regions, keyLe))
  {
    hide Faithful, Spaced, KeySorted, Coalesce, Apart;
    var sorted := ByKey(regions, keyLe);
    var out := Coalesce(sorted);
    ByKeySorts(regions, keyLe);
    assert forall r :: r in sorted <==> r in regions by { SameElements(sorted, regions); }
    CoalesceFaithful(sorted, keyLe);
    SpacedIsApart(out);
    ProperOutputs(sorted, out);
    ApartPermutes(out, ByStart(out));
    assert forall r :: r in out <==> r in ByStart(out) by { SameElements(ByStart(out), out); }
    FaithfulPermutes(sorted, regions, out, ByStart(out));
  }

  /** Merged regions come by start, those that start together by key. */
  lemma {:induction false} MergedInOrder<K(!new)>(regions: seq<Region<K>>, keyLe: (K, K) -> bool)
    requires TotalOrder(keyLe)
    ensures var out := Merged(regions, keyLe);
            forall i, j | 0 <= i < j < |out| ::
              out[i].start < out[j].start || (out[i].start == out[j].start && keyLe(out[i].key, out[j].key))
  {
    ByKeySorts(regions, keyLe);
    CoalesceOrdered(ByKey(regions, keyLe), keyLe);
    var merged := Coalesce(ByKey(regions, keyLe));
    var le := (a: Region<K>, b: Region<K>) => a.start <= b.start;
    var ties := (a: Region<K>, b: Region<K>) => keyLe(a.key, b.key);
    assert SortedBy(merged, ties);
    SortKeepsTies(merged, le, ties);
    var out := ByStart(merged);
    assert forall i, j | 0 <= i < j < |out| :: le(out[i], out[j]) && (le(out[j], out[i]) ==> ties(out[i], out[j]));
  }

  lemma {:induction false} ProperOutputs<K(!new)>(rs: seq<Region<K>>, out: seq<Region<K>>)
    requires Faithful(rs, out)
    ensures Proper(out)
  {
  }

  lemma {:induction false} NeighboursApart<K(!new)>(sorted: seq<Region<K>>, keyLe: (K, K) -> bool, n: nat)
    requires 0 < n < |sorted|
    requires KeySorted(sorted, keyLe) && Apart(sorted) && Proper(sorted)
    ensures !Joins(sorted[n - 1], sorted[n])
  {
    assert Precedes(keyLe, sorted[n - 1], sorted[n]);
    assert sorted[n] in sorted && sorted[n - 1] in sorted;
  }

  lemma {:induction false} CoalesceApart<K(!new)>(sorted: seq<Region<K>>, keyLe: (K, K) -> bool)
    requires KeySorted(sorted, keyLe) && Apart(sorted) && Proper(sorted)
    ensures Coalesce(sorted) == sorted
  {
    if sorted != [] {
      var n, r := |sorted| - 1, sorted[|sorted| - 1];
      assert sorted == sorted[..n] + [r];
      CoalesceApart(sorted[..n], keyLe);
      if n > 0 { NeighboursApart(sorted, keyLe, n); }
      hide Apart, KeySorted, Proper;
      assert Coalesce(sorted) == AddRegion(sorted[..n], r);
    }
  }

  /** Merging what was merged changes nothing but, possibly, the order of equal starts. */
  lemma {:induction false} MergeIdempotent<K(!new)>(regions: seq<Region<K>>, keyLe: (K, K) -> bool)
    requires TotalOrder(keyLe) && Proper(regions)
    ensures multiset(Merged(Merged(regions, keyLe), keyLe)) == multiset(Merged(regions, keyLe))
  {
    var once := Merged(regions, keyLe);
    MergeKeeps(regions, keyLe);
    ByKeySorts(once, keyLe);
    ApartPermutes(once, ByKey(once, keyLe));
    CoalesceApart(ByKey(once, keyLe), keyLe);
  }
}
