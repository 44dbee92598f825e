/**
 The stable `Array.prototype.sort` the source calls, with a comparator written
 as the relation "not after".
 */
module Sorting {

  ghost predicate TotalPreorder<T(!new)>(le: (T, T) -> bool) {
    && (forall a, b :: le(a, b) || le(b, a))
    && (forall a, b, c :: le(a, b) && le(b, c) ==> le(a, c))
  }

  ghost predicate SortedBy<T>(xs: seq<T>, le: (T, T) -> bool) {
    forall i, j | 0 <= i < j < |xs| :: le(xs[i], xs[j])
  }

  function Insert<T>(x: T, xs: seq<T>, le: (T, T) -> bool): (r: seq<T>)
    ensures multiset(r) == multiset(xs) + multiset{x}
  {
    if xs == [] then [x]
    else if le(x, xs[0]) then [x] + xs
    else
      assert xs == [xs[0]] + xs[1..];
      [xs[0]] + Insert(x, xs[1..], le)
  }

  function Sort<T>(xs: seq<T>, le: (T, T) -> bool): (r: seq<T>)
    ensures multiset(r) == multiset(xs)
  {
    if xs == [] then []
    else
      assert xs == [xs[0]] + xs[1..];
      Insert(xs[0], Sort(xs[1..], le), le)
  }

  lemma {:induction false} SameElements<T>(xs: seq<T>, ys: seq<T>)
    requires multiset(xs) == multiset(ys)
    ensures forall x :: x in xs <==> x in ys
    ensures |xs| == |ys|
  {
    assert |multiset(xs)| == |xs| && |multiset(ys)| == |ys|;
    forall x ensures x in xs <==> x in ys {
      assert x in xs <==> x in multiset(xs);
      assert x in ys <==> x in multiset(ys);
    }
  }

  lemma {:induction false} InsertKeepsSorted<T(!new)>(x: T, xs: seq<T>, le: (T, T) -> bool)
    requires TotalPreorder(le) && SortedBy(xs, le)
    ensures SortedBy(Insert(x, xs, le), le)
  {
    if xs != [] && !le(x, xs[0]) {
      var tail := Insert(x, xs[1..], le);
      InsertKeepsSorted(x, xs[1..], le);
      forall y | y in tail ensures le(xs[0], y) {
        assert y in multiset(tail);
        assert y == x || y in xs[1..];
      }
    }
  }

  lemma {:induction false} SortSorts<T(!new)>(xs: seq<T>, le: (T, T) -> bool)
    requires TotalPreorder(le)
    ensures SortedBy(Sort(xs, le), le)
  {
    if xs != [] {
      SortSorts(xs[1..], le);
      InsertKeepsSorted(xs[0], Sort(xs[1..], le), le);
    }
  }

  // ---- Stability

  /** Elements the sort does not tell apart come in the order of `ties`. */
  ghost predicate SortedWithTies<T>(xs: seq<T>, le: (T, T) -> bool, ties: (T, T) -> bool) {
    forall i, j | 0 <= i < j < |xs| :: le(xs[i], xs[j]) && (le(xs[j], xs[i]) ==> ties(xs[i], xs[j]))
  }

  lemma {:induction false} PrependKeepsTies<T>(x: T, xs: seq<T>, le: (T, T) -> bool, ties: (T, T) -> bool)
    requires SortedWithTies(xs, le, ties) && forall y | y in xs :: le(x, y) && (le(y, x) ==> ties(x, y))
    ensures SortedWithTies([x] + xs, le, ties)
  {
  }

  lemma {:induction false} InsertKeepsTies<T(!new)>(x: T, xs: seq<T>, le: (T, T) -> bool, ties: (T, T) -> bool)
    requires TotalPreorder(le) && SortedWithTies(xs, le, ties) && forall y | y in xs :: ties(x, y)
    ensures SortedWithTies(Insert(x, xs, le), le, ties)
  {
    if xs != [] && !le(x, xs[0]) {
      var rest := xs[1..];
      var tail := Insert(x, rest, le);
      assert SortedWithTies(rest, le, ties) && forall y | y in rest :: y in xs;
      InsertKeepsTies(x, rest, le, ties);
      forall y | y in tail ensures le(xs[0], y) && (le(y, xs[0]) ==> ties(xs[0], y)) {
        assert y in multiset(tail);
        assert y == x || y in rest;
      }
      PrependKeepsTies(xs[0], tail, le, ties);
    } else {
      forall y | y in xs ensures le(x, y) { assert le(xs[0], y); }
      PrependKeepsTies(x, xs, le, ties);
    }
  }

  /** The sort is stable: a list already in the order of `ties` keeps it among equals. */
  lemma {:induction false} SortKeepsTies<T(!new)>(xs: seq<T>, le: (T, T) -> bool, ties: (T, T) -> bool)
    requires TotalPreorder(le) && SortedBy(xs, ties)
    ensures SortedWithTies(Sort(xs, le), le, ties)
  {
    if xs != [] {
      var rest := Sort(xs[1..], le);
      SortKeepsTies(xs[1..], le, ties);
      forall y | y in rest ensures ties(xs[0], y) {
        assert y in multiset(rest);
        assert y in xs[1..];
      }
      InsertKeepsTies(xs[0], rest, le, ties);
    }
  }
}
