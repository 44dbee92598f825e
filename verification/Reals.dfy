/** Facts about products and quotients of reals. */
module Reals {
  function MinReal(a: real, b: real): real { if a <= b then a else b }

  function MaxReal(a: real, b: real): real { if a <= b then b else a }

  lemma {:induction false} ProductPositive(a: real, b: real)
    requires a > 0.0 && b > 0.0
    ensures a * b > 0.0
  {
  }

  lemma {:induction false} QuotientOf(q: real, d: real, n: real)
    requires d > 0.0 && q * d == n
    ensures n / d == q
  {
    var r := n / d;
    assert (r - q) * d == 0.0;
    if r > q { ProductPositive(r - q, d); }
    if r < q { ProductPositive(q - r, d); }
  }

  lemma {:induction false} QuotientCompares(n: real, d: real, q: real)
    requires d > 0.0
    ensures n / d <= q <==> n <= q * d
    ensures n / d >= q <==> n >= q * d
    ensures n / d * d == n
  {
    var r := n / d;
    assert r * d == n;
    assert (r - q) * d == n - q * d;
    if r > q { ProductPositive(r - q, d); }
    if r < q {
      ProductPositive(q - r, d);
      assert (q - r) * d == q * d - n;
    }
  }

  lemma {:induction false} QuotientGrows(a: real, b: real, d: real)
    requires d > 0.0 && a <= b
    ensures a / d <= b / d
  {
    QuotientCompares(a, d, b / d);
    QuotientCompares(b, d, b / d);
  }

  /** A common factor cancels. */
  lemma {:induction false} Cancels(n: real, unit: real, k: real)
    requires unit > 0.0 && k > 0.0
    ensures (k * n) / (k * unit) == n / unit
  {
    ProductPositive(k, unit);
    var q := n / unit;
    assert q * unit == n by { QuotientCompares(n, unit, q); }
    assert q * (k * unit) == k * (q * unit);
    QuotientOf(q, k * unit, k * n);
  }

  /** What a part of a positive total leaves, as shares of the total. */
  lemma {:induction false} Share(total: real, part: real)
    requires total > 0.0 && 0.0 <= part <= total
    ensures 1.0 - (total - part) / total == part / total
    ensures 0.0 <= part / total <= 1.0
    ensures part / total == 1.0 <==> part == total
    ensures part / total == 0.0 <==> part == 0.0
  {
    QuotientCompares(part, total, 0.0);
    QuotientCompares(part, total, 1.0);
    assert (1.0 - part / total) * total == total - part;
    QuotientOf(1.0 - part / total, total, total - part);
  }

  function Times(a: real, b: real): real { a * b }

  lemma {:induction false} TimesPositive(a: real, b: real)
    requires (a > 0.0 && b > 0.0) || (a < 0.0 && b < 0.0)
    ensures Times(a, b) > 0.0
  {
  }

  lemma {:induction false} SquarePositive(d: real)
    ensures Times(d, d) >= 0.0
    ensures Times(d, d) == 0.0 <==> d == 0.0
  {
    if d != 0.0 { TimesPositive(d, d); }
  }

  function Square(d: real): (r: real)
    ensures r >= 0.0 && (r == 0.0 <==> d == 0.0)
  {
    SquarePositive(d);
    Times(d, d)
  }

  lemma {:induction false} SquareTimes(k: real, d: real)
    requires k > 0.0
    ensures k * Square(d) >= 0.0
    ensures k * Square(d) == 0.0 <==> d == 0.0
  {
    hide Square;
    if d != 0.0 { ProductPositive(k, Square(d)); }
  }
}
