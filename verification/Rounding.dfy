/** Exact floors and ceilings of fractions, each fixed by what it is the least or greatest bound of. */
module Rounding {

  /** Ceiling of n / d. */
  function DivRoundUp(n: int, d: int): int
    requires d > 0
  {
    if n % d > 0 then n / d + 1 else n / d
  }

  /** The ceiling is the least integer that multiplies to at least n. */
  lemma CeilingIsLeast(n: int, d: int, x: int)
    requires d > 0
    ensures DivRoundUp(n, d) <= x <==> n <= d * x
  {
    var q := n / d;
    assert n == d * q + n % d;
    if q + 1 <= x {
      Scale(q + 1, x, d);
    } else {
      Scale(x, q, d);
      if x < q {
        Scale(x + 1, q, d);
      }
    }
  }

  /** The floor is the greatest integer that multiplies to at most n. */
  lemma FloorIsGreatest(n: int, d: int, x: int)
    requires d > 0
    ensures x <= n / d <==> d * x <= n
  {
    var q := n / d;
    assert n == d * q + n % d;
    if x <= q {
      Scale(x, q, d);
    } else {
      Scale(q + 1, x, d);
    }
  }

  lemma Scale(a: int, b: int, d: int)
    requires a <= b && 0 <= d
    ensures d * a <= d * b
    ensures a * d <= b * d
  {
  }

  lemma Cancel(a: int, b: int, d: int)
    requires d > 0
    ensures a <= b <==> a * d <= b * d
  {
    if a <= b {
      Scale(a, b, d);
    } else {
      Scale(b + 1, a, d);
    }
  }

  lemma ExtendBound(n: int, d: int, k: int, x: int)
    requires k > 0
    ensures n <= d * x <==> n * k <= d * k * x
    ensures d * x <= n <==> d * k * x <= n * k
  {
    assert d * k * x == d * x * k;
    Cancel(n, d * x, k);
    Cancel(d * x, n, k);
  }

  /** Extending a fraction does not change its ceiling or floor. */
  lemma ExtendFraction(n: int, d: int, k: int)
    requires d > 0 && k > 0
    ensures d * k > 0
    ensures DivRoundUp(n * k, d * k) == DivRoundUp(n, d)
    ensures n * k / (d * k) == n / d
  {
    Scale(1, d, k);
    var x, y := DivRoundUp(n, d), DivRoundUp(n * k, d * k);
    CeilingAgrees(n, d, k, x);
    CeilingAgrees(n, d, k, y);
    var p, q := n / d, n * k / (d * k);
    FloorAgrees(n, d, k, p);
    FloorAgrees(n, d, k, q);
  }

  lemma CeilingAgrees(n: int, d: int, k: int, x: int)
    requires d > 0 && k > 0 && d * k > 0
    ensures DivRoundUp(n * k, d * k) <= x <==> DivRoundUp(n, d) <= x
  {
    CeilingIsLeast(n, d, x);
    CeilingIsLeast(n * k, d * k, x);
    ExtendBound(n, d, k, x);
  }

  lemma FloorAgrees(n: int, d: int, k: int, x: int)
    requires d > 0 && k > 0 && d * k > 0
    ensures x <= n * k / (d * k) <==> x <= n / d
  {
    FloorIsGreatest(n, d, x);
    FloorIsGreatest(n * k, d * k, x);
    ExtendBound(n, d, k, x);
  }

  /** Rounding up two parts of a sum costs at most one unit. */
  lemma SplitCeiling(a: int, b: int, d: int)
    requires d > 0
    ensures DivRoundUp(a + b, d) <= DivRoundUp(a, d) + DivRoundUp(b, d) <= DivRoundUp(a + b, d) + 1
  {
    var x, y, z := DivRoundUp(a, d), DivRoundUp(b, d), DivRoundUp(a + b, d);
    CeilingWithin(a, d, x);
    CeilingWithin(b, d, y);
    CeilingWithin(a + b, d, z);
    SumsOfMultiples(x, y, d);
    CeilingIsLeast(a + b, d, x + y);
    if z < x + y - 1 {
      Scale(z, x + y - 2, d);
    }
  }

  lemma CeilingWithin(n: int, d: int, x: int)
    requires d > 0 && x == DivRoundUp(n, d)
    ensures d * x - d < n <= d * x
  {
    CeilingIsLeast(n, d, x);
    CeilingIsLeast(n, d, x - 1);
    assert d * (x - 1) == d * x - d;
  }

  lemma SumsOfMultiples(x: int, y: int, d: int)
    ensures d * (x + y) == d * x + d * y
    ensures d * (x + y - 2) == d * x + d * y - d - d
    ensures d * (x + y + 2) == d * x + d * y + d + d
  {
  }

  /** Rounding down two parts of a sum costs at most one unit. */
  lemma SplitFloor(a: int, b: int, d: int)
    requires d > 0
    ensures (a + b) / d - 1 <= a / d + b / d <= (a + b) / d
  {
    var p, q, r := a / d, b / d, (a + b) / d;
    FloorWithin(a, d);
    FloorWithin(b, d);
    FloorWithin(a + b, d);
    SumsOfMultiples(p, q, d);
    FloorIsGreatest(a + b, d, p + q);
    if p + q + 1 < r {
      Scale(p + q + 2, r, d);
    }
  }

  lemma FloorWithin(n: int, d: int)
    requires d > 0
    ensures d * (n / d) <= n < d * (n / d) + d
  {
    var q := n / d;
    FloorIsGreatest(n, d, q);
    FloorIsGreatest(n, d, q + 1);
    assert d * (q + 1) == d * q + d;
  }
}
