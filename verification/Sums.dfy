/** Finite sums of an integer function over an initial segment of the naturals. */
module Sums {

  ghost function SumTo(n: nat, f: int -> int): int {
    if n == 0 then 0 else SumTo(n - 1, f) + f(n - 1)
  }

  lemma {:induction false} SumAgrees(n: nat, f: int -> int, g: int -> int)
    requires forall i :: 0 <= i < n ==> f(i) == g(i)
    ensures SumTo(n, f) == SumTo(n, g)
  {
    if n > 0 {
      SumAgrees(n - 1, f, g);
    }
  }

  /** Changing one summand changes the sum by the same amount. */
  lemma {:induction false} SumPoint(n: nat, j: int, f: int -> int, g: int -> int)
    requires 0 <= j < n
    requires forall i :: 0 <= i < n && i != j ==> f(i) == g(i)
    ensures SumTo(n, g) == SumTo(n, f) - f(j) + g(j)
  {
    if j == n - 1 {
      SumAgrees(n - 1, f, g);
    } else {
      SumPoint(n - 1, j, f, g);
    }
  }

  lemma {:induction false} SumPlus(n: nat, f: int -> int, g: int -> int, h: int -> int)
    requires forall i :: 0 <= i < n ==> h(i) == f(i) + g(i)
    ensures SumTo(n, h) == SumTo(n, f) + SumTo(n, g)
  {
    if n > 0 {
      SumPlus(n - 1, f, g, h);
    }
  }

  lemma {:induction false} SumScaled(n: nat, c: int, f: int -> int, h: int -> int)
    requires forall i :: 0 <= i < n ==> h(i) == c * f(i)
    ensures SumTo(n, h) == c * SumTo(n, f)
  {
    if n > 0 {
      SumScaled(n - 1, c, f, h);
      assert c * (SumTo(n - 1, f) + f(n - 1)) == c * SumTo(n - 1, f) + c * f(n - 1);
    }
  }

  lemma {:induction false} SumBounds(n: nat, f: int -> int, g: int -> int)
    requires forall i :: 0 <= i < n ==> f(i) <= g(i)
    ensures SumTo(n, f) <= SumTo(n, g)
  {
    if n > 0 {
      SumBounds(n - 1, f, g);
    }
  }

  lemma {:induction false} SumIsZero(n: nat, f: int -> int)
    requires forall i :: 0 <= i < n ==> f(i) == 0
    ensures SumTo(n, f) == 0
  {
    if n > 0 {
      SumIsZero(n - 1, f);
    }
  }

  /** A sum of non-negative terms is at least each of them. */
  lemma {:induction false} SumAtLeast(n: nat, j: int, f: int -> int)
    requires 0 <= j < n
    requires forall i :: 0 <= i < n ==> 0 <= f(i)
    ensures f(j) <= SumTo(n, f)
  {
    SumNonNegative(n - 1, f);
    if j < n - 1 {
      SumAtLeast(n - 1, j, f);
    }
  }

  lemma {:induction false} SumNonNegative(n: nat, f: int -> int)
    requires forall i :: 0 <= i < n ==> 0 <= f(i)
    ensures 0 <= SumTo(n, f)
  {
    if n > 0 {
      SumNonNegative(n - 1, f);
    }
  }
}
