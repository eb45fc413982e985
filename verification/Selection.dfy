/** Selecting the k smallest items of an array in place, by Floyd and Rivest (utils/math/k-smallest-partition.ts). */
module Selection {

  const RECURSION_BREAKPOINT: int := 600

  /**
    The size of the sample taken from n items, half of n to the power of 2/3, and how far its bounds are
    shifted, half the root of the sample's deviation.
  */
  type Sampling = int -> (real, real)

  /** What the two formulas guarantee above the breakpoint: a proper part of the items, shifted by half of it at most. */
  ghost predicate Moderate(sampling: Sampling) {
    forall n :: n > RECURSION_BREAKPOINT ==>
      && 0.0 <= sampling(n).0 && sampling(n).0 + 2.0 < n as real
      && 0.0 <= sampling(n).1 && 2.0 * sampling(n).1 <= sampling(n).0
  }

  /** The bounds of the sample around index k. */
  function SampleBounds(k: int, left: int, right: int, sampling: Sampling): (int, int)
    requires left < right
  {
    var (s, deviation) := sampling(right - left + 1);
    var (low, high) := Offsets((k - left + 1) as real, (right - left + 1) as real, s, deviation);
    (if Floor(k, low) < left then left else Floor(k, low), if Floor(k, high) > right then right else Floor(k, high))
  }

  function Offsets(i: real, n: real, s: real, deviation: real): (real, real)
    requires n > 0.0
  {
    var sd := if 2.0 * i < n then -deviation else deviation;
    (sd - i * s / n, sd + (n - i) * s / n)
  }

  function Floor(k: int, offset: real): int {
    (k as real + offset).Floor
  }

  /** The sample contains index k and is smaller than the range. */
  lemma SampleContains(k: int, left: int, right: int, sampling: Sampling)
    requires left <= k <= right && right - left > RECURSION_BREAKPOINT && Moderate(sampling)
    ensures
      var (low, high) := SampleBounds(k, left, right, sampling);
      left <= low <= k <= high <= right && high - low < right - left
  {
    var n := right - left + 1;
    var (s, deviation) := sampling(n);
    var (low, high) := Offsets((k - left + 1) as real, n as real, s, deviation);
    OffsetsAround((k - left + 1) as real, n as real, s, deviation);
    FloorsAround(k, n, low, s);
  }

  lemma OffsetsAround(i: real, n: real, s: real, deviation: real)
    requires 0.0 <= i <= n && 0.0 < n && 0.0 <= s && 0.0 <= 2.0 * deviation <= s
    ensures
      var (low, high) := Offsets(i, n, s, deviation);
      -s <= low <= 0.0 && high == low + s
  {
    ShareOf(i, n, s);
  }

  lemma FloorsAround(k: int, n: int, offset: real, s: real)
    requires -s <= offset <= 0.0 && s + 2.0 < n as real
    ensures Floor(k, offset) <= k <= Floor(k, offset + s)
    ensures Floor(k, offset + s) - Floor(k, offset) < n - 1
  {
  }

  lemma ShareOf(i: real, n: real, s: real)
    requires 0.0 <= i <= n && 0.0 < n && 0.0 <= s
    ensures 0.0 <= i * s / n <= s && (n - i) * s / n == s - i * s / n
    ensures if 2.0 * i < n then 2.0 * (i * s / n) <= s else 2.0 * (i * s / n) >= s
  {
    MulReal(0.0, i, s);
    MulReal(i, n, s);
    AtMost(i * s, n, s);
    AtMost(0.0, n, i * s / n);
    if 2.0 * i < n {
      MulReal(2.0 * i, n, s);
      AtMost(i * s, n, s / 2.0);
    } else {
      MulReal(n, 2.0 * i, s);
      AtLeast(i * s, n, s / 2.0);
    }
    assert (n - i) * s == n * s - i * s;
  }

  lemma AtMost(a: real, n: real, b: real)
    requires 0.0 < n
    ensures a <= b * n ==> a / n <= b
  {
    var q := a / n;
    assert q * n == a;
    if b < q {
      MulReal(0.0, n, q - b);
      assert (q - b) * n == q * n - b * n;
      assert 0.0 < (q - b) * n;
    }
  }

  lemma AtLeast(a: real, n: real, b: real)
    requires 0.0 < n
    ensures b * n <= a ==> b <= a / n
  {
    var q := a / n;
    assert q * n == a;
    if q < b {
      assert (b - q) * n == b * n - q * n;
      assert 0.0 < (b - q) * n;
    }
  }

  lemma MulReal(a: real, b: real, s: real)
    requires a <= b && 0.0 <= s
    ensures a * s <= b * s
  {
  }

  // ---- Rearranging part of an array ------------------------------------------------------------------------

  method Swap<T>(a: array<T>, i: int, j: int)
    requires 0 <= i < a.Length && 0 <= j < a.Length
    modifies a
    ensures a[i] == old(a[j]) && a[j] == old(a[i])
    ensures forall x :: 0 <= x < a.Length && x != i && x != j ==> a[x] == old(a[x])
    ensures multiset(a[..]) == multiset(old(a[..]))
  {
    a[i], a[j] := a[j], a[i];
  }

  /** The same items, in another order between two indices only. */
  ghost predicate Rearranged<T>(before: seq<T>, after: seq<T>, left: int, right: int) {
    && multiset(after) == multiset(before) && |after| == |before|
    && forall x :: 0 <= x < |before| && (x < left || right < x) ==> after[x] == before[x]
  }

  /** Nothing before index m costs more than anything from there on. */
  ghost predicate SplitAt<T>(s: seq<T>, first: int, m: int, last: int, cost: T -> int)
    requires 0 <= first && last < |s|
  {
    forall x, y :: first <= x < m <= y <= last ==> cost(s[x]) <= cost(s[y])
  }

  lemma CountInParts<T>(s: seq<T>, left: int, right: int, item: T)
    requires 0 <= left <= right < |s|
    ensures multiset(s)[item]
         == multiset(s[..left])[item] + multiset(s[left..right + 1])[item] + multiset(s[right + 1..])[item]
  {
    assert s == s[..left] + s[left..right + 1] + s[right + 1..];
  }

  lemma ComesFromRange<T>(before: seq<T>, after: seq<T>, left: int, right: int, x: int) returns (from: int)
    requires Rearranged(before, after, left, right) && 0 <= left <= x <= right < |before|
    ensures left <= from <= right && before[from] == after[x]
  {
    var b, c := before[left..right + 1], after[left..right + 1];
    CountInParts(before, left, right, after[x]);
    CountInParts(after, left, right, after[x]);
    assert before[..left] == after[..left] && before[right + 1..] == after[right + 1..];
    assert c[x - left] == after[x];
    assert after[x] in multiset(b);
    var i :| 0 <= i < |b| && b[i] == after[x];
    from := left + i;
  }

  /** Rearranging one side of a split keeps it. */
  lemma KeepsSplit<T>(before: seq<T>, after: seq<T>, left: int, right: int, first: int, m: int, last: int, cost: T -> int)
    requires Rearranged(before, after, left, right) && 0 <= first <= left <= right <= last < |before|
    requires SplitAt(before, first, m, last, cost) && (right < m || m <= left)
    ensures SplitAt(after, first, m, last, cost)
  {
    forall x, y | first <= x < m <= y <= last
      ensures cost(after[x]) <= cost(after[y])
    {
      var x', y' := x, y;
      if left <= x <= right {
        x' := ComesFromRange(before, after, left, right, x);
      }
      if left <= y <= right {
        y' := ComesFromRange(before, after, left, right, y);
      }
    }
  }

  lemma RearrangedTwice<T>(s: seq<T>, t: seq<T>, u: seq<T>, left: int, right: int, l: int, r: int)
    requires Rearranged(s, t, left, right) && Rearranged(t, u, l, r) && left <= l && r <= right
    ensures Rearranged(s, u, left, right)
  {
  }

  // ---- The algorithm -----------------------------------------------------------------------------------------

  /** No item of a range before index j costs more than the one there, and none after it less. */
  ghost predicate Pivoted<T>(s: seq<T>, left: int, j: int, right: int, cost: T -> int)
    requires 0 <= left <= j <= right < |s|
  {
    && (forall x :: left <= x < j ==> cost(s[x]) <= cost(s[j]))
    && (forall y :: j < y <= right ==> cost(s[j]) <= cost(s[y]))
  }

  method ScanUp<T>(a: array<T>, from: int, ghost stop: int, c: int, cost: T -> int) returns (i: int)
    requires 0 <= from <= stop < a.Length && c <= cost(a[stop])
    ensures from <= i <= stop && c <= cost(a[i])
    ensures forall x :: from <= x < i ==> cost(a[x]) < c
  {
    i := from;
    while cost(a[i]) < c
      invariant from <= i <= stop
      invariant forall x :: from <= x < i ==> cost(a[x]) < c
      decreases stop - i
    {
      i := i + 1;
    }
  }

  method ScanDown<T>(a: array<T>, ghost stop: int, from: int, c: int, cost: T -> int) returns (j: int)
    requires 0 <= stop <= from < a.Length && cost(a[stop]) <= c
    ensures stop <= j <= from && cost(a[j]) <= c
    ensures forall y :: j < y <= from ==> c < cost(a[y])
  {
    j := from;
    while cost(a[j]) > c
      invariant stop <= j <= from
      invariant forall y :: j < y <= from ==> c < cost(a[y])
      decreases j - stop
    {
      j := j - 1;
    }
  }

  /** From both ends inwards, exchanging what is on the wrong side of c. */
  method ExchangeInwards<T>(a: array<T>, left: int, right: int, c: int, cost: T -> int) returns (j: int)
    requires 0 <= left < right < a.Length && cost(a[right]) <= c <= cost(a[left])
    modifies a
    ensures left <= j < right && Rearranged(old(a[..]), a[..], left, right)
    ensures forall x :: left <= x <= j ==> cost(a[x]) <= c
    ensures forall y :: j < y <= right ==> c <= cost(a[y])
    ensures cost(a[left]) == cost(old(a[right])) && cost(a[right]) == cost(old(a[left]))
  {
    var i := left;
    j := right;
    while i < j
      invariant left <= i <= right && left <= j <= right
      invariant forall x :: left <= x < i ==> cost(a[x]) <= c
      invariant forall y :: j < y <= right ==> c <= cost(a[y])
      invariant cost(a[j]) <= c <= cost(a[i])
      invariant if i == left then j == right && a[..] == old(a[..])
                else j < right && a[left] == old(a[right]) && a[right] == old(a[left])
      invariant Rearranged(old(a[..]), a[..], left, right)
    {
      Swap(a, i, j);
      ghost var i', j' := i, j;
      i, j := i + 1, j - 1;
      i := ScanUp(a, i, j', c, cost);
      j := ScanDown(a, i', j, c, cost);
    }
  }

  /** Partitions a range around the item at index k, which ends up at index j. */
  method PartitionAround<T>(a: array<T>, k: int, left: int, right: int, cost: T -> int) returns (j: int)
    requires 0 <= left <= k <= right < a.Length && left < right
    modifies a
    ensures left <= j <= right && Pivoted(a[..], left, j, right, cost)
    ensures Rearranged(old(a[..]), a[..], left, right)
  {
    var t := a[k];
    Swap(a, left, k);
    if cost(a[right]) > cost(t) {
      Swap(a, left, right);
    }
    j := ExchangeInwards(a, left, right, cost(t), cost);
    if cost(a[left]) == cost(t) {
      Swap(a, left, j);
    } else {
      j := j + 1;
      Swap(a, j, right);
    }
  }

  lemma NarrowedLeft<T>(s: seq<T>, first: int, left: int, j: int, right: int, last: int, cost: T -> int)
    requires 0 <= first <= left <= j <= right <= last < |s| && Pivoted(s, left, j, right, cost)
    requires SplitAt(s, first, left, last, cost) && SplitAt(s, first, right + 1, last, cost)
    ensures SplitAt(s, first, j, last, cost) && SplitAt(s, first, j + 1, last, cost)
  {
  }

  /** Afterwards no item up to index k costs more than any item from there on. */
  method KSmallestPartition<T>(a: array<T>, k: int, left: int, right: int, cost: T -> int, sampling: Sampling)
    requires 0 <= left <= k <= right < a.Length && Moderate(sampling)
    modifies a
    ensures Rearranged(old(a[..]), a[..], left, right)
    ensures Pivoted(a[..], left, k, right, cost)
    decreases right - left
  {
    var l, r := left, right;
    while r > l
      invariant left <= l && r <= right && (l <= k <= r || (l == k + 1 && r == k - 1))
      invariant SplitAt(a[..], left, l, right, cost) && SplitAt(a[..], left, r + 1, right, cost)
      invariant Rearranged(old(a[..]), a[..], left, right)
    {
      ghost var s := a[..];
      if r - l > RECURSION_BREAKPOINT {
        SampleContains(k, l, r, sampling);
        var (low, high) := SampleBounds(k, l, r, sampling);
        KSmallestPartition(a, k, low, high, cost, sampling);
        RearrangedTwice(s, a[..], a[..], l, r, low, high);
      }
      ghost var t := a[..];
      var j := PartitionAround(a, k, l, r, cost);
      RearrangedTwice(s, t, a[..], l, r, l, r);
      KeepsSplit(s, a[..], l, r, left, l, right, cost);
      KeepsSplit(s, a[..], l, r, left, r + 1, right, cost);
      RearrangedTwice(old(a[..]), s, a[..], left, right, l, r);
      NarrowedLeft(a[..], left, l, j, r, right, cost);
      if j <= k {
        l := j + 1;
      }
      if k <= j {
        r := j - 1;
      }
    }
  }
}
