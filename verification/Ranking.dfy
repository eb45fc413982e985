/** Sorting by ascending cost, as the built-in stable sort with a comparator of costs does. */
module Ranking {

  /** Behind everything that costs no more. */
  function InsertRanked<T>(x: T, ranked: seq<T>, cost: T -> int): seq<T> {
    if |ranked| == 0 then [x]
    else if cost(x) < cost(ranked[|ranked| - 1]) then
      InsertRanked(x, ranked[..|ranked| - 1], cost) + [ranked[|ranked| - 1]]
    else ranked + [x]
  }

  function Rank<T>(items: seq<T>, cost: T -> int): seq<T> {
    if |items| == 0 then [] else InsertRanked(items[|items| - 1], Rank(items[..|items| - 1], cost), cost)
  }

  ghost predicate Ranked<T>(items: seq<T>, cost: T -> int) {
    forall i, j :: 0 <= i < j < |items| ==> cost(items[i]) <= cost(items[j])
  }

  lemma {:induction false} InsertKeepsElements<T>(x: T, ranked: seq<T>, cost: T -> int)
    ensures multiset(InsertRanked(x, ranked, cost)) == multiset(ranked) + multiset{x}
  {
    if |ranked| > 0 && cost(x) < cost(ranked[|ranked| - 1]) {
      var front, last := ranked[..|ranked| - 1], ranked[|ranked| - 1];
      InsertKeepsElements(x, front, cost);
      assert ranked == front + [last];
    }
  }

  ghost predicate AtMost<T>(items: seq<T>, cost: T -> int, bound: int) {
    forall i :: 0 <= i < |items| ==> cost(items[i]) <= bound
  }

  lemma {:induction false} InsertKeepsRanked<T>(x: T, ranked: seq<T>, cost: T -> int)
    requires Ranked(ranked, cost)
    ensures Ranked(InsertRanked(x, ranked, cost), cost)
    ensures forall b :: AtMost(ranked, cost, b) && cost(x) <= b ==> AtMost(InsertRanked(x, ranked, cost), cost, b)
  {
    if |ranked| > 0 && cost(x) < cost(ranked[|ranked| - 1]) {
      var front, last := ranked[..|ranked| - 1], ranked[|ranked| - 1];
      InsertKeepsRanked(x, front, cost);
      assert AtMost(front, cost, cost(last));
      assert AtMost(InsertRanked(x, front, cost), cost, cost(last));
      forall b | AtMost(ranked, cost, b) && cost(x) <= b
        ensures AtMost(InsertRanked(x, ranked, cost), cost, b)
      {
        assert AtMost(front, cost, b);
      }
    }
  }

  lemma {:induction false} RankSorts<T>(items: seq<T>, cost: T -> int)
    ensures Ranked(Rank(items, cost), cost)
    ensures multiset(Rank(items, cost)) == multiset(items)
  {
    if |items| > 0 {
      var front, last := items[..|items| - 1], items[|items| - 1];
      RankSorts(front, cost);
      InsertKeepsRanked(last, Rank(front, cost), cost);
      InsertKeepsElements(last, Rank(front, cost), cost);
      assert items == front + [last];
    }
  }

  /** Items of equal cost stay in their order. */
  lemma {:induction false} RankIsStable<T>(items: seq<T>, cost: T -> int, c: int)
    ensures OfCost(Rank(items, cost), cost, c) == OfCost(items, cost, c)
  {
    if |items| > 0 {
      var front, last := items[..|items| - 1], items[|items| - 1];
      RankIsStable(front, cost, c);
      RankSorts(front, cost);
      InsertIsStable(last, Rank(front, cost), cost, c);
    }
  }

  /** The items of one cost, in order. */
  function OfCost<T>(items: seq<T>, cost: T -> int, c: int): seq<T> {
    if |items| == 0 then []
    else
      OfCost(items[..|items| - 1], cost, c) +
      if cost(items[|items| - 1]) == c then [items[|items| - 1]] else []
  }

  lemma {:induction false} InsertIsStable<T>(x: T, ranked: seq<T>, cost: T -> int, c: int)
    requires Ranked(ranked, cost)
    ensures OfCost(InsertRanked(x, ranked, cost), cost, c)
         == OfCost(ranked, cost, c) + if cost(x) == c then [x] else []
  {
    if |ranked| > 0 && cost(x) < cost(ranked[|ranked| - 1]) {
      var front, last := ranked[..|ranked| - 1], ranked[|ranked| - 1];
      InsertIsStable(x, front, cost, c);
      assert (InsertRanked(x, front, cost) + [last])[..|front| + 1] == InsertRanked(x, front, cost) by {
        InsertAddsOne(x, front, cost);
      }
      InsertAddsOne(x, front, cost);
    } else {
      assert (ranked + [x])[..|ranked|] == ranked;
    }
  }

  lemma {:induction false} InsertAddsOne<T>(x: T, ranked: seq<T>, cost: T -> int)
    ensures |InsertRanked(x, ranked, cost)| == |ranked| + 1
  {
    if |ranked| > 0 && cost(x) < cost(ranked[|ranked| - 1]) {
      InsertAddsOne(x, ranked[..|ranked| - 1], cost);
    }
  }
}
