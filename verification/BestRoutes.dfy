/** Keeping the best routes of a quote map (router/convert-quote-map.ts). */
module BestRoutes {
  import opened Routes
  import opened Enumeration
  import opened Ranking
  import opened Selection

  /** Most output for an exact input, least input for an exact output. */
  function RouteCost(isInput: bool): Route -> int {
    (r: Route) => if isInput then -(r.totalOut as int) else r.totalIn
  }

  /** These are n of all routes, or all if there are fewer, best first, and no other route is better. */
  ghost predicate Best(all: seq<Route>, n: nat, isInput: bool, best: seq<Route>) {
    && Ranked(best, RouteCost(isInput)) && |best| == (if |all| <= n then |all| else n)
    && exists others :: NoneBetter(all, isInput, best, others)
  }

  ghost predicate NoneBetter(all: seq<Route>, isInput: bool, best: seq<Route>, others: seq<Route>) {
    && multiset(all) == multiset(best) + multiset(others)
    && forall r, s :: r in best && s in others ==> RouteCost(isInput)(r) <= RouteCost(isInput)(s)
  }

  lemma SameElements<T>(a: seq<T>, b: seq<T>)
    requires multiset(a) == multiset(b)
    ensures forall x :: x in b ==> x in a
  {
    forall x | x in b
      ensures x in a
    {
      assert x in multiset(b);
    }
  }

  lemma FrontCostsLess(partitioned: seq<Route>, n: nat, cost: Route -> int)
    requires n < |partitioned| && Pivoted(partitioned, 0, n, |partitioned| - 1, cost)
    ensures forall r, s :: r in partitioned[..n] && s in partitioned[n..] ==> cost(r) <= cost(s)
  {
    forall r, s | r in partitioned[..n] && s in partitioned[n..]
      ensures cost(r) <= cost(s)
    {
      assert cost(r) <= cost(partitioned[n]);
    }
  }

  /** Cutting a partitioned array at index n and sorting the front leaves the best. */
  lemma FrontIsBest(all: seq<Route>, n: nat, isInput: bool, partitioned: seq<Route>)
    requires n < |all| && Rearranged(all, partitioned, 0, |all| - 1)
    requires Pivoted(partitioned, 0, n, |all| - 1, RouteCost(isInput))
    ensures Best(all, n, isInput, Rank(partitioned[..n], RouteCost(isInput)))
  {
    var cost := RouteCost(isInput);
    var front, others := partitioned[..n], partitioned[n..];
    RankSorts(front, cost);
    var best := Rank(front, cost);
    assert |multiset(best)| == |multiset(front)|;
    assert partitioned == front + others;
    SameElements(front, best);
    FrontCostsLess(partitioned, n, cost);
    assert NoneBetter(all, isInput, best, others);
  }

  lemma AllAreBest(all: seq<Route>, n: nat, isInput: bool)
    requires |all| <= n
    ensures Best(all, n, isInput, Rank(all, RouteCost(isInput)))
  {
    RankSorts(all, RouteCost(isInput));
    var best := Rank(all, RouteCost(isInput));
    assert |multiset(best)| == |multiset(all)|;
    assert NoneBetter(all, isInput, best, []);
  }

  method RankedRoutes(c: Candidates, isInput: bool, topN: nat, maxSplits: int, sampling: Sampling)
    returns (ranked: seq<Route>)
    requires Moderate(sampling)
    ensures Best(BuildRoutes(c, maxSplits, EMPTY_ROUTE), topN, isInput, ranked)
  {
    var routes := GenerateRoutes(c, maxSplits);
    if |routes| <= topN {
      AllAreBest(routes, topN, isInput);
      return Rank(routes, RouteCost(isInput));
    }
    var a := new Route[|routes|](i requires 0 <= i < |routes| => routes[i]);
    assert a[..] == routes;
    KSmallestPartition(a, topN, 0, |routes| - 1, RouteCost(isInput), sampling);
    FrontIsBest(routes, topN, isInput, a[..]);
    return Rank(a[..topN], RouteCost(isInput));
  }

  /** The best routes together with the direct ones, sorted. */
  ghost predicate Selected(c: Candidates, isInput: bool, topN: nat, maxSplits: int, routes: seq<Route>) {
    exists best :: Best(BuildRoutes(c, maxSplits, EMPTY_ROUTE), topN, isInput, best)
      && routes == Rank(best + SingleHopSplit(c), RouteCost(isInput))
  }

  method GetBestRoutes(c: Candidates, isInput: bool, topN: nat, maxSplits: int, sampling: Sampling)
    returns (routes: seq<Route>)
    requires Moderate(sampling)
    ensures Selected(c, isInput, topN, maxSplits, routes)
  {
    var ranked := RankedRoutes(c, isInput, topN, maxSplits, sampling);
    routes := Rank(ranked + SingleHopSplit(c), RouteCost(isInput));
  }

  // ---- What the selection amounts to ---------------------------------------------------------------------

  /** The amounts of a quote are those of its ends. */
  ghost predicate AmountsAreEnds(q: PathQuote) {
    |q.hops| > 0 && q.amountIn == q.hops[0].amountIn && q.amountOut == q.hops[|q.hops| - 1].amountOut
  }

  ghost predicate QuotesAreEnds(c: Candidates) {
    forall i, q :: 0 <= i < |c| && q in c[i].quotes ==> AmountsAreEnds(q)
  }

  lemma {:induction false} CountedIsThere(routes: seq<Route>, chosen: set<PathQuote>) returns (r: Route)
    requires CountOf(routes, chosen) >= 1
    ensures r in routes && SetOf(r.quotes) == chosen
  {
    if SetOf(routes[0].quotes) == chosen {
      r := routes[0];
    } else {
      r := CountedIsThere(routes[1..], chosen);
    }
  }

  lemma OneQuote(quotes: seq<PathQuote>, q: PathQuote)
    requires Distinct(quotes) && SetOf(quotes) == {q}
    ensures quotes == [q]
  {
    DistinctSize(quotes);
    assert quotes[0] in SetOf(quotes);
  }

  /** The routes listed separately are routes of the enumeration. */
  lemma DirectRoutesAreRoutes(c: Candidates, maxSplits: int, r: Route)
    requires WellFormed(c) && DistinctQuotes(c) && QuotesAreEnds(c) && r in SingleHopSplit(c)
    ensures r in BuildRoutes(c, maxSplits, EMPTY_ROUTE)
  {
    var i, q := DirectRoute(c, r);
    DirectRoutesAppearTwice(c, maxSplits, i, q);
    var emitted := CountedIsThere(BuildRoutes(c, maxSplits, EMPTY_ROUTE), {q});
    EmittedRoute(c, maxSplits, emitted);
    OneQuote(emitted.quotes, q);
    assert AmountsAreEnds(q);
    assert [q][..0] == [] && SumIn([q]) == q.amountIn && SumOut([q]) == q.amountOut;
  }

  lemma {:induction false} DirectRoute(c: Candidates, r: Route) returns (i: nat, q: PathQuote)
    requires r in SingleHopSplit(c)
    ensures i < |c| && c[i].percent == 100 && q in c[i].quotes && |q.hops| == 1
    ensures r == Route([q], 100, q.hops[0].amountIn, q.hops[0].amountOut)
  {
    if c[0].percent == 100 {
      i := 0;
      q := SingleHop(c[0].quotes, r);
    } else {
      i, q := DirectRoute(c[1..], r);
      i := i + 1;
    }
  }

  lemma {:induction false} SingleHop(quotes: seq<PathQuote>, r: Route) returns (q: PathQuote)
    requires r in SingleHops(quotes)
    ensures q in quotes && |q.hops| == 1 && r == Route([q], 100, q.hops[0].amountIn, q.hops[0].amountOut)
  {
    q := quotes[0];
    if |q.hops| != 1 || r != Route([q], 100, q.hops[0].amountIn, q.hops[0].amountOut) {
      q := SingleHop(quotes[1..], r);
    }
  }

  /** Every selected route is a route of the enumeration. */
  lemma SelectedAreRoutes(c: Candidates, isInput: bool, topN: nat, maxSplits: int, routes: seq<Route>)
    requires WellFormed(c) && DistinctQuotes(c) && QuotesAreEnds(c) && Selected(c, isInput, topN, maxSplits, routes)
    ensures Ranked(routes, RouteCost(isInput))
    ensures forall r :: r in routes ==> r in BuildRoutes(c, maxSplits, EMPTY_ROUTE)
  {
    var all := BuildRoutes(c, maxSplits, EMPTY_ROUTE);
    var best :| Best(all, topN, isInput, best) && routes == Rank(best + SingleHopSplit(c), RouteCost(isInput));
    var others :| NoneBetter(all, isInput, best, others);
    RankSorts(best + SingleHopSplit(c), RouteCost(isInput));
    forall r | r in routes
      ensures r in all
    {
      assert r in multiset(routes);
      if r in best {
        assert r in multiset(best);
        assert r in multiset(all);
      } else {
        assert r in SingleHopSplit(c);
        DirectRoutesAreRoutes(c, maxSplits, r);
      }
    }
  }

  /**
    The first route selected is as good as any valid split of the quotes: each of them is a route that
    costs no less.
  */
  lemma FirstIsBest(c: Candidates, isInput: bool, topN: nat, maxSplits: int, routes: seq<Route>, chosen: set<PathQuote>)
    requires WellFormed(c) && DistinctQuotes(c) && Selected(c, isInput, topN, maxSplits, routes)
    requires topN >= 1 && IsSplit(c, maxSplits, chosen)
    ensures routes != []
    ensures exists r :: && r in BuildRoutes(c, maxSplits, EMPTY_ROUTE) && SetOf(r.quotes) == chosen
                        && RouteCost(isInput)(routes[0]) <= RouteCost(isInput)(r)
  {
    var all, cost := BuildRoutes(c, maxSplits, EMPTY_ROUTE), RouteCost(isInput);
    RoutesAreExact(c, maxSplits, chosen);
    var r := CountedIsThere(all, chosen);
    var best :| Best(all, topN, isInput, best) && routes == Rank(best + SingleHopSplit(c), cost);
    var others :| NoneBetter(all, isInput, best, others);
    assert r in multiset(all);
    assert r in best || r in others;
    assert cost(best[0]) <= cost(r);
    RankSorts(best + SingleHopSplit(c), cost);
    FirstIsLeast(best + SingleHopSplit(c), best[0], routes, cost);
  }

  lemma FirstIsLeast(items: seq<Route>, item: Route, ranked: seq<Route>, cost: Route -> int)
    requires item in items && Ranked(ranked, cost) && multiset(ranked) == multiset(items)
    ensures ranked != [] && cost(ranked[0]) <= cost(item)
  {
    assert item in multiset(ranked);
  }
}
