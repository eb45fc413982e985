/** Split routes built from quotes per percentage (router/convert-quote-map.ts). */
module Routes {

  type Address = string

  /** One successful hop of a path. */
  datatype Hop = Hop(amountIn: nat, amountOut: nat, pool: Address, inputMint: Address, outputMint: Address)

  /**
    A quote for sending a percentage of the trade along a path. Percentage and path index identify
    the quote object: the quote map holds one object for each.
  */
  datatype PathQuote = PathQuote(
    splitPercent: int, pathIndex: nat, edgesPoolAddrs: seq<Address>, amountIn: nat, amountOut: nat, hops: seq<Hop>)

  /** One key of the quote map with its candidates. */
  datatype Bucket = Bucket(percent: int, quotes: seq<PathQuote>)

  /** The quote map, its keys in enumeration order. */
  type Candidates = seq<Bucket>

  datatype Route = Route(quotes: seq<PathQuote>, splitPercent: int, totalIn: nat, totalOut: nat)

  const EMPTY_ROUTE: Route := Route([], 0, 0, 0)

  /** Integer keys are enumerated in ascending order, percentages are positive, and quotes sit under their own key. */
  ghost predicate WellFormed(c: Candidates) {
    && (forall i, j :: 0 <= i < j < |c| ==> c[i].percent < c[j].percent)
    && (forall i :: 0 <= i < |c| ==> c[i].percent >= 1)
    && (forall i, j :: 0 <= i < |c| && 0 <= j < |c[i].quotes| ==> c[i].quotes[j].splitPercent == c[i].percent)
  }

  function QuoteCount(c: Candidates): nat {
    if c == [] then 0 else |c[0].quotes| + QuoteCount(c[1..])
  }

  /** The candidates with only the quotes after j left under key i. */
  function DropThrough(c: Candidates, i: nat, j: nat): Candidates
    requires i < |c| && j < |c[i].quotes|
  {
    c[i := Bucket(c[i].percent, c[i].quotes[j + 1..])]
  }

  lemma DropThroughShrinks(c: Candidates, i: nat, j: nat)
    requires i < |c| && j < |c[i].quotes|
    ensures QuoteCount(DropThrough(c, i, j)) < QuoteCount(c)
  {
    if i > 0 {
      assert DropThrough(c, i, j)[1..] == DropThrough(c[1..], i - 1, j);
      DropThroughShrinks(c[1..], i - 1, j);
    }
  }

  predicate SharesPool(q: PathQuote, r: PathQuote) {
    exists a :: a in q.edgesPoolAddrs && a in r.edgesPoolAddrs
  }

  predicate ReusesPool(q: PathQuote, quotes: seq<PathQuote>) {
    exists i :: 0 <= i < |quotes| && SharesPool(q, quotes[i])
  }

  /** Percentages may not grow along a route. */
  predicate Allowed(quotes: seq<PathQuote>, percent: int) {
    quotes == [] || percent <= quotes[|quotes| - 1].splitPercent
  }

  function Extend(route: Route, q: PathQuote): Route {
    Route(route.quotes + [q], route.splitPercent + q.splitPercent, route.totalIn + q.amountIn, route.totalOut + q.amountOut)
  }

  // ---- The enumeration as the code performs it ----------------------------------------------------------

  function BuildRoutes(c: Candidates, maxSplits: int, current: Route): seq<Route>
    decreases QuoteCount(c), |c| + 1, 0
  {
    OverKeys(c, maxSplits, current, |c|)
  }

  /** Keys i - 1 down to 0. */
  function OverKeys(c: Candidates, maxSplits: int, current: Route, i: nat): seq<Route>
    requires i <= |c|
    decreases QuoteCount(c), i, 2
  {
    if i == 0 then []
    else
      (if current.splitPercent + c[i - 1].percent > 100 || !Allowed(current.quotes, c[i - 1].percent) then []
       else OverQuotes(c, maxSplits, current, i - 1, 0))
      + OverKeys(c, maxSplits, current, i - 1)
  }

  /** Quotes j onwards under key i. */
  function OverQuotes(c: Candidates, maxSplits: int, current: Route, i: nat, j: nat): seq<Route>
    requires i < |c| && j <= |c[i].quotes|
    decreases QuoteCount(c), i, 1, |c[i].quotes| - j
  {
    if j == |c[i].quotes| then []
    else Consider(c, maxSplits, current, i, j) + OverQuotes(c, maxSplits, current, i, j + 1)
  }

  function Consider(c: Candidates, maxSplits: int, current: Route, i: nat, j: nat): seq<Route>
    requires i < |c| && j < |c[i].quotes|
    decreases QuoteCount(c), i, 0
  {
    var q := c[i].quotes[j];
    if ReusesPool(q, current.quotes) then []
    else
      var newPercentTotal := current.splitPercent + c[i].percent;
      var next := Route(current.quotes + [q], newPercentTotal, current.totalIn + q.amountIn, current.totalOut + q.amountOut);
      if newPercentTotal == 100 then [next]
      else if |current.quotes| + 1 != maxSplits then
        DropThroughShrinks(c, i, j);
        BuildRoutes(DropThrough(c, i, j), maxSplits, next)
      else []
  }

  /** The array all recursive calls push into. */
  class RouteList {
    var routes: seq<Route>

    constructor ()
      ensures routes == []
    {
      routes := [];
    }

    method Push(route: Route)
      modifies this
      ensures routes == old(routes) + [route]
    {
      routes := routes + [route];
    }
  }

  lemma Regroup(a: seq<Route>, b: seq<Route>, c: seq<Route>, d: seq<Route>)
    ensures a + ((b + c) + d) == (a + b) + (c + d)
    ensures c == [] ==> a + (b + d) == (a + b) + d
  {
  }

  method BuildRoutesInto(c: Candidates, maxSplits: int, current: Route, list: RouteList)
    modifies list
    ensures list.routes == old(list.routes) + BuildRoutes(c, maxSplits, current)
    decreases QuoteCount(c), 1
  {
    ghost var all := list.routes + BuildRoutes(c, maxSplits, current);
    var i := |c| - 1;
    while i >= 0
      invariant -1 <= i < |c|
      invariant list.routes + OverKeys(c, maxSplits, current, i + 1) == all
    {
      var newPercentTotal := current.splitPercent + c[i].percent;
      var nextPercentIsLarger :=
        |current.quotes| > 0 && c[i].percent > current.quotes[|current.quotes| - 1].splitPercent;
      ghost var before := list.routes;
      if !(newPercentTotal > 100 || nextPercentIsLarger) {
        OverQuotesInto(c, maxSplits, current, i, list);
        Regroup(before, OverQuotes(c, maxSplits, current, i, 0), [], OverKeys(c, maxSplits, current, i));
      } else {
        assert OverKeys(c, maxSplits, current, i + 1) == [] + OverKeys(c, maxSplits, current, i);
      }
      i := i - 1;
    }
  }

  /** The inner loop, over the quotes of one percentage that is not skipped. */
  method OverQuotesInto(c: Candidates, maxSplits: int, current: Route, i: nat, list: RouteList)
    requires i < |c|
    modifies list
    ensures list.routes == old(list.routes) + OverQuotes(c, maxSplits, current, i, 0)
    decreases QuoteCount(c), 0
  {
    ghost var all := list.routes + OverQuotes(c, maxSplits, current, i, 0);
    var newPercentTotal := current.splitPercent + c[i].percent;
    var j := 0;
    while j < |c[i].quotes|
      invariant 0 <= j <= |c[i].quotes|
      invariant list.routes + OverQuotes(c, maxSplits, current, i, j) == all
    {
      var q := c[i].quotes[j];
      ghost var before := list.routes;
      if !ReusesPool(q, current.quotes) {
        var next := Route(current.quotes + [q], newPercentTotal,
                          current.totalIn + q.amountIn, current.totalOut + q.amountOut);
        if newPercentTotal == 100 {
          list.Push(next);
        } else if |current.quotes| + 1 != maxSplits {
          DropThroughShrinks(c, i, j);
          BuildRoutesInto(DropThrough(c, i, j), maxSplits, next, list);
        }
      }
      assert list.routes == before + Consider(c, maxSplits, current, i, j);
      Regroup(before, Consider(c, maxSplits, current, i, j), [], OverQuotes(c, maxSplits, current, i, j + 1));
      j := j + 1;
    }
  }

  method GenerateRoutes(c: Candidates, maxSplits: int) returns (routes: seq<Route>)
    ensures routes == BuildRoutes(c, maxSplits, EMPTY_ROUTE)
  {
    var list := new RouteList();
    BuildRoutesInto(c, maxSplits, EMPTY_ROUTE, list);
    routes := list.routes;
  }
}
