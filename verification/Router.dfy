/** From a trade to its best routes: splitting, quoting, searching and ranking in one call (router/router-impl.ts). */
module Router {
  import opened Routes
  import opened Enumeration
  import opened Quotes
  import opened Sanitized
  import opened BestRoutes
  import Selection

  datatype Trade = Trade(tokenIn: Address, tokenOut: Address, amount: nat, isInput: bool)

  datatype RoutingOptions = RoutingOptions(percentIncrement: nat, numTopPartialQuotes: nat, numTopRoutes: nat, maxSplits: int)

  /**
    What a search depends on besides the trade: the answers to quote requests, for which hops the batch of
    requests can be fetched, and the sampling of the selection.
  */
  datatype Surroundings = Surroundings(oracle: SwapOracle, fetches: int -> bool, sampling: Selection.Sampling)

  datatype RouteError = RouteDoesNotExist | TradeAmountTooHigh | ZeroInputAmount | General

  datatype Routing = Found(routes: seq<Route>) | NotFound(error: RouteError)

  /** The quoting job of a trade: every multiple of the increment up to 100 percent, with its share. */
  ghost predicate JobOf(job: Job, trade: Trade, paths: seq<Path>, percentIncrement: nat)
    requires percentIncrement > 0
  {
    && job == Job(trade.tokenIn, trade.tokenOut, paths, job.percents, job.amounts, trade.isInput)
    && |job.percents| == 100 / percentIncrement && SharesOf(job, trade.amount)
    && forall a :: 0 <= a < |job.percents| ==> job.percents[a] == (a + 1) * percentIncrement
  }

  /** The best quotes of every percentage, or none if no path has an edge. */
  ghost predicate QuotedFor(job: Job, options: RoutingOptions, oracle: SwapOracle, c: Candidates)
    requires job.Valid()
  {
    if MaxRouteLength(job.paths) == 0 then c == [] else SanitizedMap(job, oracle, options.numTopPartialQuotes, c)
  }

  /**
    The routes of a trade, best first, and which error is raised when. Finding no route is an error only if
    some quote failed for a trade too large.
  */
  method FindAllRoutes(trade: Trade, paths: seq<Path>, options: RoutingOptions, world: Surroundings)
    returns (r: Routing, ghost job: Job, ghost c: Candidates, ghost selected: seq<Route>)
    requires options.percentIncrement > 0 && Selection.Moderate(world.sampling)
    ensures JobOf(job, trade, paths, options.percentIncrement)
    ensures r == NotFound(RouteDoesNotExist) <==> paths == []
    ensures r == NotFound(ZeroInputAmount) <==> paths != [] && trade.amount == 0
    ensures r == NotFound(General) <==> paths != [] && trade.amount > 0 && !CanQuote(job, world.fetches)
    ensures paths != [] && trade.amount > 0 && CanQuote(job, world.fetches) ==>
      && QuotedFor(job, options, world.oracle, c)
      && Selected(c, trade.isInput, options.numTopRoutes, options.maxSplits, selected)
      && r == if selected == [] && TickArraySequenceInvalid in JobErrors(job, world.oracle) then NotFound(TradeAmountTooHigh)
              else Found(selected)
  {
    var percents, amounts := SplitPercentageAmounts(trade.amount, options.percentIncrement);
    var work := Job(trade.tokenIn, trade.tokenOut, paths, percents, amounts, trade.isInput);
    job, c, selected := work, [], [];
    if paths == [] {
      return NotFound(RouteDoesNotExist), job, c, selected;
    }
    if trade.amount == 0 {
      return NotFound(ZeroInputAmount), job, c, selected;
    }
    var quoteMap, failures := GetQuoteMap(work, world.oracle, world.fetches, options.numTopPartialQuotes);
    if quoteMap.None? {
      return NotFound(General), job, c, selected;
    }
    var routes := GetBestRoutes(quoteMap.value, trade.isInput, options.numTopRoutes, options.maxSplits, world.sampling);
    c, selected := quoteMap.value, routes;
    if routes == [] && TickArraySequenceInvalid in failures {
      return NotFound(TradeAmountTooHigh), job, c, selected;
    }
    r := Found(routes);
  }

  // ---- What is found ------------------------------------------------------------------------------------------

  lemma QuotedIsWellFormed(job: Job, options: RoutingOptions, oracle: SwapOracle, c: Candidates)
    requires job.Valid() && PositivePercents(job) && QuotedFor(job, options, oracle, c)
    ensures WellFormed(c) && DistinctQuotes(c) && QuotesAreEnds(c)
  {
    if MaxRouteLength(job.paths) > 0 {
      SanitizedIsWellFormed(job, oracle, options.numTopPartialQuotes, c);
      forall a, q | 0 <= a < |c| && q in c[a].quotes
        ensures AmountsAreEnds(q)
      {
        assert Faithful(job, a, q);
      }
    }
  }

  /**
    Every route found, those listed separately included, is a valid split of the best quotes and carries the
    trade: it takes in, or delivers, at most its amount and more than that less one unit per quote.
  */
  lemma FoundRoutesCarryTheTrade(job: Job, options: RoutingOptions, oracle: SwapOracle, c: Candidates,
                                 selected: seq<Route>, trade: nat, r: Route)
    requires SharesOf(job, trade) && QuotedFor(job, options, oracle, c)
    requires Selected(c, job.isInput, options.numTopRoutes, options.maxSplits, selected) && r in selected
    ensures IsSplit(c, options.maxSplits, SetOf(r.quotes)) && CarriesTrade(r, trade, job.isInput)
  {
    QuotedIsWellFormed(job, options, oracle, c);
    SelectedAreRoutes(c, job.isInput, options.numTopRoutes, options.maxSplits, selected);
    EmittedRoute(c, options.maxSplits, r);
    if MaxRouteLength(job.paths) > 0 {
      RoutesCarryTheTrade(job, oracle, options.numTopPartialQuotes, c, options.maxSplits, trade, r);
    }
  }

  /**
    If a valid split of the best quotes exists, a route is found, and the first one found is as good as any
    split: no more input for an exact output, no less output for an exact input.
  */
  lemma FirstRouteIsBest(job: Job, options: RoutingOptions, oracle: SwapOracle, c: Candidates, selected: seq<Route>,
                         chosen: set<PathQuote>)
    requires job.Valid() && PositivePercents(job) && QuotedFor(job, options, oracle, c)
    requires Selected(c, job.isInput, options.numTopRoutes, options.maxSplits, selected)
    requires options.numTopRoutes >= 1 && IsSplit(c, options.maxSplits, chosen)
    ensures selected != []
    ensures exists r :: && r in BuildRoutes(c, options.maxSplits, EMPTY_ROUTE) && SetOf(r.quotes) == chosen
                        && (if job.isInput then r.totalOut <= selected[0].totalOut else selected[0].totalIn <= r.totalIn)
  {
    QuotedIsWellFormed(job, options, oracle, c);
    FirstIsBest(c, job.isInput, options.numTopRoutes, options.maxSplits, selected, chosen);
  }
}
