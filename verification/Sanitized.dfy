/** From the filled quote map to the candidates of the route search, and what that means for routes. */
module Sanitized {
  import opened Words
  import opened Routes
  import opened Enumeration
  import opened Quotes
  import opened QuoteMap
  import opened Ranking

  // ---- Keeping the successful paths -------------------------------------------------------------------

  function FilledHops(edges: seq<HopResult>): seq<Hop> {
    if edges == [] then [] else (if edges[0].Filled? then [edges[0].hop] else []) + FilledHops(edges[1..])
  }

  function FailureCodes(edges: seq<HopResult>): seq<SwapErrorCode> {
    if edges == [] then [] else (if edges[0].Failed? then [edges[0].error] else []) + FailureCodes(edges[1..])
  }

  datatype Cleaned = Cleaned(quotes: seq<PathQuote>, errors: set<SwapErrorCode>)

  /** One entry: a quote, or the error of its first failure; reading a missing element throws. */
  function CleanEntry(entry: Option<PathEntry>, percent: int, p: nat, before: Cleaned): Option<Cleaned> {
    if entry.None? then None
    else
      var hops, path := FilledHops(entry.value.calculatedEdgeQuotes), entry.value.path;
      if |hops| == |path| then
        if hops == [] then None
        else Some(before.(quotes := before.quotes +
          [PathQuote(percent, p, path, hops[0].amountIn, hops[|hops| - 1].amountOut, hops)]))
      else
        var failures := FailureCodes(entry.value.calculatedEdgeQuotes);
        if failures == [] then None else Some(before.(errors := before.errors + {failures[0]}))
  }

  function CleanRow(percent: int, row: Row, n: nat): Option<Cleaned>
    requires n <= |row|
  {
    if n == 0 then Some(Cleaned([], {}))
    else
      var before := CleanRow(percent, row, n - 1);
      if before.None? then None else CleanEntry(row[n - 1], percent, n - 1, before.value)
  }

  method SanitizeRow(percent: int, row: Row) returns (r: Option<Cleaned>)
    ensures r == CleanRow(percent, row, |row|)
  {
    var cleaned := Cleaned([], {});
    var p := 0;
    while p < |row|
      invariant 0 <= p <= |row|
      invariant CleanRow(percent, row, p) == Some(cleaned)
    {
      var next := CleanEntry(row[p], percent, p, cleaned);
      if next.None? {
        MissingStaysMissing(percent, row, p + 1, |row|);
        return None;
      }
      cleaned := next.value;
      p := p + 1;
    }
    return Some(cleaned);
  }

  lemma {:induction false} MissingStaysMissing(percent: int, row: Row, m: nat, n: nat)
    requires m <= n <= |row| && CleanRow(percent, row, m).None?
    ensures CleanRow(percent, row, n).None?
    decreases n
  {
    if m < n {
      MissingStaysMissing(percent, row, m, n - 1);
    }
  }

  lemma {:induction false} FilledMeansAll(edges: seq<HopResult>)
    ensures |FilledHops(edges)| <= |edges|
    ensures |FilledHops(edges)| == |edges| <==> AllFilled(edges)
    ensures AllFilled(edges) ==> forall i :: 0 <= i < |edges| ==> FilledHops(edges)[i] == edges[i].hop
  {
    if edges != [] {
      FilledMeansAll(edges[1..]);
      assert AllFilled(edges) ==> AllFilled(edges[1..]);
      if AllFilled(edges[1..]) && edges[0].Filled? {
        forall i | 0 <= i < |edges|
          ensures edges[i].Filled?
        {
          assert i > 0 ==> edges[i] == edges[1..][i - 1];
        }
      }
    }
  }

  /** The errors of all failed hops. */
  ghost function ErrorsOf(edges: seq<HopResult>): set<SwapErrorCode> {
    set i | 0 <= i < |edges| && edges[i].Failed? :: edges[i].error
  }

  /** With a single failure, the first failure is the failure. */
  lemma {:induction false} FirstFailureIsTheFailure(edges: seq<HopResult>, i: nat)
    requires i < |edges| && edges[i].Failed? && forall j :: 0 <= j < |edges| && j != i ==> !edges[j].Failed?
    ensures FailureCodes(edges) != [] && FailureCodes(edges)[0] == edges[i].error
  {
    if i > 0 {
      FirstFailureIsTheFailure(edges[1..], i - 1);
    }
  }

  /** The errors of all failed hops of the first n paths of a percentage, and of the first percentages. */
  ghost function RowErrors(job: Job, oracle: SwapOracle, a: nat, n: nat): set<SwapErrorCode>
    requires a < |job.percents| == |job.amounts| && n <= |job.paths|
  {
    if n == 0 then {} else RowErrors(job, oracle, a, n - 1) + PathErrors(job, oracle, a, n - 1)
  }

  ghost function PathErrors(job: Job, oracle: SwapOracle, a: nat, p: nat): set<SwapErrorCode>
    requires a < |job.percents| == |job.amounts| && p < |job.paths|
  {
    ErrorsOf(Quoted(job, job.paths[p], job.amounts[a], oracle, |job.paths[p]|))
  }

  ghost function AllErrors(job: Job, oracle: SwapOracle, n: nat): set<SwapErrorCode>
    requires n <= |job.percents| == |job.amounts|
  {
    if n == 0 then {} else AllErrors(job, oracle, n - 1) + RowErrors(job, oracle, n - 1, |job.paths|)
  }

  /** A quote of the map: it belongs to its percentage and path, its hops chain, and it has the split amount. */
  ghost predicate Faithful(job: Job, a: nat, q: PathQuote)
    requires a < |job.percents| == |job.amounts|
  {
    && q.splitPercent == job.percents[a]
    && q.pathIndex < |job.paths| && q.edgesPoolAddrs == job.paths[q.pathIndex]
    && |q.hops| == |q.edgesPoolAddrs| > 0
    && (forall i :: 0 <= i < |q.hops| ==> q.hops[i].pool == q.edgesPoolAddrs[i])
    && (forall i :: 0 < i < |q.hops| ==>
          q.hops[i - 1].amountOut == q.hops[i].amountIn && q.hops[i - 1].outputMint == q.hops[i].inputMint)
    && q.amountIn == q.hops[0].amountIn && q.amountOut == q.hops[|q.hops| - 1].amountOut
    && (if job.isInput then q.amountIn == job.amounts[a] else q.amountOut == job.amounts[a])
  }

  /** The quotes cleaned out of the first n paths are exactly the successful ones, in path order. */
  ghost predicate CleanedFrom(job: Job, oracle: SwapOracle, a: nat, n: nat, quotes: seq<PathQuote>)
    requires a < |job.percents| == |job.amounts| && n <= |job.paths|
  {
    && (forall i :: 0 <= i < |quotes| ==> Faithful(job, a, quotes[i]) && quotes[i].pathIndex < n)
    && (forall i, j :: 0 <= i < j < |quotes| ==> quotes[i].pathIndex < quotes[j].pathIndex)
    && (forall p :: 0 <= p < n ==> (Succeeds(job, oracle, a, p) <==> HasQuoteOf(quotes, p)))
  }

  ghost predicate Succeeds(job: Job, oracle: SwapOracle, a: nat, p: nat)
    requires a < |job.percents| == |job.amounts| && p < |job.paths|
  {
    AllFilled(Quoted(job, job.paths[p], job.amounts[a], oracle, |job.paths[p]|))
  }

  ghost predicate HasQuoteOf(quotes: seq<PathQuote>, p: nat) {
    exists i :: 0 <= i < |quotes| && quotes[i].pathIndex == p
  }

  ghost predicate NoEmptyPath(job: Job, n: nat)
    requires n <= |job.paths|
  {
    forall p :: 0 <= p < n ==> |job.paths[p]| > 0
  }

  /** Cleaning some paths fails exactly if one of them has no edges, and keeps the successful ones. */
  ghost predicate RowCleaned(job: Job, oracle: SwapOracle, a: nat, cleaned: Option<Cleaned>, n: nat)
    requires a < |job.percents| == |job.amounts| && n <= |job.paths|
  {
    && (cleaned.Some? <==> NoEmptyPath(job, n))
    && (cleaned.Some? ==> CleanedFrom(job, oracle, a, n, cleaned.value.quotes))
  }

  lemma NoEmptyPathSoFar(job: Job, n: nat)
    requires n < |job.paths|
    ensures NoEmptyPath(job, n + 1) <==> NoEmptyPath(job, n) && |job.paths[n]| > 0
  {
  }

  lemma EntryStep(job: Job, oracle: SwapOracle, a: nat, p: nat, entry: Option<PathEntry>, before: Cleaned)
    requires job.Valid() && a < |job.percents| && p < |job.paths|
    requires entry == Entry(job, oracle, a, p, |job.paths[p]|)
    requires RowCleaned(job, oracle, a, Some(before), p)
    ensures RowCleaned(job, oracle, a, CleanEntry(entry, job.percents[a], p, before), p + 1)
  {
    NoEmptyPathSoFar(job, p);
    if |job.paths[p]| > 0 {
      EntryCleans(job, oracle, a, p, entry, before);
    }
  }

  /** Taking the first failure never fails; only a path without edges makes cleaning throw. */
  lemma {:induction false} RowCleans(job: Job, oracle: SwapOracle, a: nat, row: Row, n: nat)
    requires job.Valid() && a < |job.percents| && n <= |job.paths|
    requires RowAt(job, oracle, MaxRouteLength(job.paths), a, row)
    ensures RowCleaned(job, oracle, a, CleanRow(job.percents[a], row, n), n)
  {
    if n == 0 {
    } else {
      var before := CleanRow(job.percents[a], row, n - 1);
      RowCleans(job, oracle, a, row, n - 1);
      DoneAtEnd(job, n - 1);
      NoEmptyPathSoFar(job, n - 1);
      if before.Some? {
        EntryStep(job, oracle, a, n - 1, row[n - 1], before.value);
      }
    }
  }

  lemma DoneAtEnd(job: Job, p: nat)
    requires p < |job.paths|
    ensures Done(job, p, MaxRouteLength(job.paths)) == |job.paths[p]|
  {
    MaxRouteLengthBounds(job.paths, p);
  }

  lemma EntryCleans(job: Job, oracle: SwapOracle, a: nat, p: nat, entry: Option<PathEntry>, before: Cleaned)
    requires job.Valid() && a < |job.percents| && p < |job.paths| && |job.paths[p]| > 0
    requires entry == Entry(job, oracle, a, p, |job.paths[p]|)
    requires CleanedFrom(job, oracle, a, p, before.quotes)
    ensures CleanEntry(entry, job.percents[a], p, before).Some?
    ensures CleanedFrom(job, oracle, a, p + 1, CleanEntry(entry, job.percents[a], p, before).value.quotes)
  {
    var path := job.paths[p];
    var edges := Quoted(job, path, job.amounts[a], oracle, |path|);
    FilledMeansAll(edges);
    if Succeeds(job, oracle, a, p) {
      var q := QuoteOfPath(job, oracle, a, p);
      assert CleanEntry(entry, job.percents[a], p, before) == Some(before.(quotes := before.quotes + [q]));
      AddCleaned(job, oracle, a, p, before.quotes, q);
    } else {
      FailedEntry(job, path, job.amounts[a], oracle);
      SkipCleaned(job, oracle, a, p, before.quotes);
    }
  }

  lemma QuoteOfPath(job: Job, oracle: SwapOracle, a: nat, p: nat) returns (q: PathQuote)
    requires a < |job.percents| == |job.amounts| && p < |job.paths| && |job.paths[p]| > 0
    requires Succeeds(job, oracle, a, p)
    ensures
      var hops := FilledHops(Quoted(job, job.paths[p], job.amounts[a], oracle, |job.paths[p]|));
      && |hops| == |job.paths[p]|
      && q == PathQuote(job.percents[a], p, job.paths[p], hops[0].amountIn, hops[|hops| - 1].amountOut, hops)
    ensures Faithful(job, a, q)
  {
    var path := job.paths[p];
    var edges := Quoted(job, path, job.amounts[a], oracle, |path|);
    FilledMeansAll(edges);
    HopsChainExactly(job, path, job.amounts[a], oracle);
    var hops := FilledHops(edges);
    q := PathQuote(job.percents[a], p, path, hops[0].amountIn, hops[|hops| - 1].amountOut, hops);
  }

  lemma AddCleaned(job: Job, oracle: SwapOracle, a: nat, p: nat, quotes: seq<PathQuote>, q: PathQuote)
    requires a < |job.percents| == |job.amounts| && p < |job.paths|
    requires CleanedFrom(job, oracle, a, p, quotes)
    requires Faithful(job, a, q) && q.pathIndex == p && Succeeds(job, oracle, a, p)
    ensures CleanedFrom(job, oracle, a, p + 1, quotes + [q])
  {
    assert (quotes + [q])[|quotes|].pathIndex == p;
    assert HasQuoteOf(quotes + [q], p);
    forall k | 0 <= k < p
      ensures Succeeds(job, oracle, a, k) <==> HasQuoteOf(quotes + [q], k)
    {
      KeepsWitness(quotes, q, k);
    }
  }

  lemma SkipCleaned(job: Job, oracle: SwapOracle, a: nat, p: nat, quotes: seq<PathQuote>)
    requires a < |job.percents| == |job.amounts| && p < |job.paths|
    requires CleanedFrom(job, oracle, a, p, quotes) && !Succeeds(job, oracle, a, p)
    ensures CleanedFrom(job, oracle, a, p + 1, quotes)
  {
  }

  /** A failed path has a first failure, and its error is the only one. */
  lemma FailedEntry(job: Job, path: Path, amount: nat, oracle: SwapOracle)
    requires |path| > 0
    ensures
      var edges := Quoted(job, path, amount, oracle, |path|);
      if AllFilled(edges) then ErrorsOf(edges) == {}
      else FailureCodes(edges) != [] && ErrorsOf(edges) == {FailureCodes(edges)[0]}
  {
    var edges := Quoted(job, path, amount, oracle, |path|);
    if !AllFilled(edges) {
      OneFailurePerFailedPath(job, path, amount, oracle);
      var i :| OnlyFailure(edges, i, job.isInput);
      assert i in Failures(edges);
      forall j | 0 <= j < |edges| && j != i
        ensures !edges[j].Failed?
      {
        assert j !in Failures(edges);
      }
      FirstFailureIsTheFailure(edges, i);
    }
  }

  lemma EntryErrors(job: Job, oracle: SwapOracle, a: nat, p: nat, entry: Option<PathEntry>, before: Cleaned)
    requires a < |job.percents| == |job.amounts| && p < |job.paths| && |job.paths[p]| > 0
    requires entry == Entry(job, oracle, a, p, |job.paths[p]|)
    requires CleanEntry(entry, job.percents[a], p, before).Some?
    ensures CleanEntry(entry, job.percents[a], p, before).value.errors == before.errors + PathErrors(job, oracle, a, p)
  {
    FilledMeansAll(entry.value.calculatedEdgeQuotes);
    FailedEntry(job, job.paths[p], job.amounts[a], oracle);
  }

  lemma {:induction false} RowErrorsMatch(job: Job, oracle: SwapOracle, a: nat, row: Row, n: nat)
    requires job.Valid() && a < |job.percents| && n <= |job.paths|
    requires RowAt(job, oracle, MaxRouteLength(job.paths), a, row)
    requires CleanRow(job.percents[a], row, n).Some? && NoEmptyPath(job, n)
    ensures CleanRow(job.percents[a], row, n).value.errors == RowErrors(job, oracle, a, n)
  {
    if n > 0 {
      RowErrorsMatch(job, oracle, a, row, n - 1);
      DoneAtEnd(job, n - 1);
      EntryErrors(job, oracle, a, n - 1, row[n - 1], CleanRow(job.percents[a], row, n - 1).value);
    }
  }

  lemma KeepsWitness(quotes: seq<PathQuote>, q: PathQuote, k: nat)
    requires q.pathIndex != k
    ensures HasQuoteOf(quotes + [q], k) <==> HasQuoteOf(quotes, k)
  {
    if i :| 0 <= i < |quotes| && quotes[i].pathIndex == k {
      assert (quotes + [q])[i].pathIndex == k;
    }
  }

  // ---- Ranking and pruning -----------------------------------------------------------------------------

  /** Best first: most output for an exact input, least input for an exact output. */
  function QuoteCost(isInput: bool): PathQuote -> int {
    (q: PathQuote) => if isInput then -(q.amountOut as int) else q.amountIn
  }

  function Prune(quotes: seq<PathQuote>, isInput: bool, pruneN: nat): seq<PathQuote> {
    var ranked := Rank(quotes, QuoteCost(isInput));
    if |ranked| <= pruneN then ranked else ranked[..pruneN]
  }

  /** Pruning keeps the best: whatever is dropped does not cost less than anything kept. */
  lemma PruneKeepsBest(quotes: seq<PathQuote>, isInput: bool, pruneN: nat)
    requires Distinct(quotes)
    ensures
      var kept, cost := Prune(quotes, isInput, pruneN), QuoteCost(isInput);
      && Distinct(kept) && (forall q :: q in kept ==> q in quotes)
      && |kept| == (if |quotes| <= pruneN then |quotes| else pruneN)
      && Ranked(kept, cost)
      && (forall q, r :: q in kept && r in quotes && r !in kept ==> cost(q) <= cost(r))
  {
    var cost := QuoteCost(isInput);
    var ranked := Rank(quotes, cost);
    RankSorts(quotes, cost);
    SamePermutation(quotes, ranked);
    var kept := Prune(quotes, isInput, pruneN);
    forall q, r | q in kept && r in quotes && r !in kept
      ensures cost(q) <= cost(r)
    {
      assert r in multiset(ranked);
      var j :| 0 <= j < |ranked| && ranked[j] == r;
      var i :| 0 <= i < |kept| && kept[i] == q;
      assert kept[i] == ranked[i] && i < j;
    }
  }

  lemma SamePermutation(quotes: seq<PathQuote>, ranked: seq<PathQuote>)
    requires Distinct(quotes) && multiset(ranked) == multiset(quotes)
    ensures Distinct(ranked) && |ranked| == |quotes| && forall q :: q in ranked ==> q in quotes
  {
    assert |multiset(ranked)| == |ranked| && |multiset(quotes)| == |quotes|;
    DistinctIsSimple(quotes);
    SimpleIsDistinct(ranked);
    forall q | q in ranked
      ensures q in quotes
    {
      assert q in multiset(ranked);
    }
  }

  lemma {:induction false} DistinctIsSimple(quotes: seq<PathQuote>)
    requires Distinct(quotes)
    ensures forall q :: multiset(quotes)[q] <= 1
  {
    if quotes != [] {
      var front, last := quotes[..|quotes| - 1], quotes[|quotes| - 1];
      DistinctIsSimple(front);
      assert quotes == front + [last];
      assert last !in front;
    }
  }

  lemma SimpleIsDistinct(quotes: seq<PathQuote>)
    requires forall q :: multiset(quotes)[q] <= 1
    ensures Distinct(quotes)
  {
    forall i, j | 0 <= i < j < |quotes|
      ensures quotes[i] != quotes[j]
    {
      var x, front, rest := quotes[j], quotes[..j], quotes[j + 1..];
      assert quotes == front + [x] + rest;
      assert front[i] == quotes[i];
      assert multiset(front)[quotes[i]] >= 1;
      assert multiset(quotes)[x] == multiset(front)[x] + 1 + multiset(rest)[x];
    }
  }

  // ---- The whole quote map ------------------------------------------------------------------------------

  /** What quoting and cleaning one percentage yields, pruned to the best. */
  ghost predicate PrunedBucket(job: Job, oracle: SwapOracle, pruneN: nat, a: nat, bucket: Bucket)
    requires a < |job.percents| == |job.amounts|
  {
    && bucket.percent == job.percents[a]
    && exists quotes ::
         CleanedFrom(job, oracle, a, |job.paths|, quotes) && bucket.quotes == Prune(quotes, job.isInput, pruneN)
  }

  /** One bucket per percentage, in ascending order. */
  ghost predicate SanitizedMap(job: Job, oracle: SwapOracle, pruneN: nat, c: Candidates)
    requires job.Valid()
  {
    |c| == |job.percents| && FirstBuckets(job, oracle, pruneN, c)
  }

  ghost predicate FirstBuckets(job: Job, oracle: SwapOracle, pruneN: nat, c: Candidates)
    requires job.Valid() && |c| <= |job.percents|
  {
    forall a :: 0 <= a < |c| ==> PrunedBucket(job, oracle, pruneN, a, c[a])
  }

  lemma AddErrors(job: Job, oracle: SwapOracle, n: nat)
    requires n < |job.percents| == |job.amounts|
    ensures AllErrors(job, oracle, n + 1) == AllErrors(job, oracle, n) + RowErrors(job, oracle, n, |job.paths|)
  {
  }

  lemma AddBucket(job: Job, oracle: SwapOracle, pruneN: nat, c: Candidates, bucket: Bucket)
    requires job.Valid() && |c| < |job.percents| && FirstBuckets(job, oracle, pruneN, c)
    requires PrunedBucket(job, oracle, pruneN, |c|, bucket)
    ensures FirstBuckets(job, oracle, pruneN, c + [bucket])
  {
  }

  /** The request throws, on reading a hole, when a path without edges is among others. */
  ghost predicate HitsHole(job: Job) {
    job.percents != [] && MaxRouteLength(job.paths) > 0 && !NoEmptyPath(job, |job.paths|)
  }

  /** Cleaning a finished row gives its bucket and its errors, or throws on a path without edges. */
  lemma RowOutcome(job: Job, oracle: SwapOracle, pruneN: nat, a: nat, row: Row)
    requires job.Valid() && a < |job.percents| && RowAt(job, oracle, MaxRouteLength(job.paths), a, row)
    ensures
      var cleaned := CleanRow(job.percents[a], row, |row|);
      && (cleaned.Some? <==> NoEmptyPath(job, |job.paths|))
      && (cleaned.Some? ==>
            && PrunedBucket(job, oracle, pruneN, a,
                            Bucket(job.percents[a], Prune(cleaned.value.quotes, job.isInput, pruneN)))
            && cleaned.value.errors == RowErrors(job, oracle, a, |job.paths|))
  {
    RowCleans(job, oracle, a, row, |row|);
    if NoEmptyPath(job, |job.paths|) {
      RowErrorsMatch(job, oracle, a, row, |row|);
    }
  }

  /** One key: its successful quotes, ranked and cut to the best, and the errors of the others. */
  method SanitizeKey(job: Job, ghost oracle: SwapOracle, ghost a: nat, percent: int, row: Row, pruneN: nat)
    returns (r: Option<(Bucket, set<SwapErrorCode>)>)
    requires job.Valid() && a < |job.percents| && percent == job.percents[a]
    requires RowAt(job, oracle, MaxRouteLength(job.paths), a, row)
    ensures r.Some? <==> NoEmptyPath(job, |job.paths|)
    ensures r.Some? ==> PrunedBucket(job, oracle, pruneN, a, r.value.0)
    ensures r.Some? ==> r.value.1 == RowErrors(job, oracle, a, |job.paths|)
  {
    RowOutcome(job, oracle, pruneN, a, row);
    var cleaned := SanitizeRow(percent, row);
    if cleaned.None? {
      return None;
    }
    return Some((Bucket(percent, Prune(cleaned.value.quotes, job.isInput, pruneN)), cleaned.value.errors));
  }

  method SanitizeQuoteMap(job: Job, ghost oracle: SwapOracle, entries: map<int, Row>, pruneN: nat)
    returns (r: Option<Candidates>, errors: set<SwapErrorCode>)
    requires job.Valid()
    requires forall a :: 0 <= a < |job.percents| ==>
      job.percents[a] in entries && RowAt(job, oracle, MaxRouteLength(job.paths), a, entries[job.percents[a]])
    ensures r.None? <==> job.percents != [] && !NoEmptyPath(job, |job.paths|)
    ensures r.Some? ==> SanitizedMap(job, oracle, pruneN, r.value) && errors == AllErrors(job, oracle, |job.percents|)
  {
    errors := {};
    var c: Candidates := [];
    var a := 0;
    while a < |job.percents|
      invariant 0 <= a <= |job.percents| && |c| == a
      invariant FirstBuckets(job, oracle, pruneN, c)
      invariant a > 0 ==> NoEmptyPath(job, |job.paths|)
      invariant errors == AllErrors(job, oracle, a)
    {
      var key := SanitizeKey(job, oracle, a, job.percents[a], entries[job.percents[a]], pruneN);
      if key.None? {
        return None, errors;
      }
      AddBucket(job, oracle, pruneN, c, key.value.0);
      AddErrors(job, oracle, a);
      c := c + [key.value.0];
      errors := errors + key.value.1;
      a := a + 1;
    }
    return Some(c), errors;
  }

  /** Every hop's batch of requests can be fetched and no path is a hole. */
  ghost predicate CanQuote(job: Job, fetches: int -> bool) {
    !HitsHole(job) && forall hop :: 0 <= hop < MaxRouteLength(job.paths) ==> fetches(hop)
  }

  /** The failures of all hops, if there is any. */
  ghost function JobErrors(job: Job, oracle: SwapOracle): set<SwapErrorCode>
    requires job.Valid()
  {
    if MaxRouteLength(job.paths) == 0 then {} else AllErrors(job, oracle, |job.percents|)
  }

  /** Without any hop there are no keys at all; otherwise there is one for each percentage. */
  method GetQuoteMap(job: Job, oracle: SwapOracle, fetches: int -> bool, pruneN: nat)
    returns (r: Option<Candidates>, errors: set<SwapErrorCode>)
    requires job.Valid()
    ensures r.Some? <==> CanQuote(job, fetches)
    ensures r.Some? ==> errors == JobErrors(job, oracle)
    ensures r.Some? ==> if MaxRouteLength(job.paths) == 0 then r.value == [] else SanitizedMap(job, oracle, pruneN, r.value)
  {
    var board := new QuoteBoard();
    var quoted := board.RunHops(job, oracle, fetches);
    if !quoted {
      return None, {};
    }
    if MaxRouteLength(job.paths) == 0 {
      return Some([]), {};
    }
    r, errors := SanitizeQuoteMap(job, oracle, board.entries, pruneN);
  }

  ghost predicate PositivePercents(job: Job) {
    forall a :: 0 <= a < |job.percents| ==> job.percents[a] >= 1
  }

  lemma CleanedIsDistinct(job: Job, oracle: SwapOracle, a: nat, quotes: seq<PathQuote>)
    requires a < |job.percents| == |job.amounts| && CleanedFrom(job, oracle, a, |job.paths|, quotes)
    ensures Distinct(quotes)
  {
  }

  /** The sanitized map is fit for the route search, and every quote in it is faithful. */
  lemma SanitizedIsWellFormed(job: Job, oracle: SwapOracle, pruneN: nat, c: Candidates)
    requires job.Valid() && PositivePercents(job) && SanitizedMap(job, oracle, pruneN, c)
    ensures WellFormed(c) && DistinctQuotes(c)
    ensures forall a, q :: 0 <= a < |c| && q in c[a].quotes ==> Faithful(job, a, q)
  {
    forall a | 0 <= a < |c|
      ensures Distinct(c[a].quotes) && forall q :: q in c[a].quotes ==> Faithful(job, a, q)
    {
      assert PrunedBucket(job, oracle, pruneN, a, c[a]);
      var quotes :| CleanedFrom(job, oracle, a, |job.paths|, quotes) && c[a].quotes == Prune(quotes, job.isInput, pruneN);
      CleanedIsDistinct(job, oracle, a, quotes);
      PruneKeepsBest(quotes, job.isInput, pruneN);
    }
    forall a, j | 0 <= a < |c| && 0 <= j < |c[a].quotes|
      ensures c[a].quotes[j].splitPercent == c[a].percent
    {
      assert c[a].quotes[j] in c[a].quotes;
      assert PrunedBucket(job, oracle, pruneN, a, c[a]);
    }
  }

  // ---- Routes carry almost the whole trade -------------------------------------------------------------------

  /** The amount of a quote on the side the trade specifies. */
  function SpecifiedAmount(q: PathQuote, isInput: bool): nat {
    if isInput then q.amountIn else q.amountOut
  }

  ghost function SumSpecified(quotes: seq<PathQuote>, isInput: bool): int {
    if isInput then SumIn(quotes) else SumOut(quotes)
  }

  ghost predicate Shares(quotes: seq<PathQuote>, trade: nat, isInput: bool) {
    forall q :: q in quotes ==> q.splitPercent >= 1 && SpecifiedAmount(q, isInput) == SplitAmount(trade, q.splitPercent)
  }

  /** Each share loses less than one unit to rounding. */
  lemma {:induction false} SharesAddUp(quotes: seq<PathQuote>, trade: nat, isInput: bool)
    requires Shares(quotes, trade, isInput)
    ensures 100 * SumSpecified(quotes, isInput) <= trade * SumPercent(quotes)
    ensures trade * SumPercent(quotes) <= 100 * SumSpecified(quotes, isInput) + 99 * |quotes|
  {
    if quotes == [] {
    } else {
      var front, last := quotes[..|quotes| - 1], quotes[|quotes| - 1];
      SharesAddUp(front, trade, isInput);
      assert last in quotes;
      assert trade * (SumPercent(front) + last.splitPercent) == trade * SumPercent(front) + trade * last.splitPercent;
    }
  }

  /** The specified side of a route adds up to the trade, less under one unit for each of its quotes. */
  ghost predicate CarriesTrade(r: Route, trade: nat, isInput: bool) {
    && r.totalIn == SumIn(r.quotes) && r.totalOut == SumOut(r.quotes)
    && trade - |r.quotes| < (if isInput then r.totalIn else r.totalOut) <= trade
  }

  /** The amounts of a job are the shares of a trade. */
  ghost predicate SharesOf(job: Job, trade: nat) {
    && job.Valid() && PositivePercents(job)
    && forall a :: 0 <= a < |job.percents| ==> job.amounts[a] == SplitAmount(trade, job.percents[a])
  }

  /**
    Every route the search builds takes in almost the whole trade, if the input is exact, or delivers
    almost all of it, if the output is.
  */
  lemma RoutesCarryTheTrade(job: Job, oracle: SwapOracle, pruneN: nat, c: Candidates, maxSplits: int, trade: nat, r: Route)
    requires SharesOf(job, trade) && SanitizedMap(job, oracle, pruneN, c)
    requires r in BuildRoutes(c, maxSplits, EMPTY_ROUTE)
    ensures CarriesTrade(r, trade, job.isInput)
  {
    SanitizedIsWellFormed(job, oracle, pruneN, c);
    EmittedRoute(c, maxSplits, r);
    forall q | q in r.quotes
      ensures q.splitPercent >= 1 && SpecifiedAmount(q, job.isInput) == SplitAmount(trade, q.splitPercent)
    {
      assert q in SetOf(r.quotes);
      InFlat(c, |c|, q);
    }
    SharesAddUp(r.quotes, trade, job.isInput);
  }
}
