/** The quote map filled in place, hop by hop over all percentages and paths (router/quote-map.ts). */
module QuoteMap {
  import opened Words
  import opened Routes
  import opened Quotes

  datatype QuoteRequest = QuoteRequest(
    splitPercent: int, pathIndex: nat, edgeIndex: nat, quoteIndex: nat,
    pool: Address, tradeTokenMint: Address, tokenAmount: nat, isInput: bool)

  /** How many edges of a path have been quoted after some iterations of the hop loop. */
  function Done(job: Job, p: nat, iterations: nat): nat
    requires p < |job.paths|
  {
    var length, longest := |job.paths[p]|, MaxRouteLength(job.paths);
    if job.isInput then (if iterations <= length then iterations else length)
    else if length + iterations >= longest then length + iterations - longest
    else 0
  }

  /** The hop of an iteration; exact outputs go backwards. */
  function HopOf(job: Job, iteration: nat): int {
    if job.isInput then iteration else MaxRouteLength(job.paths) - 1 - iteration
  }

  lemma DoneAdvances(job: Job, p: nat, iteration: nat)
    requires p < |job.paths| && iteration < MaxRouteLength(job.paths)
    ensures
      var d, d', hop, length := Done(job, p, iteration), Done(job, p, iteration + 1), HopOf(job, iteration), |job.paths[p]|;
      && 0 <= hop && d <= length && d' <= length
      && (hop >= length ==> d' == d)
      && (hop < length ==> d' == d + 1 && hop == EdgeAt(length, d, job.isInput))
      && (iteration + 1 == MaxRouteLength(job.paths) ==> d' == length)
  {
    MaxRouteLengthBounds(job.paths, p);
  }

  lemma DoneInitially(job: Job, p: nat)
    requires p < |job.paths|
    ensures Done(job, p, 0) == 0
  {
    MaxRouteLengthBounds(job.paths, p);
  }

  /** The entry of a percentage and path after the given number of quoted edges; absent before the first. */
  function Entry(job: Job, oracle: SwapOracle, a: nat, p: nat, d: nat): Option<PathEntry>
    requires a < |job.percents| == |job.amounts| && p < |job.paths| && d <= |job.paths[p]|
  {
    if d == 0 then None
    else Some(PathEntry(job.paths[p], job.percents[a], Quoted(job, job.paths[p], job.amounts[a], oracle, d)))
  }

  /** The entry between building and answering the requests of a hop: the first hop sets it up empty. */
  function Opened(job: Job, oracle: SwapOracle, a: nat, p: nat, d: nat, hop: int): Option<PathEntry>
    requires a < |job.percents| == |job.amounts| && p < |job.paths| && d <= |job.paths[p]|
  {
    if d == 0 && hop < |job.paths[p]| then
      Some(PathEntry(job.paths[p], job.percents[a], Quoted(job, job.paths[p], job.amounts[a], oracle, 0)))
    else Entry(job, oracle, a, p, d)
  }

  /** Token and amount a path asks for in a hop, if it asks at all. */
  function Asks(job: Job, oracle: SwapOracle, a: nat, p: nat, d: nat, hop: int): Option<(Address, nat)>
    requires a < |job.percents| == |job.amounts| && p < |job.paths| && d <= |job.paths[p]|
  {
    if hop >= |job.paths[p]| || d == |job.paths[p]| then None
    else NextInput(job, job.amounts[a], Quoted(job, job.paths[p], job.amounts[a], oracle, d), d)
  }

  type Key = (nat, nat)

  ghost predicate ValidKey(job: Job, key: Key) {
    key.0 < |job.percents| == |job.amounts| && key.1 < |job.paths|
  }

  predicate Precedes(k: Key, l: Key) {
    k.0 < l.0 || (k.0 == l.0 && k.1 < l.1)
  }

  /** The request of a key, which must ask for something. */
  function RequestOf(job: Job, oracle: SwapOracle, key: Key, iteration: nat, quoteIndex: nat): QuoteRequest
    requires key.0 < |job.percents| == |job.amounts| && key.1 < |job.paths| && iteration < MaxRouteLength(job.paths)
    requires AsksAt(job, oracle, key, iteration).Some?
  {
    DoneAdvances(job, key.1, iteration);
    var hop := HopOf(job, iteration);
    var asked := AsksAt(job, oracle, key, iteration).value;
    QuoteRequest(job.percents[key.0], key.1, hop, quoteIndex, job.paths[key.1][hop], asked.0, asked.1, job.isInput)
  }

  /** What a hop reads of the previous one is what the edge-by-edge quoting passes on. */
  lemma AsksFollowsLastHop(job: Job, oracle: SwapOracle, a: nat, p: nat, iteration: nat)
    requires a < |job.percents| == |job.amounts| && p < |job.paths| && iteration < MaxRouteLength(job.paths)
    ensures
      var d, hop := Done(job, p, iteration), HopOf(job, iteration);
      d <= |job.paths[p]| &&
      (hop < |job.paths[p]| ==>
        && d < |job.paths[p]|
        && (d == 0 <==> if job.isInput then hop == 0 else hop == |job.paths[p]| - 1)
        && (d > 0 ==>
              var last := Quoted(job, job.paths[p], job.amounts[a], oracle, d)[if job.isInput then hop - 1 else hop + 1];
              Asks(job, oracle, a, p, d, hop) == if last.Filled? then Some(HandOn(last.hop, job.isInput)) else None))
  {
    DoneAdvances(job, p, iteration);
  }

  /** Answering what was asked completes the step; a path that asks for nothing has already completed it. */
  lemma AnswerCompletesStep(job: Job, oracle: SwapOracle, a: nat, p: nat, iteration: nat)
    requires a < |job.percents| == |job.amounts| && p < |job.paths| && iteration < MaxRouteLength(job.paths)
    ensures
      var d, d', hop := Done(job, p, iteration), Done(job, p, iteration + 1), HopOf(job, iteration);
      d <= |job.paths[p]| && d' <= |job.paths[p]| &&
      var asked, opened' := Asks(job, oracle, a, p, d, hop), Opened(job, oracle, a, p, d, hop);
      var after := Entry(job, oracle, a, p, d');
      if asked.None? then opened' == after
      else
        && 0 <= hop < |job.paths[p]| && opened'.Some? && after.Some?
        && |opened'.value.calculatedEdgeQuotes| == |job.paths[p]|
        && var pool := job.paths[p][hop];
        after == Some(opened'.value.(calculatedEdgeQuotes := opened'.value.calculatedEdgeQuotes[
          hop := ResultOf(pool, asked.value.0, asked.value.1, job.isInput,
                          oracle(pool, asked.value.0, asked.value.1, job.isInput))]))
  {
    DoneAdvances(job, p, iteration);
  }

  function AsksAt(job: Job, oracle: SwapOracle, key: Key, iteration: nat): Option<(Address, nat)>
    requires key.0 < |job.percents| == |job.amounts| && key.1 < |job.paths| && iteration < MaxRouteLength(job.paths)
  {
    DoneAdvances(job, key.1, iteration);
    Asks(job, oracle, key.0, key.1, Done(job, key.1, iteration), HopOf(job, iteration))
  }

  type Row = seq<Option<PathEntry>>

  /** A row is what quoting each path alone, edge after edge, gives after some iterations. */
  ghost predicate RowAt(job: Job, oracle: SwapOracle, iterations: nat, a: nat, row: Row)
    requires a < |job.percents| == |job.amounts|
  {
    && |row| == |job.paths|
    && forall p :: 0 <= p < |job.paths| ==>
         var d := Done(job, p, iterations);
         d <= |job.paths[p]| && row[p] == Entry(job, oracle, a, p, d)
  }

  /** The same, with the paths before a given one set up for a hop. */
  ghost predicate RowOpened(job: Job, oracle: SwapOracle, iteration: nat, a: nat, upTo: nat, row: Row)
    requires a < |job.percents| == |job.amounts| && iteration < MaxRouteLength(job.paths) && upTo <= |job.paths|
  {
    && |row| == |job.paths|
    && forall p :: 0 <= p < |job.paths| ==>
         var d := Done(job, p, iteration);
         d <= |job.paths[p]| &&
         row[p] == if p < upTo then Opened(job, oracle, a, p, d, HopOf(job, iteration)) else Entry(job, oracle, a, p, d)
  }

  /** Requests answer to keys, in order, and are numbered by their place in the list. */
  ghost predicate RequestsFor(job: Job, oracle: SwapOracle, iteration: nat, requests: seq<QuoteRequest>, keys: seq<Key>)
    requires job.Valid() && iteration < MaxRouteLength(job.paths)
  {
    && |keys| == |requests|
    && (forall i :: 0 <= i < |keys| ==>
          && ValidKey(job, keys[i]) && AsksAt(job, oracle, keys[i], iteration).Some?
          && requests[i] == RequestOf(job, oracle, keys[i], iteration, i))
    && (forall i, j :: 0 <= i < j < |keys| ==> Precedes(keys[i], keys[j]))
  }

  /** The row of a percentage when some of the requests of a hop have been answered. */
  ghost predicate RowAnswered(job: Job, oracle: SwapOracle, iteration: nat, a: nat, answered: seq<Key>, row: Row)
    requires a < |job.percents| == |job.amounts| && iteration < MaxRouteLength(job.paths)
  {
    && |row| == |job.paths|
    && forall p :: 0 <= p < |job.paths| ==>
         var d, d' := Done(job, p, iteration), Done(job, p, iteration + 1);
         d <= |job.paths[p]| && d' <= |job.paths[p]| &&
         row[p] == if (a, p) in answered then Entry(job, oracle, a, p, d')
                   else Opened(job, oracle, a, p, d, HopOf(job, iteration))
  }

  lemma NothingAnsweredYet(job: Job, oracle: SwapOracle, iteration: nat, a: nat, row: Row)
    requires a < |job.percents| == |job.amounts| && iteration < MaxRouteLength(job.paths)
    requires RowOpened(job, oracle, iteration, a, |job.paths|, row)
    ensures RowAnswered(job, oracle, iteration, a, [], row)
  {
    forall p | 0 <= p < |job.paths|
      ensures Done(job, p, iteration + 1) <= |job.paths[p]|
    {
      DoneAdvances(job, p, iteration);
    }
  }

  lemma AllAnswered(job: Job, oracle: SwapOracle, iteration: nat, a: nat, answered: seq<Key>, row: Row)
    requires a < |job.percents| == |job.amounts| && iteration < MaxRouteLength(job.paths)
    requires RowAnswered(job, oracle, iteration, a, answered, row)
    requires forall p :: 0 <= p < |job.paths| ==> (AsksAt(job, oracle, (a, p), iteration).Some? ==> (a, p) in answered)
    ensures RowAt(job, oracle, iteration + 1, a, row)
  {
    forall p | 0 <= p < |job.paths|
      ensures row[p] == Entry(job, oracle, a, p, Done(job, p, iteration + 1))
    {
      AnswerCompletesStep(job, oracle, a, p, iteration);
    }
  }

  /** The keys so far, then those of the paths before p of percentage a that ask. */
  ghost predicate AskedUpTo(job: Job, oracle: SwapOracle, iteration: nat, a: nat, p: nat, keysSoFar: seq<Key>, keys: seq<Key>)
    requires a < |job.percents| == |job.amounts| && p <= |job.paths| && iteration < MaxRouteLength(job.paths)
  {
    && keysSoFar <= keys
    && (forall k :: k in keys ==> Precedes(k, (a, p)))
    && (forall q :: 0 <= q < p ==> (AsksAt(job, oracle, (a, q), iteration).Some? ==> (a, q) in keys))
  }

  lemma AskedOneMore(job: Job, oracle: SwapOracle, iteration: nat, a: nat, p: nat, keysSoFar: seq<Key>, keys: seq<Key>)
    requires a < |job.percents| == |job.amounts| && p < |job.paths| && iteration < MaxRouteLength(job.paths)
    requires AskedUpTo(job, oracle, iteration, a, p, keysSoFar, keys)
    ensures
      var asked := AsksAt(job, oracle, (a, p), iteration);
      AskedUpTo(job, oracle, iteration, a, p + 1, keysSoFar, if asked.Some? then keys + [(a, p)] else keys)
  {
  }

  /** The rows of the percentages before a have been set up and asked; the others are as they were. */
  ghost predicate Building(job: Job, oracle: SwapOracle, iteration: nat, a: nat, entries: map<int, Row>, keys: seq<Key>)
    requires job.Valid() && iteration < MaxRouteLength(job.paths) && a <= |job.percents|
  {
    && (forall b :: 0 <= b < a ==>
          job.percents[b] in entries && RowOpened(job, oracle, iteration, b, |job.paths|, entries[job.percents[b]]))
    && (forall b, p :: 0 <= b < a && 0 <= p < |job.paths| ==>
          (AsksAt(job, oracle, (b, p), iteration).Some? ==> (b, p) in keys))
    && (forall b :: a <= b < |job.percents| ==>
          && (iteration > 0 ==> job.percents[b] in entries)
          && (job.percents[b] in entries ==> RowAt(job, oracle, iteration, b, entries[job.percents[b]])))
  }

  lemma BuildOneMore(job: Job, oracle: SwapOracle, iteration: nat, a: nat, entries: map<int, Row>, entries': map<int, Row>,
                     keys: seq<Key>, keys': seq<Key>)
    requires job.Valid() && iteration < MaxRouteLength(job.paths) && a < |job.percents|
    requires Building(job, oracle, iteration, a, entries, keys)
    requires job.percents[a] in entries' && entries' == entries[job.percents[a] := entries'[job.percents[a]]]
    requires RowOpened(job, oracle, iteration, a, |job.paths|, entries'[job.percents[a]])
    requires AskedUpTo(job, oracle, iteration, a, |job.paths|, keys, keys')
    ensures Building(job, oracle, iteration, a + 1, entries', keys')
  {
    forall b, p | 0 <= b < a + 1 && 0 <= p < |job.paths| && AsksAt(job, oracle, (b, p), iteration).Some?
      ensures (b, p) in keys'
    {
      if b < a {
        assert (b, p) in keys;
      }
    }
  }

  lemma NextRowAsksLater(job: Job, oracle: SwapOracle, iteration: nat, a: nat, keys: seq<Key>, keys': seq<Key>)
    requires job.Valid() && iteration < MaxRouteLength(job.paths) && a + 1 < |job.percents|
    requires AskedUpTo(job, oracle, iteration, a, |job.paths|, keys, keys')
    ensures AskedUpTo(job, oracle, iteration, a + 1, 0, keys', keys')
  {
  }

  /** The request of path p, if it asks, comes after all others. */
  method AddAsked(job: Job, ghost oracle: SwapOracle, ghost iteration: nat, ghost a: nat, ghost p: nat,
                  soFar: seq<QuoteRequest>, ghost keysSoFar: seq<Key>, ghost known: seq<Key>, request: Option<QuoteRequest>)
    returns (requests: seq<QuoteRequest>, ghost keys: seq<Key>)
    requires job.Valid() && iteration < MaxRouteLength(job.paths) && a < |job.percents| && p < |job.paths|
    requires RequestsFor(job, oracle, iteration, soFar, known) && AskedUpTo(job, oracle, iteration, a, p, keysSoFar, known)
    requires request == if AsksAt(job, oracle, (a, p), iteration).None? then None
                        else Some(RequestOf(job, oracle, (a, p), iteration, |soFar|))
    ensures RequestsFor(job, oracle, iteration, requests, keys)
    ensures AskedUpTo(job, oracle, iteration, a, p + 1, keysSoFar, keys)
  {
    requests, keys := soFar, known;
    AskedOneMore(job, oracle, iteration, a, p, keysSoFar, known);
    if request.Some? {
      AddRequest(job, oracle, iteration, soFar, known, (a, p));
      requests := requests + [request.value];
      keys := keys + [(a, p)];
    }
  }

  class QuoteBoard {
    var entries: map<int, Row>

    constructor ()
      ensures entries == map[]
    {
      entries := map[];
    }

    ghost predicate Stands(job: Job, oracle: SwapOracle, iterations: nat)
      reads this
      requires job.Valid()
    {
      forall a :: 0 <= a < |job.percents| ==>
        && (iterations > 0 ==> job.percents[a] in entries)
        && (job.percents[a] in entries ==> RowAt(job, oracle, iterations, a, entries[job.percents[a]]))
    }

    /** The body of the inner loop: set the entry up on its first hop, and decide what to ask. */
    method AskPath(job: Job, ghost oracle: SwapOracle, ghost iteration: nat, hop: nat, a: nat, p: nat, quoteIndex: nat)
      returns (request: Option<QuoteRequest>)
      requires job.Valid() && iteration < MaxRouteLength(job.paths) && hop == HopOf(job, iteration)
      requires a < |job.percents| && p < |job.paths| && job.percents[a] in entries
      requires RowOpened(job, oracle, iteration, a, p, entries[job.percents[a]])
      modifies this
      ensures job.percents[a] in entries && entries == old(entries)[job.percents[a] := entries[job.percents[a]]]
      ensures RowOpened(job, oracle, iteration, a, p + 1, entries[job.percents[a]])
      ensures request == if AsksAt(job, oracle, (a, p), iteration).None? then None
                         else Some(RequestOf(job, oracle, (a, p), iteration, quoteIndex))
    {
      var percent, path := job.percents[a], job.paths[p];
      DoneAdvances(job, p, iteration);
      AsksFollowsLastHop(job, oracle, a, p, iteration);
      if hop >= |path| {
        return None;
      }
      var startingRouteEval := if job.isInput then hop == 0 else hop == |path| - 1;
      if startingRouteEval {
        var blank := PathEntry(path, percent, seq(|path|, i => Pending));
        entries := entries[percent := entries[percent][p := Some(blank)]];
        var token := if job.isInput then job.tokenIn else job.tokenOut;
        return Some(QuoteRequest(percent, p, hop, quoteIndex, path[hop], token, job.amounts[a], job.isInput));
      }
      var current := entries[percent][p].value;
      var lastHop := current.calculatedEdgeQuotes[if job.isInput then hop - 1 else hop + 1];
      if !lastHop.Filled? {
        return None;
      }
      var (token, amount) := HandOn(lastHop.hop, job.isInput);
      return Some(QuoteRequest(percent, p, hop, quoteIndex, path[hop], token, amount, job.isInput));
    }

    /** The row of a percentage is there from the first hop on. */
    method EnsureRow(job: Job, ghost oracle: SwapOracle, ghost iteration: nat, a: nat)
      requires job.Valid() && iteration < MaxRouteLength(job.paths)
      requires a < |job.percents| && (iteration > 0 ==> job.percents[a] in entries)
      requires job.percents[a] in entries ==> RowAt(job, oracle, iteration, a, entries[job.percents[a]])
      modifies this
      ensures job.percents[a] in entries && entries == old(entries)[job.percents[a] := entries[job.percents[a]]]
      ensures RowOpened(job, oracle, iteration, a, 0, entries[job.percents[a]])
    {
      if job.percents[a] !in entries {
        BlankRow(job, oracle, a);
        entries := entries[job.percents[a] := seq(|job.paths|, i => None)];
      }
    }

    /** One percentage: its row on the first hop, then the inner loop over all paths. */
    method AskRow(job: Job, ghost oracle: SwapOracle, ghost iteration: nat, hop: nat, a: nat,
                  soFar: seq<QuoteRequest>, ghost keysSoFar: seq<Key>)
      returns (requests: seq<QuoteRequest>, ghost keys: seq<Key>)
      requires job.Valid() && iteration < MaxRouteLength(job.paths) && hop == HopOf(job, iteration)
      requires a < |job.percents| && (iteration > 0 ==> job.percents[a] in entries)
      requires job.percents[a] in entries ==> RowAt(job, oracle, iteration, a, entries[job.percents[a]])
      requires RequestsFor(job, oracle, iteration, soFar, keysSoFar)
      requires AskedUpTo(job, oracle, iteration, a, 0, keysSoFar, keysSoFar)
      modifies this
      ensures job.percents[a] in entries && entries == old(entries)[job.percents[a] := entries[job.percents[a]]]
      ensures RowOpened(job, oracle, iteration, a, |job.paths|, entries[job.percents[a]])
      ensures RequestsFor(job, oracle, iteration, requests, keys)
      ensures AskedUpTo(job, oracle, iteration, a, |job.paths|, keysSoFar, keys)
    {
      requests, keys := soFar, keysSoFar;
      EnsureRow(job, oracle, iteration, a);
      var p := 0;
      while p < |job.paths|
        invariant 0 <= p <= |job.paths|
        invariant job.percents[a] in entries && entries == old(entries)[job.percents[a] := entries[job.percents[a]]]
        invariant RowOpened(job, oracle, iteration, a, p, entries[job.percents[a]])
        invariant RequestsFor(job, oracle, iteration, requests, keys)
        invariant AskedUpTo(job, oracle, iteration, a, p, keysSoFar, keys)
      {
        var request := AskPath(job, oracle, iteration, hop, a, p, |requests|);
        requests, keys := AddAsked(job, oracle, iteration, a, p, requests, keysSoFar, keys, request);
        p := p + 1;
      }
    }

    /** All requests of one hop, and every entry set up for it. */
    method BuildQuoteUpdateRequests(job: Job, ghost oracle: SwapOracle, ghost iteration: nat, hop: nat)
      returns (requests: seq<QuoteRequest>, ghost keys: seq<Key>)
      requires job.Valid() && iteration < MaxRouteLength(job.paths) && hop == HopOf(job, iteration)
      requires Stands(job, oracle, iteration)
      modifies this
      ensures RequestsFor(job, oracle, iteration, requests, keys)
      ensures Building(job, oracle, iteration, |job.percents|, entries, keys)
      ensures entries.Keys <= old(entries.Keys) + set a | 0 <= a < |job.percents| :: job.percents[a]
    {
      requests, keys := [], [];
      var a := 0;
      while a < |job.amounts|
        invariant 0 <= a <= |job.amounts|
        invariant entries.Keys <= old(entries.Keys) + set b | 0 <= b < |job.percents| :: job.percents[b]
        invariant RequestsFor(job, oracle, iteration, requests, keys)
        invariant a < |job.percents| ==> AskedUpTo(job, oracle, iteration, a, 0, keys, keys)
        invariant Building(job, oracle, iteration, a, entries, keys)
      {
        ghost var before, earlier := entries, keys;
        requests, keys := AskRow(job, oracle, iteration, hop, a, requests, keys);
        BuildOneMore(job, oracle, iteration, a, before, entries, earlier, keys);
        if a + 1 < |job.percents| {
          NextRowAsksLater(job, oracle, iteration, a, earlier, keys);
        }
        a := a + 1;
      }
    }

    /** Answers one request, in its entry and nowhere else. */
    method AnswerRequest(request: QuoteRequest, param: QuoteRequest, oracle: SwapOracle,
                         ghost job: Job, ghost iteration: nat, ghost key: Key, ghost i: nat, ghost answered: seq<Key>)
      requires job.Valid() && iteration < MaxRouteLength(job.paths) && ValidKey(job, key) && key !in answered
      requires AsksAt(job, oracle, key, iteration).Some? && param == request == RequestOf(job, oracle, key, iteration, i)
      requires forall a :: 0 <= a < |job.percents| ==>
        job.percents[a] in entries && RowAnswered(job, oracle, iteration, a, answered, entries[job.percents[a]])
      modifies this
      ensures entries.Keys == old(entries.Keys)
      ensures forall a :: 0 <= a < |job.percents| ==>
        job.percents[a] in entries && RowAnswered(job, oracle, iteration, a, answered + [key], entries[job.percents[a]])
    {
      RequestMatchesEntry(job, oracle, iteration, key, i, answered, entries[request.splitPercent]);
      var entry := entries[request.splitPercent][request.pathIndex].value;
      var outcome := oracle(param.pool, param.tradeTokenMint, param.tokenAmount, param.isInput);
      var result := ResultOf(request.pool, param.tradeTokenMint, param.tokenAmount, param.isInput, outcome);
      var updated := entry.(calculatedEdgeQuotes := entry.calculatedEdgeQuotes[request.edgeIndex := result]);
      ghost var before := entries;
      entries := entries[request.splitPercent := entries[request.splitPercent][request.pathIndex := Some(updated)]];
      forall a | 0 <= a < |job.percents|
        ensures RowAnswered(job, oracle, iteration, a, answered + [key], entries[job.percents[a]])
      {
        AnsweredRow(job, oracle, iteration, a, answered, key, before[job.percents[a]], entries[job.percents[a]]);
      }
    }

    /** Answers the requests of a hop; the parameters are listed in the order of the requests. */
    method PopulateQuoteMap(requests: seq<QuoteRequest>, params: seq<QuoteRequest>, oracle: SwapOracle,
                            ghost job: Job, ghost iteration: nat, ghost keys: seq<Key>)
      requires job.Valid() && iteration < MaxRouteLength(job.paths) && params == requests
      requires RequestsFor(job, oracle, iteration, requests, keys)
      requires Building(job, oracle, iteration, |job.percents|, entries, keys)
      modifies this
      ensures forall a :: 0 <= a < |job.percents| ==>
        job.percents[a] in entries && RowAnswered(job, oracle, iteration, a, keys, entries[job.percents[a]])
      ensures entries.Keys == old(entries.Keys)
    {
      forall a | 0 <= a < |job.percents|
        ensures RowAnswered(job, oracle, iteration, a, [], entries[job.percents[a]])
      {
        NothingAnsweredYet(job, oracle, iteration, a, entries[job.percents[a]]);
      }
      var i := 0;
      while i < |requests|
        invariant 0 <= i <= |requests| && entries.Keys == old(entries.Keys)
        invariant forall a :: 0 <= a < |job.percents| ==>
          job.percents[a] in entries && RowAnswered(job, oracle, iteration, a, keys[..i], entries[job.percents[a]])
      {
        AnswerRequest(requests[i], params[requests[i].quoteIndex], oracle, job, iteration, keys[i], i, keys[..i]);
        AnsweredPrefix(keys, i);
        i := i + 1;
      }
      assert keys[..|requests|] == keys;
    }

    /** The hop loop over all percentages and paths at once; it ends early if the batch of a hop fails as a whole. */
    method RunHops(job: Job, oracle: SwapOracle, fetches: int -> bool) returns (quoted: bool)
      requires job.Valid() && entries == map[]
      modifies this
      ensures quoted <==> forall hop :: 0 <= hop < MaxRouteLength(job.paths) ==> fetches(hop)
      ensures quoted ==> Stands(job, oracle, MaxRouteLength(job.paths))
      ensures entries.Keys <= set a | 0 <= a < |job.percents| :: job.percents[a]
    {
      var longest := MaxRouteLength(job.paths);
      var iteration := 0;
      while iteration < longest
        invariant 0 <= iteration <= longest
        invariant forall i :: 0 <= i < iteration ==> fetches(HopOf(job, i))
        invariant Stands(job, oracle, iteration)
        invariant entries.Keys <= set a | 0 <= a < |job.percents| :: job.percents[a]
      {
        var hop := if job.isInput then iteration else longest - 1 - iteration;
        ghost var before := entries.Keys;
        var requests, keys := BuildQuoteUpdateRequests(job, oracle, iteration, hop);
        if !fetches(hop) {
          return false;
        }
        PopulateQuoteMap(requests, requests, oracle, job, iteration, keys);
        forall a | 0 <= a < |job.percents|
          ensures RowAt(job, oracle, iteration + 1, a, entries[job.percents[a]])
        {
          AllAnswered(job, oracle, iteration, a, keys, entries[job.percents[a]]);
        }
        iteration := iteration + 1;
      }
      forall hop | 0 <= hop < longest
        ensures fetches(hop)
      {
        assert hop == HopOf(job, HopOf(job, hop));
      }
      return true;
    }
  }

  /** The entry a request is about exists and is not answered yet; answering it completes the step. */
  lemma RequestMatchesEntry(job: Job, oracle: SwapOracle, iteration: nat, key: Key, i: nat, answered: seq<Key>, row: Row)
    requires job.Valid() && iteration < MaxRouteLength(job.paths) && ValidKey(job, key)
    requires AsksAt(job, oracle, key, iteration).Some? && key !in answered
    requires RowAnswered(job, oracle, iteration, key.0, answered, row)
    ensures
      var r := RequestOf(job, oracle, key, iteration, i);
      && row[key.1].Some? && r.edgeIndex < |row[key.1].value.calculatedEdgeQuotes|
      && var entry := row[key.1].value;
      && Done(job, key.1, iteration + 1) <= |job.paths[key.1]|
      && Entry(job, oracle, key.0, key.1, Done(job, key.1, iteration + 1)) ==
           Some(entry.(calculatedEdgeQuotes := entry.calculatedEdgeQuotes[
             r.edgeIndex := ResultOf(r.pool, r.tradeTokenMint, r.tokenAmount, r.isInput,
                                     oracle(r.pool, r.tradeTokenMint, r.tokenAmount, r.isInput))]))
  {
    AnswerCompletesStep(job, oracle, key.0, key.1, iteration);
  }

  lemma AnsweredRow(job: Job, oracle: SwapOracle, iteration: nat, a: nat, answered: seq<Key>, key: Key, row: Row, row': Row)
    requires a < |job.percents| == |job.amounts| && iteration < MaxRouteLength(job.paths) && ValidKey(job, key)
    requires RowAnswered(job, oracle, iteration, a, answered, row)
    requires Done(job, key.1, iteration + 1) <= |job.paths[key.1]|
    requires row' == if a == key.0 then row[key.1 := Entry(job, oracle, a, key.1, Done(job, key.1, iteration + 1))] else row
    ensures RowAnswered(job, oracle, iteration, a, answered + [key], row')
  {
    forall p | 0 <= p < |job.paths|
      ensures (a, p) in answered + [key] <==> (a, p) in answered || (a, p) == key
    {
    }
  }

  lemma AnsweredPrefix(keys: seq<Key>, i: nat)
    requires i < |keys|
    ensures keys[..i + 1] == keys[..i] + [keys[i]]
  {
  }

  lemma BlankRow(job: Job, oracle: SwapOracle, a: nat)
    requires a < |job.percents| == |job.amounts|
    ensures RowAt(job, oracle, 0, a, seq(|job.paths|, i => None))
  {
    forall p | 0 <= p < |job.paths|
      ensures Done(job, p, 0) == 0
    {
      DoneInitially(job, p);
    }
  }

  /** The next request of a key that comes after all others. */
  lemma AddRequest(job: Job, oracle: SwapOracle, iteration: nat, r: seq<QuoteRequest>, k: seq<Key>, key: Key)
    requires job.Valid() && iteration < MaxRouteLength(job.paths)
    requires RequestsFor(job, oracle, iteration, r, k)
    requires ValidKey(job, key) && AsksAt(job, oracle, key, iteration).Some?
    requires forall x :: x in k ==> Precedes(x, key)
    ensures RequestsFor(job, oracle, iteration, r + [RequestOf(job, oracle, key, iteration, |r|)], k + [key])
  {
    var k' := k + [key];
    forall i, j | 0 <= i < j < |k'|
      ensures Precedes(k'[i], k'[j])
    {
      assert k[i] in k;
    }
  }
}
