/** Quoting every path hop by hop, what each path's hops should end up as (router/quote-map.ts). */
module Quotes {
  import opened Words
  import opened Routes

  /** The error that tells a too large trade, and all others. */
  datatype SwapErrorCode = TickArraySequenceInvalid | OtherError(code: int)

  /** What the swap quote library answers: the estimated other amount and the other mint, or an error. */
  datatype SwapOutcome = Estimate(otherAmount: nat, otherMint: Address) | SwapError(code: SwapErrorCode)

  /** Pool, mint of the specified amount, the amount, and whether it is the input. */
  type SwapOracle = (Address, Address, nat, bool) -> SwapOutcome

  type Path = seq<Address>

  datatype HopResult = Pending | Filled(hop: Hop) | Failed(error: SwapErrorCode)

  datatype PathEntry = PathEntry(path: Path, splitPercent: int, calculatedEdgeQuotes: seq<HopResult>)

  /** A trade with its paths and its split percentages and amounts. */
  datatype Job = Job(
    tokenIn: Address, tokenOut: Address, paths: seq<Path>, percents: seq<int>, amounts: seq<nat>, isInput: bool)
  {
    /** One amount per percentage, and no percentage twice. */
    predicate Valid() {
      |percents| == |amounts| && forall i, j :: 0 <= i < j < |percents| ==> percents[i] < percents[j]
    }
  }

  function MaxRouteLength(paths: seq<Path>): nat {
    if paths == [] then 0
    else
      var rest := MaxRouteLength(paths[1..]);
      if |paths[0]| > rest then |paths[0]| else rest
  }

  lemma MaxRouteLengthBounds(paths: seq<Path>, p: nat)
    requires p < |paths|
    ensures |paths[p]| <= MaxRouteLength(paths)
  {
    if p > 0 {
      MaxRouteLengthBounds(paths[1..], p - 1);
    }
  }

  // ---- One hop -----------------------------------------------------------------------------------------

  /** The specified side keeps the requested amount; the other side is the estimate. */
  function ResultOf(pool: Address, token: Address, amount: nat, isInput: bool, outcome: SwapOutcome): HopResult {
    match outcome
    case SwapError(code) => Failed(code)
    case Estimate(other, otherMint) =>
      if isInput then Filled(Hop(amount, other, pool, token, otherMint))
      else Filled(Hop(other, amount, pool, otherMint, token))
  }

  /** What a hop hands on to the next one in the direction of quoting. */
  function HandOn(hop: Hop, isInput: bool): (Address, nat) {
    if isInput then (hop.outputMint, hop.amountOut) else (hop.inputMint, hop.amountIn)
  }

  /** The edge quoted as number k, counting from the start of the quoting direction. */
  function EdgeAt(length: nat, k: nat, isInput: bool): nat
    requires k < length
  {
    if isInput then k else length - 1 - k
  }

  /** Token and amount edge number k is quoted with, if the previous one succeeded. */
  function NextInput(job: Job, amount: nat, edges: seq<HopResult>, k: nat): Option<(Address, nat)>
    requires k < |edges|
  {
    if k == 0 then Some((if job.isInput then job.tokenIn else job.tokenOut, amount))
    else
      var last := edges[EdgeAt(|edges|, k - 1, job.isInput)];
      if last.Filled? then Some(HandOn(last.hop, job.isInput)) else None
  }

  /** The hops of a path after its first k edges have been quoted, one after the other. */
  function Quoted(job: Job, path: Path, amount: nat, oracle: SwapOracle, k: nat): (edges: seq<HopResult>)
    requires k <= |path|
    ensures |edges| == |path|
  {
    if k == 0 then seq(|path|, i => Pending)
    else
      var before := Quoted(job, path, amount, oracle, k - 1);
      var edge := EdgeAt(|path|, k - 1, job.isInput);
      match NextInput(job, amount, before, k - 1)
      case None => before
      case Some((token, tokenAmount)) =>
        before[edge := ResultOf(path[edge], token, tokenAmount, job.isInput,
                                oracle(path[edge], token, tokenAmount, job.isInput))]
  }

  // ---- What a finished path looks like -----------------------------------------------------------------------

  function InOrder(edges: seq<HopResult>, k: nat, isInput: bool): HopResult
    requires k < |edges|
  {
    edges[EdgeAt(|edges|, k, isInput)]
  }

  /** Quoting edge number k - 1 touches no other edge. */
  lemma QuotedStep(job: Job, path: Path, amount: nat, oracle: SwapOracle, k: nat)
    requires 0 < k <= |path|
    ensures
      var before, edges := Quoted(job, path, amount, oracle, k - 1), Quoted(job, path, amount, oracle, k);
      && (forall i :: 0 <= i < |path| && i != k - 1 ==> InOrder(edges, i, job.isInput) == InOrder(before, i, job.isInput))
      && var input, pool := NextInput(job, amount, before, k - 1), path[EdgeAt(|path|, k - 1, job.isInput)];
      InOrder(edges, k - 1, job.isInput) ==
        if input.None? then InOrder(before, k - 1, job.isInput)
        else ResultOf(pool, input.value.0, input.value.1, job.isInput,
                      oracle(pool, input.value.0, input.value.1, job.isInput))
  {
  }

  /** Success up to some edge; there either the end or one failure with nothing quoted after it. */
  ghost predicate Shape(edges: seq<HopResult>, k: nat, good: nat, isInput: bool)
    requires k <= |edges|
  {
    && good <= k
    && (forall i :: 0 <= i < good ==> InOrder(edges, i, isInput).Filled?)
    && (good < k ==> InOrder(edges, good, isInput).Failed?)
    && (forall i :: (if good < k then good + 1 else k) <= i < |edges| ==> InOrder(edges, i, isInput).Pending?)
  }

  /** An edge is quoted next when the one before it succeeded, and only then. */
  lemma ShapeStep(before: seq<HopResult>, edges: seq<HopResult>, k: nat, good: nat, isInput: bool) returns (good': nat)
    requires 0 < k <= |before| == |edges| && Shape(before, k - 1, good, isInput)
    requires forall i :: 0 <= i < |edges| && i != k - 1 ==> InOrder(edges, i, isInput) == InOrder(before, i, isInput)
    requires
      if k > 1 && !InOrder(before, k - 2, isInput).Filled? then
        InOrder(edges, k - 1, isInput) == InOrder(before, k - 1, isInput)
      else !InOrder(edges, k - 1, isInput).Pending?
    ensures Shape(edges, k, good', isInput)
  {
    good' := if good == k - 1 && InOrder(edges, k - 1, isInput).Filled? then k else good;
  }

  lemma {:induction false} QuotedShape(job: Job, path: Path, amount: nat, oracle: SwapOracle, k: nat) returns (good: nat)
    requires k <= |path|
    ensures Shape(Quoted(job, path, amount, oracle, k), k, good, job.isInput)
  {
    if k == 0 {
      good := 0;
    } else {
      good := QuotedShape(job, path, amount, oracle, k - 1);
      QuotedStep(job, path, amount, oracle, k);
      good := ShapeStep(Quoted(job, path, amount, oracle, k - 1), Quoted(job, path, amount, oracle, k), k, good,
                        job.isInput);
    }
  }

  ghost predicate AllFilled(edges: seq<HopResult>) {
    forall i :: 0 <= i < |edges| ==> edges[i].Filled?
  }

  /** Indices of the failures of a path. */
  ghost function Failures(edges: seq<HopResult>): set<int> {
    set i | 0 <= i < |edges| && edges[i].Failed?
  }

  /**
    After the whole hop loop every path is either successful on all its edges or has exactly one
    failure, everything else being a success on one side and never quoted on the other.
  */
  lemma OneFailurePerFailedPath(job: Job, path: Path, amount: nat, oracle: SwapOracle)
    requires |path| > 0
    ensures
      var edges := Quoted(job, path, amount, oracle, |path|);
      if AllFilled(edges) then Failures(edges) == {} else exists i :: OnlyFailure(edges, i, job.isInput)
  {
    var good := QuotedShape(job, path, amount, oracle, |path|);
    ShapeHasOneFailure(Quoted(job, path, amount, oracle, |path|), good, job.isInput);
  }

  /** A complete shape seen from the first edge to the last. */
  lemma ShapeHasOneFailure(edges: seq<HopResult>, good: nat, isInput: bool)
    requires Shape(edges, |edges|, good, isInput)
    ensures good == |edges| ==> AllFilled(edges)
    ensures good < |edges| ==> !AllFilled(edges) && OnlyFailure(edges, EdgeAt(|edges|, good, isInput), isInput)
  {
    forall j | 0 <= j < |edges|
      ensures
        var k := EdgeAt(|edges|, j, isInput);
        if k < good then edges[j].Filled? else if k == good then edges[j].Failed? else edges[j].Pending?
    {
      EdgeOfShape(edges, good, isInput, j);
    }
  }

  lemma EdgeOfShape(edges: seq<HopResult>, good: nat, isInput: bool, j: nat)
    requires Shape(edges, |edges|, good, isInput) && j < |edges|
    ensures
      var k := EdgeAt(|edges|, j, isInput);
      if k < good then edges[j].Filled? else if k == good then edges[j].Failed? else edges[j].Pending?
  {
    assert edges[j] == InOrder(edges, EdgeAt(|edges|, j, isInput), isInput);
  }

  /** Edge i failed; on the side quoted before it all succeeded, on the other none was quoted. */
  ghost predicate OnlyFailure(edges: seq<HopResult>, i: int, isInput: bool) {
    && Failures(edges) == {i}
    && forall j :: 0 <= j < |edges| && j != i ==> if (j < i) == isInput then edges[j].Filled? else edges[j].Pending?
  }

  /** Hops hand on exactly what they produced, in pool order of the path. */
  ghost predicate HopsChain(edges: seq<HopResult>, path: Path) {
    && |edges| == |path|
    && AllFilled(edges)
    && (forall i :: 0 <= i < |edges| ==> edges[i].hop.pool == path[i])
    && (forall i :: 0 < i < |edges| ==>
          edges[i - 1].hop.amountOut == edges[i].hop.amountIn && edges[i - 1].hop.outputMint == edges[i].hop.inputMint)
  }

  lemma {:induction false} QuotedHandsOn(job: Job, path: Path, amount: nat, oracle: SwapOracle, k: nat)
    requires 0 < k <= |path|
    requires forall i :: 0 <= i < k ==> InOrder(Quoted(job, path, amount, oracle, k), i, job.isInput).Filled?
    ensures
      var edges := Quoted(job, path, amount, oracle, k);
      && (forall i :: 0 <= i < k ==>
            InOrder(edges, i, job.isInput).hop.pool == path[EdgeAt(|path|, i, job.isInput)])
      && (forall i :: 0 < i < k ==>
            HandOn(InOrder(edges, i - 1, job.isInput).hop, job.isInput)
              == HandOn(InOrder(edges, i, job.isInput).hop, !job.isInput))
      && HandOn(InOrder(edges, 0, job.isInput).hop, !job.isInput)
           == (if job.isInput then job.tokenIn else job.tokenOut, amount)
  {
    QuotedStep(job, path, amount, oracle, k);
    var good := QuotedShape(job, path, amount, oracle, k - 1);
    if k > 1 {
      var before, edges := Quoted(job, path, amount, oracle, k - 1), Quoted(job, path, amount, oracle, k);
      assert InOrder(edges, k - 2, job.isInput) == InOrder(before, k - 2, job.isInput);
      QuotedHandsOn(job, path, amount, oracle, k - 1);
    }
  }

  /**
    A path that succeeded chains exactly: each hop's output is the next hop's input, in amount and
    mint; an exact input starts with the split amount, an exact output ends with it.
  */
  lemma HopsChainExactly(job: Job, path: Path, amount: nat, oracle: SwapOracle)
    requires |path| > 0 && AllFilled(Quoted(job, path, amount, oracle, |path|))
    ensures
      var edges := Quoted(job, path, amount, oracle, |path|);
      && HopsChain(edges, path)
      && (if job.isInput then edges[0].hop.amountIn == amount && edges[0].hop.inputMint == job.tokenIn
          else edges[|path| - 1].hop.amountOut == amount && edges[|path| - 1].hop.outputMint == job.tokenOut)
  {
    var edges := Quoted(job, path, amount, oracle, |path|);
    QuotedHandsOn(job, path, amount, oracle, |path|);
    forall i | 0 <= i < |path|
      ensures edges[i].hop.pool == path[i]
    {
      assert InOrder(edges, EdgeAt(|path|, i, job.isInput), job.isInput) == edges[i];
    }
    forall i | 0 < i < |path|
      ensures edges[i - 1].hop.amountOut == edges[i].hop.amountIn && edges[i - 1].hop.outputMint == edges[i].hop.inputMint
    {
      var k := if job.isInput then i else |path| - i;
      assert HandOn(InOrder(edges, k - 1, job.isInput).hop, job.isInput)
          == HandOn(InOrder(edges, k, job.isInput).hop, !job.isInput);
    }
  }

  // ---- Splitting the trade ---------------------------------------------------------------------------------------

  function SplitAmount(amount: nat, percent: nat): nat {
    amount * percent / 100
  }

  /** Multiples of the increment up to 100 percent, with their shares of the amount rounded down. */
  method SplitPercentageAmounts(inputAmount: nat, minPercent: nat) returns (percents: seq<int>, amounts: seq<nat>)
    requires minPercent > 0
    ensures |percents| == |amounts| == 100 / minPercent
    ensures forall i :: 0 <= i < |percents| ==> percents[i] == (i + 1) * minPercent
    ensures forall i :: 0 <= i < |percents| ==> 0 < percents[i] <= 100 && amounts[i] == SplitAmount(inputAmount, percents[i])
    ensures forall i, j :: 0 <= i < j < |percents| ==> percents[i] < percents[j]
    ensures forall p :: 0 < p <= 100 && p % minPercent == 0 ==> p in percents
  {
    percents, amounts := [], [];
    var i := 1;
    QuotientFits(0, minPercent);
    while i * minPercent <= 100
      invariant 1 <= i == |percents| + 1 && |percents| <= 100 / minPercent
      invariant Multiples(percents, minPercent) && SharesSoFar(percents, amounts, inputAmount)
      decreases 100 / minPercent - |percents|
    {
      QuotientFits(i, minPercent);
      AddShare(percents, amounts, minPercent, inputAmount, i * minPercent);
      percents := percents + [i * minPercent];
      amounts := amounts + [inputAmount * (i * minPercent) / 100];
      i := i + 1;
    }
    QuotientFits(i, minPercent);
    MultiplesAscendAndCover(percents, minPercent);
  }

  ghost predicate Multiples(percents: seq<int>, minPercent: nat) {
    forall i :: 0 <= i < |percents| ==> percents[i] == (i + 1) * minPercent
  }

  ghost predicate SharesSoFar(percents: seq<int>, amounts: seq<nat>, inputAmount: nat) {
    && |percents| == |amounts|
    && forall i :: 0 <= i < |percents| ==> 0 < percents[i] <= 100 && amounts[i] == SplitAmount(inputAmount, percents[i])
  }

  /** The next multiple and its share. */
  lemma AddShare(percents: seq<int>, amounts: seq<nat>, minPercent: nat, inputAmount: nat, percent: nat)
    requires minPercent > 0 && Multiples(percents, minPercent) && SharesSoFar(percents, amounts, inputAmount)
    requires percent == (|percents| + 1) * minPercent <= 100
    ensures Multiples(percents + [percent], minPercent)
    ensures SharesSoFar(percents + [percent], amounts + [SplitAmount(inputAmount, percent)], inputAmount)
  {
    Increasing(0, |percents| + 1, minPercent);
  }

  lemma MultiplesAscendAndCover(percents: seq<int>, minPercent: nat)
    requires minPercent > 0 && |percents| == 100 / minPercent
    requires forall i :: 0 <= i < |percents| ==> percents[i] == (i + 1) * minPercent
    ensures forall i, j :: 0 <= i < j < |percents| ==> percents[i] < percents[j]
    ensures forall p :: 0 < p <= 100 && p % minPercent == 0 ==> p in percents
  {
    forall j, k | 0 <= j < k < |percents|
      ensures percents[j] < percents[k]
    {
      Increasing(j + 1, k + 1, minPercent);
    }
    forall p | 0 < p <= 100 && p % minPercent == 0
      ensures p in percents
    {
      var q := p / minPercent;
      assert p == q * minPercent;
      QuotientFits(q, minPercent);
      PositiveFactor(q, minPercent);
      assert percents[q - 1] == p;
    }
  }

  lemma PositiveFactor(q: int, d: nat)
    requires q * d > 0
    ensures q >= 1
  {
  }

  lemma QuotientFits(i: int, d: nat)
    requires d > 0
    ensures i * d <= 100 <==> i <= 100 / d
  {
    var q := 100 / d;
    assert 100 == d * q + 100 % d;
    if i <= q {
      assert i * d <= q * d;
    } else {
      assert (q + 1) * d <= i * d;
    }
  }

  lemma Increasing(a: nat, b: nat, d: nat)
    requires a < b && d > 0
    ensures a * d < b * d
  {
  }
}
