/** The swap loop with its prices and amounts (manager/swap_manager.rs). */
module SwapLoop {
  import opened Words
  import opened State
  import PoolManager
  import opened SwapManager
  import opened SwapMath
  import opened TokenWorth

  /** What stays the same for a pool: the prices of ticks and the fee rate. */
  datatype Setup = Setup(grid: Grid, feeRate: FeeRate)

  /** A trader's order: the amount of one token, how far the price may go, and the least or most of the other token. */
  datatype Order = Order(amount: u64, threshold: u64, limit: u128, isInput: bool, aToB: bool)

  /** The local variables of the loop. */
  datatype Cursor = Cursor(pool: Pool, ticks: Ticks, price: u128, remaining: u64, calculated: u64, protocolFee: u64)

  /** The limit within bounds and ahead of the price, and something to swap. */
  function CheckOrder(price: u128, order: Order): Result<()> {
    if order.limit < MIN_SQRT_PRICE || order.limit > MAX_SQRT_PRICE then Err(SqrtPriceOutOfBounds)
    else if (order.aToB && order.limit > price) || (!order.aToB && order.limit < price) then
      Err(InvalidSqrtPriceLimitDirection)
    else if order.amount == 0 then Err(ZeroTradableAmount)
    else Ok(())
  }

  /** Subtracts what was specified of a step from what remains, and adds up the rest. */
  function Settle(order: Order, remaining: u64, calculated: u64, step: SwapStep): Result<(u64, u64)> {
    if order.isInput then
      if remaining < step.amountIn then Err(AmountRemainingOverflow)
      else if remaining - step.amountIn < step.feeAmount then Err(AmountRemainingOverflow)
      else if calculated + step.amountOut >= TWO_64 then Err(AmountCalcOverflow)
      else Ok((remaining - step.amountIn - step.feeAmount, calculated + step.amountOut))
    else
      if remaining < step.amountOut then Err(AmountRemainingOverflow)
      else if calculated + step.amountIn >= TWO_64 then Err(AmountCalcOverflow)
      else if calculated + step.amountIn + step.feeAmount >= TWO_64 then Err(AmountCalcOverflow)
      else Ok((remaining - step.amountOut, calculated + step.amountIn + step.feeAmount))
  }

  /** The price a step heads for: that of the next tick, or the limit before it. */
  function Target(s: Setup, order: Order, next: int): u128 {
    var nextPrice := s.grid.priceAt(next);
    if order.aToB then (if order.limit > nextPrice then order.limit else nextPrice)
    else if order.limit < nextPrice then order.limit else nextPrice
  }

  /** What a step means for the accounts. */
  function LegOf(s: Setup, c: Cursor, next: int, step: SwapStep): Leg {
    Leg(step.feeAmount, next, step.nextPrice == s.grid.priceAt(next),
        if step.nextPrice == c.price then c.pool.tickCurrentIndex else s.grid.tickAt(step.nextPrice))
  }

  function ProtocolFee(feeAmount: u64, rate: ProtocolFeeRate): u64 {
    feeAmount - LiquidityFee(feeAmount, rate)
  }

  function StepAt(s: Setup, order: Order, c: Cursor, next: int): Result<SwapStep> {
    ComputeSwap(c.remaining, s.feeRate, c.pool.liquidity, c.price, Target(s, order, next), order.isInput, order.aToB)
  }

  /** One iteration, to the tick the search returned or short of it. */
  function OneLeg(s: Setup, order: Order, c: Cursor, next: int): Result<(Cursor, Leg)> {
    var step :- StepAt(s, order, c, next);
    var (remaining, calculated) :- Settle(order, c.remaining, c.calculated, step);
    var leg := LegOf(s, c, next, step);
    var (pool, ticks) :- MoveTick(AddFeeGrowth(c.pool, order.aToB, step.feeAmount), c.ticks, order.aToB, leg);
    Ok((Cursor(pool, ticks, step.nextPrice, remaining, calculated,
               WrapAdd64(c.protocolFee, ProtocolFee(step.feeAmount, c.pool.protocolFeeRate))), leg))
  }

  /** The whole loop, on the answers of the tick search; where they end, the search failed. */
  function Loop(s: Setup, order: Order, c: Cursor, nexts: seq<int>): Result<(Cursor, seq<Leg>)>
    decreases |nexts|
  {
    if c.remaining == 0 || order.limit == c.price then Ok((c, []))
    else if nexts == [] then Err(TickArraySequenceInvalidIndex)
    else
      var (next, leg) :- OneLeg(s, order, c, nexts[0]);
      var (end, legs) :- Loop(s, order, next, nexts[1..]);
      Ok((end, [leg] + legs))
  }

  function EndOf(looped: Result<(Cursor, seq<Leg>)>): Result<Cursor> {
    var (end, legs) :- looped;
    Ok(end)
  }

  function Timed(pool: Pool, rewards: RewardInfos, timestamp: u64): Pool {
    pool.(rewardInfos := rewards, rewardLastUpdatedTimestamp := timestamp)
  }

  /** Where a swap ends, on values: checks, rewards, then the loop. */
  function SwapEnd(s: Setup, pool: Pool, price: u128, ticks: Ticks, order: Order, nexts: seq<int>, timestamp: u64):
    Result<Cursor>
  {
    var checked :- CheckOrder(price, order);
    var rewards :- PoolManager.NextPoolRewardInfos(pool, timestamp);
    EndOf(Loop(s, order, Cursor(Timed(pool, rewards, timestamp), ticks, price, order.amount, 0, 0), nexts))
  }

  /** What came in so far, fees included, and what went out. */
  function TakenIn(order: Order, c: Cursor): int {
    if order.isInput then order.amount - c.remaining else c.calculated
  }

  function GivenOut(order: Order, c: Cursor): int {
    if order.isInput then c.calculated else order.amount - c.remaining
  }

  function InToken(aToB: bool): Token {
    if aToB then A else B
  }

  function OutToken(aToB: bool): Token {
    if aToB then B else A
  }

  /** What remains only shrinks, and the other amount only grows. */
  lemma {:induction false} LoopOnlySpends(s: Setup, order: Order, c: Cursor, nexts: seq<int>)
    requires Loop(s, order, c, nexts).Ok?
    ensures
      var end := Loop(s, order, c, nexts).value.0;
      end.remaining <= c.remaining && c.calculated <= end.calculated && (end.remaining == 0 || end.price == order.limit)
    decreases |nexts|
  {
    if c.remaining > 0 && order.limit != c.price {
      LoopOnlySpends(s, order, OneLeg(s, order, c, nexts[0]).value.0, nexts[1..]);
    }
  }
}
