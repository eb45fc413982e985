/** One liquidity change computed from the state before it (manager/liquidity_manager.rs). */
module LiquidityManager {
  import opened Words
  import opened State
  import opened TickManager
  import PoolManager
  import PositionManager
  import opened TokenMath
  import Prices

  datatype ModifyLiquidityUpdate = ModifyLiquidityUpdate(
    poolLiquidity: u128,
    tickLower: Tick,
    tickUpper: Tick,
    rewardInfos: RewardInfos,
    position: Position)

  function CalculateModifyLiquidity(
      pool: Pool, position: Position, lower: Tick, upper: Tick, delta: i128, timestamp: u64):
    Result<ModifyLiquidityUpdate>
  {
    if delta == 0 && position.liquidity == 0 then Err(LiquidityZero)
    else
      var l, u, current := position.tickLowerIndex, position.tickUpperIndex, pool.tickCurrentIndex;
      var rewards :- PoolManager.NextPoolRewardInfos(pool, timestamp);
      var poolLiquidity :- PoolManager.NextPoolLiquidity(pool, u, l, delta);
      var lowerUpdate :- NextTickModifyLiquidityUpdate(lower, l, current, pool.feeGrowthGlobalA,
                                                       pool.feeGrowthGlobalB, rewards, delta, false);
      var upperUpdate :- NextTickModifyLiquidityUpdate(upper, u, current, pool.feeGrowthGlobalA,
                                                       pool.feeGrowthGlobalB, rewards, delta, true);
      var (insideA, insideB) := NextFeeGrowthsInside(current, lower, l, upper, u,
                                                     pool.feeGrowthGlobalA, pool.feeGrowthGlobalB);
      var rewardsInside := NextRewardGrowthsInside(current, lower, l, upper, u, rewards);
      var positionUpdate :-
        PositionManager.NextPositionModifyLiquidityUpdate(position, delta, insideA, insideB, rewardsInside);
      Ok(ModifyLiquidityUpdate(poolLiquidity, lowerUpdate, upperUpdate, rewards, positionUpdate))
  }

  // ---- Tokens --------------------------------------------------------------------------------------------

  /** The square roots of the prices at both ends of a range, and of the current price. */
  datatype RangePrices = RangePrices(lower: u128, current: u128, upper: u128)

  /** Amounts of both tokens a liquidity change takes in, rounded up, or pays out, rounded down. */
  function CalculateLiquidityTokenDeltas(current: int, prices: RangePrices, position: Position, delta: i128):
    Result<(u64, u64)>
  {
    if delta == 0 then Err(LiquidityZero)
    else
      var liquidity: u128 := if delta > 0 then delta else -(delta as int);
      var roundUp := delta > 0;
      if current < position.tickLowerIndex then
        var a :- AmountDeltaA(prices.lower, prices.upper, liquidity, roundUp);
        Ok((a, 0))
      else if current < position.tickUpperIndex then
        var a :- AmountDeltaA(prices.current, prices.upper, liquidity, roundUp);
        var b :- AmountDeltaB(prices.lower, prices.current, liquidity, roundUp);
        Ok((a, b))
      else
        var b :- AmountDeltaB(prices.lower, prices.upper, liquidity, roundUp);
        Ok((0, b))
  }

  /** The SDK's amounts of both tokens for a change of this size; each is zero where the range does not hold it. */
  function QuotedTokens(current: int, prices: RangePrices, position: Position, liquidity: u128, roundUp: bool): (int, int)
    requires TokensFit(current, prices, position, liquidity, roundUp)
  {
    if current < position.tickLowerIndex then
      (Prices.TokenAFromLiquidity(liquidity, prices.lower, prices.upper, roundUp), 0)
    else if current < position.tickUpperIndex then
      (Prices.TokenAFromLiquidity(liquidity, prices.current, prices.upper, roundUp),
       Prices.TokenBFromLiquidity(liquidity, prices.lower, prices.current, roundUp))
    else
      (0, Prices.TokenBFromLiquidity(liquidity, prices.lower, prices.upper, roundUp))
  }

  /** Both amounts can be computed and fit 64 bits. */
  predicate TokensFit(current: int, prices: RangePrices, position: Position, liquidity: u128, roundUp: bool) {
    if current < position.tickLowerIndex then AmountAFits(prices.lower, prices.upper, liquidity, roundUp)
    else if current < position.tickUpperIndex then
      && AmountAFits(prices.current, prices.upper, liquidity, roundUp)
      && Prices.TokenBFromLiquidity(liquidity, prices.lower, prices.current, roundUp) < TWO_64
    else Prices.TokenBFromLiquidity(liquidity, prices.lower, prices.upper, roundUp) < TWO_64
  }

  /** The tokens of a change are the SDK's amounts, and exist exactly when those fit. */
  lemma DeltasAreQuoted(current: int, prices: RangePrices, position: Position, delta: i128, liquidity: u128, roundUp: bool)
    requires 0 < liquidity && delta == if roundUp then liquidity else -(liquidity as int)
    ensures
      var r := CalculateLiquidityTokenDeltas(current, prices, position, delta);
      && (r.Ok? <==> TokensFit(current, prices, position, liquidity, roundUp))
      && (r.Ok? ==> r.value == QuotedTokens(current, prices, position, liquidity, roundUp))
  {
    if current < position.tickLowerIndex {
      AmountAIsQuoted(prices.lower, prices.upper, liquidity, roundUp);
    } else if current < position.tickUpperIndex {
      AmountAIsQuoted(prices.current, prices.upper, liquidity, roundUp);
      AmountBIsQuoted(prices.lower, prices.current, liquidity, roundUp);
    } else {
      AmountBIsQuoted(prices.lower, prices.upper, liquidity, roundUp);
    }
  }

  /** What a deposit takes in can be paid out again at the same prices, less at most one unit of each token. */
  lemma TokensReturned(current: int, prices: RangePrices, position: Position, amount: u128)
    requires 0 < amount < TWO_127
    ensures
      var cost := CalculateLiquidityTokenDeltas(current, prices, position, amount);
      var payout := CalculateLiquidityTokenDeltas(current, prices, position, -(amount as int));
      cost.Ok? ==>
        && payout.Ok?
        && payout.value.0 <= cost.value.0 <= payout.value.0 + 1
        && payout.value.1 <= cost.value.1 <= payout.value.1 + 1
  {
    RoundingCostsOneA(prices.lower, prices.upper, amount);
    RoundingCostsOneA(prices.current, prices.upper, amount);
    RoundingCostsOneB(prices.lower, prices.current, amount);
    RoundingCostsOneB(prices.lower, prices.upper, amount);
  }
}
