/** The accounting of a swap, leg by leg (manager/swap_manager.rs). */
module SwapManager {
  import opened Words
  import opened FixedPoint
  import opened State
  import TickManager
  import PoolManager
  import Rounding

  const PROTOCOL_FEE_RATE_MUL_VALUE: int := 10000

  /**
    One iteration of the swap loop as far as accounting sees it: the fee it charges, the tick the
    search returned, whether the price arrived exactly there, and the tick of the price otherwise.
    Token and price arithmetic decide these four values.
  */
  datatype Leg = Leg(feeAmount: u64, nextTick: int, reachesNextTick: bool, stopsAt: int)

  /** What is left of a swap fee for liquidity providers: their share of it, rounded up. */
  function LiquidityFee(feeAmount: u64, protocolFeeRate: ProtocolFeeRate): (fee: u64)
    ensures
      var share := feeAmount * (PROTOCOL_FEE_RATE_MUL_VALUE - protocolFeeRate);
      share <= fee * PROTOCOL_FEE_RATE_MUL_VALUE < share + PROTOCOL_FEE_RATE_MUL_VALUE
    ensures fee <= feeAmount
  {
    Rounding.Scale(protocolFeeRate, PROTOCOL_FEE_RATE_MUL_VALUE, feeAmount);
    Rounding.Scale(0, protocolFeeRate, feeAmount);
    if protocolFeeRate > 0 then feeAmount - feeAmount * protocolFeeRate / PROTOCOL_FEE_RATE_MUL_VALUE
    else feeAmount
  }

  function FeeGrowthDelta(fee: u64, liquidity: u128): u128 {
    if liquidity > 0 then DivisionShrinks(fee * TWO_64, liquidity); fee * TWO_64 / liquidity else 0
  }

  /** A crossing tick's update and the liquidity on its other side. */
  function CalculateUpdate(
      tick: Tick, aToB: bool, liquidity: u128, growthA: u128, growthB: u128, rewards: RewardInfos):
    Result<(Tick, u128)>
  {
    var signedNet := if aToB then WrapNegate(tick.liquidityNet) else tick.liquidityNet;
    var nextLiquidity :- AddLiquidityDelta(liquidity, signedNet);
    Ok((TickManager.NextTickCrossUpdate(tick, growthA, growthB, rewards), nextLiquidity))
  }

  /** Fees go to the stream of the token that comes in. */
  function FeeStream(aToB: bool): Stream {
    if aToB then FeeA else FeeB
  }

  function AddFeeGrowth(pool: Pool, aToB: bool, feeAmount: u64): Pool {
    var delta := FeeGrowthDelta(LiquidityFee(feeAmount, pool.protocolFeeRate), pool.liquidity);
    if aToB then pool.(feeGrowthGlobalA := WrapAdd(pool.feeGrowthGlobalA, delta))
    else pool.(feeGrowthGlobalB := WrapAdd(pool.feeGrowthGlobalB, delta))
  }

  /** The tick part of a leg: cross the tick that was reached, or come to rest between ticks. */
  function MoveTick(pool: Pool, ticks: Ticks, aToB: bool, leg: Leg): Result<(Pool, Ticks)> {
    if !leg.reachesNextTick then Ok((pool.(tickCurrentIndex := leg.stopsAt), ticks))
    else
      var arrived := pool.(tickCurrentIndex := if aToB then leg.nextTick - 1 else leg.nextTick);
      var tick := TickAt(ticks, leg.nextTick);
      if !tick.initialized then Ok((arrived, ticks))
      else
        var (update, liquidity) :- CalculateUpdate(tick, aToB, pool.liquidity, pool.feeGrowthGlobalA,
                                                   pool.feeGrowthGlobalB, pool.rewardInfos);
        Ok((arrived.(liquidity := liquidity), ticks[leg.nextTick := update]))
  }

  function SwapLegs(pool: Pool, ticks: Ticks, aToB: bool, legs: seq<Leg>): Result<(Pool, Ticks)>
    decreases |legs|
  {
    if legs == [] then Ok((pool, ticks))
    else
      var (pool', ticks') :- MoveTick(AddFeeGrowth(pool, aToB, legs[0].feeAmount), ticks, aToB, legs[0]);
      SwapLegs(pool', ticks', aToB, legs[1..])
  }

  /**
    A whole swap. Rewards are brought up to date first.
  */
  function SwapUpdate(pool: Pool, ticks: Ticks, aToB: bool, legs: seq<Leg>, timestamp: u64): Result<(Pool, Ticks)> {
    var rewards :- PoolManager.NextPoolRewardInfos(pool, timestamp);
    var start := pool.(rewardInfos := rewards, rewardLastUpdatedTimestamp := timestamp);
    SwapLegs(start, ticks, aToB, legs)
  }
}
