/** Reward accrual and active liquidity of a pool (manager/pool_manager.rs). */
module PoolManager {
  import opened Words
  import opened FixedPoint
  import opened State
  import Rounding

  /** Growth of one reward over some seconds; an overflowing product pays nothing. */
  function RewardGrowthDelta(seconds: u64, emissionsPerSecondX64: u128, liquidity: u128): u128 {
    var delta := CheckedMulDiv(seconds, emissionsPerSecondX64, liquidity);
    if delta.Ok? then delta.value else 0
  }

  function NextPoolRewardInfos(pool: Pool, timestamp: u64): Result<RewardInfos> {
    var last := pool.rewardLastUpdatedTimestamp;
    if timestamp < last then Err(InvalidTimestamp)
    else if pool.liquidity == 0 || timestamp == last then Ok(pool.rewardInfos)
    else Ok(seq(NUM_REWARDS, i requires 0 <= i < NUM_REWARDS =>
      var info := pool.rewardInfos[i];
      if !info.initialized then info
      else info.(growthGlobalX64 := WrapAdd(info.growthGlobalX64,
        RewardGrowthDelta(timestamp - last, info.emissionsPerSecondX64, pool.liquidity)))))
  }

  method ComputePoolRewardInfos(pool: Pool, timestamp: u64) returns (r: Result<RewardInfos>)
    ensures r == NextPoolRewardInfos(pool, timestamp)
  {
    var current := pool.rewardLastUpdatedTimestamp;
    if timestamp < current {
      return Err(InvalidTimestamp);
    }
    if pool.liquidity == 0 || timestamp == current {
      return Ok(pool.rewardInfos);
    }
    var next := pool.rewardInfos;
    var elapsed := timestamp - current;
    var i := 0;
    while i < NUM_REWARDS
      invariant 0 <= i <= NUM_REWARDS
      invariant forall j :: 0 <= j < i ==> next[j] == NextPoolRewardInfos(pool, timestamp).value[j]
      invariant forall j :: i <= j < NUM_REWARDS ==> next[j] == pool.rewardInfos[j]
    {
      if next[i].initialized {
        var delta := CheckedMulDiv(elapsed, next[i].emissionsPerSecondX64, pool.liquidity);
        var growth := if delta.Ok? then delta.value else 0;
        next := next[i := next[i].(growthGlobalX64 := WrapAdd(next[i].growthGlobalX64, growth))];
      }
      i := i + 1;
    }
    assert next == NextPoolRewardInfos(pool, timestamp).value;
    return Ok(next);
  }

  function NextPoolLiquidity(pool: Pool, upperIndex: int, lowerIndex: int, delta: i128): Result<u128> {
    if lowerIndex <= pool.tickCurrentIndex < upperIndex then AddLiquidityDelta(pool.liquidity, delta)
    else Ok(pool.liquidity)
  }

  /** What accrues per unit of liquidity never exceeds what was emitted. */
  lemma RewardGrowthIsFunded(seconds: u64, emissionsPerSecondX64: u128, liquidity: u128)
    ensures liquidity * RewardGrowthDelta(seconds, emissionsPerSecondX64, liquidity)
         <= seconds * emissionsPerSecondX64
  {
    if liquidity > 0 && seconds * emissionsPerSecondX64 < TWO_128 {
      Rounding.FloorWithin(seconds * emissionsPerSecondX64, liquidity);
    } else {
      Rounding.Scale(0, seconds, emissionsPerSecondX64);
    }
  }

  lemma NoTimeNoGrowth(rate: u128, liquidity: u128)
    ensures RewardGrowthDelta(0, rate, liquidity) == 0
  {
    assert 0 * rate == 0;
    if liquidity > 0 {
      Rounding.FloorWithin(0, liquidity);
    }
  }
}
