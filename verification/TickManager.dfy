/** Growth bookkeeping at a tick (manager/tick_manager.rs). */
module TickManager {
  import opened Words
  import FixedPoint
  import opened State

  // ---- Crossing ------------------------------------------------------------------------------

  function NextTickCrossUpdate(tick: Tick, growthA: u128, growthB: u128, rewards: RewardInfos): Tick {
    tick.(
      feeGrowthOutsideA := WrapSub(growthA, tick.feeGrowthOutsideA),
      feeGrowthOutsideB := WrapSub(growthB, tick.feeGrowthOutsideB),
      rewardGrowthsOutside := seq(NUM_REWARDS, i requires 0 <= i < NUM_REWARDS =>
        if rewards[i].initialized
        then WrapSub(rewards[i].growthGlobalX64, tick.rewardGrowthsOutside[i])
        else tick.rewardGrowthsOutside[i]))
  }

  method ComputeTickCrossUpdate(tick: Tick, growthA: u128, growthB: u128, rewards: RewardInfos)
    returns (update: Tick)
    ensures update == NextTickCrossUpdate(tick, growthA, growthB, rewards)
  {
    update := tick;
    update := update.(feeGrowthOutsideA := WrapSub(growthA, tick.feeGrowthOutsideA));
    update := update.(feeGrowthOutsideB := WrapSub(growthB, tick.feeGrowthOutsideB));
    var i := 0;
    while i < NUM_REWARDS
      invariant 0 <= i <= NUM_REWARDS
      invariant forall j :: 0 <= j < i ==>
        update.rewardGrowthsOutside[j] == NextTickCrossUpdate(tick, growthA, growthB, rewards).rewardGrowthsOutside[j]
      invariant forall j :: i <= j < NUM_REWARDS ==>
        update.rewardGrowthsOutside[j] == tick.rewardGrowthsOutside[j]
      invariant update == NextTickCrossUpdate(tick, growthA, growthB, rewards)
                          .(rewardGrowthsOutside := update.rewardGrowthsOutside)
    {
      if rewards[i].initialized {
        update := update.(rewardGrowthsOutside := update.rewardGrowthsOutside[
          i := WrapSub(rewards[i].growthGlobalX64, tick.rewardGrowthsOutside[i])]);
      }
      i := i + 1;
    }
    assert update.rewardGrowthsOutside
        == NextTickCrossUpdate(tick, growthA, growthB, rewards).rewardGrowthsOutside;
  }

  // ---- Changing the liquidity that ends at a tick ------------------------------------------------

  function ToRewardGrowths(rewards: RewardInfos): Growths {
    seq(NUM_REWARDS, i requires 0 <= i < NUM_REWARDS => rewards[i].growthGlobalX64)
  }

  function NextTickModifyLiquidityUpdate(
      tick: Tick, index: int, current: int, growthA: u128, growthB: u128,
      rewards: RewardInfos, delta: i128, isUpper: bool): Result<Tick>
  {
    if delta == 0 then Ok(tick)
    else
      var gross :- FixedPoint.AddLiquidityDelta(tick.liquidityGross, delta);
      if gross == 0 then Ok(DEFAULT_TICK)
      else
        var (outsideA, outsideB, outsideRewards) :=
          if tick.liquidityGross == 0 then
            if current >= index then (growthA, growthB, ToRewardGrowths(rewards))
            else (0, 0, [0, 0, 0])
          else (tick.feeGrowthOutsideA, tick.feeGrowthOutsideB, tick.rewardGrowthsOutside);
        var net := if isUpper then tick.liquidityNet - delta else tick.liquidityNet + delta;
        if net < -TWO_127 || net >= TWO_127 then Err(LiquidityNetError)
        else Ok(Tick(true, net, gross, outsideA, outsideB, outsideRewards))
  }

  // ---- Growth inside a range --------------------------------------------------------------------

  /** Growth inside [lowerIndex, upperIndex) of one stream, with the program's conventions. */
  function GrowthInside(
      current: int, lower: Tick, lowerIndex: int, upper: Tick, upperIndex: int,
      global: u128, lowerOutside: u128, upperOutside: u128): u128
  {
    var below :=
      if !lower.initialized then global
      else if current < lowerIndex then WrapSub(global, lowerOutside)
      else lowerOutside;
    var above :=
      if !upper.initialized then 0
      else if current < upperIndex then upperOutside
      else WrapSub(global, upperOutside);
    WrapSub(WrapSub(global, below), above)
  }

  function NextFeeGrowthsInside(
      current: int, lower: Tick, lowerIndex: int, upper: Tick, upperIndex: int,
      growthA: u128, growthB: u128): (u128, u128)
  {
    (GrowthInside(current, lower, lowerIndex, upper, upperIndex, growthA,
                  lower.feeGrowthOutsideA, upper.feeGrowthOutsideA),
     GrowthInside(current, lower, lowerIndex, upper, upperIndex, growthB,
                  lower.feeGrowthOutsideB, upper.feeGrowthOutsideB))
  }

  function NextRewardGrowthsInside(
      current: int, lower: Tick, lowerIndex: int, upper: Tick, upperIndex: int,
      rewards: RewardInfos): Growths
  {
    seq(NUM_REWARDS, i requires 0 <= i < NUM_REWARDS =>
      if !rewards[i].initialized then 0
      else GrowthInside(current, lower, lowerIndex, upper, upperIndex, rewards[i].growthGlobalX64,
                        lower.rewardGrowthsOutside[i], upper.rewardGrowthsOutside[i]))
  }

  method ComputeRewardGrowthsInside(
      current: int, lower: Tick, lowerIndex: int, upper: Tick, upperIndex: int, rewards: RewardInfos)
    returns (inside: Growths)
    ensures inside == NextRewardGrowthsInside(current, lower, lowerIndex, upper, upperIndex, rewards)
  {
    inside := [0, 0, 0];
    var i := 0;
    while i < NUM_REWARDS
      invariant 0 <= i <= NUM_REWARDS
      invariant forall j :: 0 <= j < i ==>
        inside[j] == NextRewardGrowthsInside(current, lower, lowerIndex, upper, upperIndex, rewards)[j]
      invariant forall j :: i <= j < NUM_REWARDS ==> inside[j] == 0
    {
      if rewards[i].initialized {
        var global := rewards[i].growthGlobalX64;
        var below := global;
        if lower.initialized {
          below := if current < lowerIndex then WrapSub(global, lower.rewardGrowthsOutside[i])
                   else lower.rewardGrowthsOutside[i];
        }
        var above := 0;
        if upper.initialized {
          above := if current < upperIndex then upper.rewardGrowthsOutside[i]
                   else WrapSub(global, upper.rewardGrowthsOutside[i]);
        }
        inside := inside[i := WrapSub(WrapSub(global, below), above)];
      }
      i := i + 1;
    }
  }

  /** Growth inside of any stream, as the two functions above report it. */
  function InsideOf(pool: Pool, lower: Tick, lowerIndex: int, upper: Tick, upperIndex: int, k: Stream): u128 {
    match k
    case FeeA => NextFeeGrowthsInside(pool.tickCurrentIndex, lower, lowerIndex, upper, upperIndex,
                                      pool.feeGrowthGlobalA, pool.feeGrowthGlobalB).0
    case FeeB => NextFeeGrowthsInside(pool.tickCurrentIndex, lower, lowerIndex, upper, upperIndex,
                                      pool.feeGrowthGlobalA, pool.feeGrowthGlobalB).1
    case Reward(i) => NextRewardGrowthsInside(pool.tickCurrentIndex, lower, lowerIndex, upper, upperIndex,
                                              pool.rewardInfos)[i]
  }

  /** The growth the program attributes to prices below a tick; an uninitialized tick gets all of it. */
  function AttributedBelow(pool: Pool, tick: Tick, index: int, k: Stream): u128 {
    if !Active(pool, k) then 0
    else if !tick.initialized then Growth(pool, k)
    else if pool.tickCurrentIndex < index then WrapSub(Growth(pool, k), Outside(tick, k))
    else Outside(tick, k)
  }

  /** Below, above and global growth are three views of one cumulative measure over ticks. */
  lemma InsideIsDifference(pool: Pool, lower: Tick, lowerIndex: int, upper: Tick, upperIndex: int, k: Stream)
    ensures InsideOf(pool, lower, lowerIndex, upper, upperIndex, k)
         == WrapSub(AttributedBelow(pool, upper, upperIndex, k), AttributedBelow(pool, lower, lowerIndex, k))
  {
    if Active(pool, k) {
      InsideOfActive(pool, lower, lowerIndex, upper, upperIndex, k);
      var g := Growth(pool, k);
      var below := AttributedBelow(pool, lower, lowerIndex, k);
      WrapSubTwice(g, below, AttributedBelow(pool, upper, upperIndex, k));
      WrapSubTwice(g, below, Outside(upper, k));
    }
  }

  lemma InsideOfActive(pool: Pool, lower: Tick, lowerIndex: int, upper: Tick, upperIndex: int, k: Stream)
    requires Active(pool, k)
    ensures InsideOf(pool, lower, lowerIndex, upper, upperIndex, k)
         == GrowthInside(pool.tickCurrentIndex, lower, lowerIndex, upper, upperIndex,
                         Growth(pool, k), Outside(lower, k), Outside(upper, k))
  {
  }

  /** Adjacent ranges add up, whichever of the three ticks are initialized. */
  lemma InsideIsAdditive(
      pool: Pool, lower: Tick, l: int, middle: Tick, m: int, upper: Tick, u: int, k: Stream)
    ensures WrapAdd(InsideOf(pool, lower, l, middle, m, k), InsideOf(pool, middle, m, upper, u, k))
         == InsideOf(pool, lower, l, upper, u, k)
  {
    InsideIsDifference(pool, lower, l, middle, m, k);
    InsideIsDifference(pool, middle, m, upper, u, k);
    InsideIsDifference(pool, lower, l, upper, u, k);
  }

  /** Crossing flips a tick's outside value and its side of the current tick, so nothing moves. */
  lemma CrossKeepsAttribution(pool: Pool, tick: Tick, index: int, current: int, k: Stream)
    requires tick.initialized
    requires (pool.tickCurrentIndex < index) != (current < index)
    ensures
      var crossed := NextTickCrossUpdate(tick, pool.feeGrowthGlobalA, pool.feeGrowthGlobalB, pool.rewardInfos);
      AttributedBelow(pool.(tickCurrentIndex := current), crossed, index, k)
        == AttributedBelow(pool, tick, index, k)
  {
  }

  /** Giving a tick its first liquidity, or changing a non-zero amount to another, is invisible. */
  lemma ModifyKeepsAttribution(pool: Pool, tick: Tick, index: int, delta: i128, isUpper: bool, k: Stream)
    requires tick.initialized <==> tick.liquidityGross > 0
    ensures
      var r := NextTickModifyLiquidityUpdate(tick, index, pool.tickCurrentIndex, pool.feeGrowthGlobalA,
                                             pool.feeGrowthGlobalB, pool.rewardInfos, delta, isUpper);
      r.Ok? && (r.value.initialized || !tick.initialized) ==>
        AttributedBelow(pool, r.value, index, k) == AttributedBelow(pool, tick, index, k)
  {
  }
}
