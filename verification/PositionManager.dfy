/** Settlement of a position and its liquidity change (manager/position_manager.rs). */
module PositionManager {
  import opened Words
  import opened FixedPoint
  import opened State
  import Rounding

  /** Amount a growth since the checkpoint is worth; an overflowing product is forfeited. */
  function Credit(liquidity: u128, inside: u128, checkpoint: u128): u64 {
    var amount := CheckedMulShiftRight(liquidity, WrapSub(inside, checkpoint));
    if amount.Ok? then amount.value else 0
  }

  function NextPositionModifyLiquidityUpdate(
      position: Position, delta: i128, insideA: u128, insideB: u128, rewardsInside: Growths): Result<Position>
  {
    var liquidity :- AddLiquidityDelta(position.liquidity, delta);
    Ok(position.(
      liquidity := liquidity,
      feeGrowthCheckpointA := insideA,
      feeGrowthCheckpointB := insideB,
      feeOwedA := WrapAdd64(position.feeOwedA,
        Credit(position.liquidity, insideA, position.feeGrowthCheckpointA)),
      feeOwedB := WrapAdd64(position.feeOwedB,
        Credit(position.liquidity, insideB, position.feeGrowthCheckpointB)),
      rewardInfos := SettledRewards(position, rewardsInside)))
  }

  function SettledRewards(position: Position, rewardsInside: Growths): PositionRewards {
    seq(NUM_REWARDS, i requires 0 <= i < NUM_REWARDS =>
      PositionReward(
        rewardsInside[i],
        WrapAdd64(position.rewardInfos[i].amountOwed,
          Credit(position.liquidity, rewardsInside[i], position.rewardInfos[i].growthInsideCheckpoint))))
  }

  method ComputePositionUpdate(
      position: Position, delta: i128, insideA: u128, insideB: u128, rewardsInside: Growths)
    returns (r: Result<Position>)
    ensures r == NextPositionModifyLiquidityUpdate(position, delta, insideA, insideB, rewardsInside)
  {
    var update := position;
    var feeDeltaA := Credit(position.liquidity, insideA, position.feeGrowthCheckpointA);
    var feeDeltaB := Credit(position.liquidity, insideB, position.feeGrowthCheckpointB);
    update := update.(feeGrowthCheckpointA := insideA, feeGrowthCheckpointB := insideB);
    update := update.(feeOwedA := WrapAdd64(position.feeOwedA, feeDeltaA),
                      feeOwedB := WrapAdd64(position.feeOwedB, feeDeltaB));
    var i := 0;
    while i < NUM_REWARDS
      invariant 0 <= i <= NUM_REWARDS
      invariant forall j :: 0 <= j < i ==> update.rewardInfos[j] == SettledRewards(position, rewardsInside)[j]
      invariant update == position.(
        feeGrowthCheckpointA := insideA, feeGrowthCheckpointB := insideB,
        feeOwedA := WrapAdd64(position.feeOwedA, feeDeltaA), feeOwedB := WrapAdd64(position.feeOwedB, feeDeltaB),
        rewardInfos := update.rewardInfos)
    {
      var current := position.rewardInfos[i];
      var owedDelta := Credit(position.liquidity, rewardsInside[i], current.growthInsideCheckpoint);
      update := update.(rewardInfos := update.rewardInfos[
        i := PositionReward(rewardsInside[i], WrapAdd64(current.amountOwed, owedDelta))]);
      i := i + 1;
    }
    assert update.rewardInfos == SettledRewards(position, rewardsInside);
    var liquidity := AddLiquidityDelta(position.liquidity, delta);
    if liquidity.Err? {
      return Err(liquidity.error);
    }
    return Ok(update.(liquidity := liquidity.value));
  }

  /** A settlement never credits more than liquidity times true growth, and credits exactly that when it fits. */
  lemma CreditIsFloor(liquidity: u128, inside: u128, checkpoint: u128, earned: int)
    requires 0 <= earned && Congruent(inside - checkpoint, earned)
    ensures TWO_64 * Credit(liquidity, inside, checkpoint) <= liquidity * earned
    ensures liquidity * earned < TWO_128 ==>
      Credit(liquidity, inside, checkpoint) == liquidity * earned / TWO_64
  {
    var delta := WrapSub(inside, checkpoint);
    WrapSubCongruent(inside, checkpoint);
    CongruentTransitive(delta, inside - checkpoint, earned);
    WordIsLeast(delta, earned);
    Rounding.Scale(delta, earned, liquidity);
    assert 0 <= liquidity * delta;
    if liquidity > 0 && liquidity * earned < TWO_128 {
      Rounding.Scale(1, liquidity, earned);
      assert delta == earned;
    }
    if liquidity * delta < TWO_128 {
      ShiftFits(liquidity * delta);
    }
  }
}
