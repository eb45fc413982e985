/** Each instruction handler keeps the invariant. */
module Steps {
  import opened Words
  import opened State
  import opened TickManager
  import opened PoolManager
  import opened SwapManager
  import opened Machine
  import opened Sums
  import opened Books
  import opened Invariant
  import Rounding

  // ---- Time ------------------------------------------------------------------------------------------

  /** One reward brought up to date, as a single growth increment. */
  function GrowReward(m: Machine, timestamp: u64, i: RewardIndex): Machine {
    var entry := RewardEvent(m.pool, timestamp, i);
    if entry == [] then m
    else
      var info := m.pool.rewardInfos[i];
      var last := m.pool.rewardLastUpdatedTimestamp;
      Grow(m, Reward(i), RewardGrowthDelta(timestamp - last, info.emissionsPerSecondX64, m.pool.liquidity),
           entry[0].budgetX64)
  }

  function Stamp(m: Machine, timestamp: u64): Machine {
    m.(pool := m.pool.(rewardLastUpdatedTimestamp := timestamp))
  }

  /** One growth does the update of its own reward and leaves the entries of the others as they were. */
  lemma GrowRewardEffect(m: Machine, timestamp: u64, i: RewardIndex)
    requires NextPoolRewardInfos(m.pool, timestamp).Ok?
    ensures
      var m' := GrowReward(m, timestamp, i);
      && m' == m.(pool := m'.pool, log := m.log + RewardEvent(m.pool, timestamp, i))
      && m'.pool == m.pool.(rewardInfos := m.pool.rewardInfos[i := NextPoolRewardInfos(m.pool, timestamp).value[i]])
  {
  }

  lemma AdvanceIsThreeGrowths(m: Machine, timestamp: u64)
    requires AdvanceTo(m, timestamp).Ok?
    ensures AdvanceTo(m, timestamp).value
         == Stamp(GrowReward(GrowReward(GrowReward(m, timestamp, 0), timestamp, 1), timestamp, 2), timestamp)
  {
    var next := NextPoolRewardInfos(m.pool, timestamp).value;
    GrowRewardEffect(m, timestamp, 0);
    var m1 := GrowReward(m, timestamp, 0);
    GrowRewardEffect(m1, timestamp, 1);
    assert RewardEvent(m1.pool, timestamp, 1) == RewardEvent(m.pool, timestamp, 1);
    var m2 := GrowReward(m1, timestamp, 1);
    GrowRewardEffect(m2, timestamp, 2);
    assert RewardEvent(m2.pool, timestamp, 2) == RewardEvent(m.pool, timestamp, 2);
    var m3 := GrowReward(m2, timestamp, 2);
    assert m3.log == m.log + RewardEvents(m.pool, timestamp);
    assert m3.pool.rewardInfos == next;
  }

  lemma GrowRewardKeepsInv(m: Machine, timestamp: u64, i: RewardIndex)
    requires Inv(m)
    ensures Inv(GrowReward(m, timestamp, i))
  {
    var entry := RewardEvent(m.pool, timestamp, i);
    if entry != [] {
      var info := m.pool.rewardInfos[i];
      var seconds := timestamp - m.pool.rewardLastUpdatedTimestamp;
      RewardGrowthIsFunded(seconds, info.emissionsPerSecondX64, m.pool.liquidity);
      GrowKeepsInv(m, Reward(i), RewardGrowthDelta(seconds, info.emissionsPerSecondX64, m.pool.liquidity),
                   entry[0].budgetX64);
    }
  }

  /** Changing the time stamp or an emission rate touches nothing the invariant reads. */
  lemma SettingsKeepInv(m: Machine, m': Machine)
    requires Inv(m)
    requires m' == m.(pool := m.pool.(rewardInfos := m'.pool.rewardInfos,
                                      rewardLastUpdatedTimestamp := m'.pool.rewardLastUpdatedTimestamp))
    requires forall i :: 0 <= i < NUM_REWARDS ==>
      m'.pool.rewardInfos[i].growthGlobalX64 == m.pool.rewardInfos[i].growthGlobalX64 &&
      m'.pool.rewardInfos[i].initialized == m.pool.rewardInfos[i].initialized
    ensures Inv(m')
  {
    forall k
      ensures StreamInvariant(m', k)
    {
      assert StreamInvariant(m, k);
      forall t
        ensures Below(m', k, t) == Below(m, k, t)
      {
      }
      SumAgrees(|m.positions|, ClaimOf(m, k), ClaimOf(m', k));
      SumAgrees(|m.positions|, OwedOf(m, k), OwedOf(m', k));
      forall i | 0 <= i < |m'.positions|
        ensures Agrees(m', i, k)
      {
        assert Agrees(m, i, k);
      }
    }
    BooksIgnoreGrowth(m.positions, m.ticks, m.pool, m'.pool);
  }

  lemma AdvanceKeepsInv(m: Machine, timestamp: u64)
    requires Inv(m) && AdvanceTo(m, timestamp).Ok?
    ensures Inv(AdvanceTo(m, timestamp).value)
  {
    AdvanceIsThreeGrowths(m, timestamp);
    GrowRewardKeepsInv(m, timestamp, 0);
    var m1 := GrowReward(m, timestamp, 0);
    GrowRewardKeepsInv(m1, timestamp, 1);
    var m2 := GrowReward(m1, timestamp, 1);
    GrowRewardKeepsInv(m2, timestamp, 2);
    var m3 := GrowReward(m2, timestamp, 2);
    SettingsKeepInv(m3, Stamp(m3, timestamp));
  }

  // ---- Moving the current tick ---------------------------------------------------------------------------

  /** Only the current tick, the active liquidity and outside values may differ. */
  ghost predicate Relocated(m: Machine, m': Machine) {
    && m' == m.(pool := m'.pool, ticks := m'.ticks)
    && m'.pool == m.pool.(tickCurrentIndex := m'.pool.tickCurrentIndex, liquidity := m'.pool.liquidity)
    && forall t {:trigger TickAt(m'.ticks, t)} {:trigger TickAt(m.ticks, t)} ::
         TickAt(m'.ticks, t).initialized == TickAt(m.ticks, t).initialized
  }

  /** If attribution stays put at every initialized tick, positions and claims do not notice. */
  lemma RelocationKeepsStream(m: Machine, m': Machine, k: Stream)
    requires WellFormed(m) && (forall t :: TickBooks(m.positions, m.ticks, t)) && StreamInvariant(m, k)
    requires Relocated(m, m') && Dormant(m', k)
    requires forall t :: TickAt(m.ticks, t).initialized ==> Below(m', k, t) == Below(m, k, t)
    ensures StreamInvariant(m', k)
  {
    forall i | 0 <= i < |m'.positions|
      ensures Agrees(m', i, k)
    {
      var p := m.positions[i];
      assert Agrees(m, i, k);
      if p.liquidity > 0 {
        LiquidityKeepsTicks(m.positions, m.ticks, i, p.tickLowerIndex);
        LiquidityKeepsTicks(m.positions, m.ticks, i, p.tickUpperIndex);
      }
    }
    SumAgrees(|m.positions|, ClaimOf(m, k), ClaimOf(m', k));
    SumAgrees(|m.positions|, OwedOf(m, k), OwedOf(m', k));
  }

  /** Coming to rest, or passing an uninitialized tick, with no initialized tick in between. */
  lemma DriftKeepsInv(m: Machine, current: int)
    requires Inv(m)
    requires NoneInitialized(m.ticks, m.pool.tickCurrentIndex, current, m.pool.tickCurrentIndex)
    requires NoneInitialized(m.ticks, current, m.pool.tickCurrentIndex, current)
    ensures Inv(m.(pool := m.pool.(tickCurrentIndex := current)))
  {
    var m' := m.(pool := m.pool.(tickCurrentIndex := current));
    var start := m.pool.tickCurrentIndex;
    if start <= current {
      ActiveBetweenTicks(m.positions, m.ticks, start, current);
    } else {
      ActiveBetweenTicks(m.positions, m.ticks, current, start);
    }
    forall k
      ensures StreamInvariant(m', k)
    {
      assert StreamInvariant(m, k);
      RelocationKeepsStream(m, m', k);
    }
  }

  /** Crossing one initialized tick, with no other on the way. */
  lemma CrossKeepsInv(m: Machine, aToB: bool, tick: int)
    requires Inv(m) && TickAt(m.ticks, tick).initialized
    requires aToB ==> TickAt(m.ticks, tick).liquidityNet != -TWO_127
    requires if aToB then tick <= m.pool.tickCurrentIndex && NoneInitialized(m.ticks, tick, m.pool.tickCurrentIndex, tick)
             else m.pool.tickCurrentIndex < tick && NoneInitialized(m.ticks, m.pool.tickCurrentIndex, tick, tick)
    requires CalculateUpdate(TickAt(m.ticks, tick), aToB, m.pool.liquidity, m.pool.feeGrowthGlobalA,
                             m.pool.feeGrowthGlobalB, m.pool.rewardInfos).Ok?
    ensures
      var (update, liquidity) := CalculateUpdate(TickAt(m.ticks, tick), aToB, m.pool.liquidity,
        m.pool.feeGrowthGlobalA, m.pool.feeGrowthGlobalB, m.pool.rewardInfos).value;
      Inv(m.(pool := m.pool.(tickCurrentIndex := if aToB then tick - 1 else tick, liquidity := liquidity),
             ticks := m.ticks[tick := update]))
  {
    var (update, liquidity) := CalculateUpdate(TickAt(m.ticks, tick), aToB, m.pool.liquidity,
      m.pool.feeGrowthGlobalA, m.pool.feeGrowthGlobalB, m.pool.rewardInfos).value;
    var current := if aToB then tick - 1 else tick;
    var m' := m.(pool := m.pool.(tickCurrentIndex := current, liquidity := liquidity), ticks := m.ticks[tick := update]);
    CrossKeepsBooks(m, m', tick);
    if aToB {
      ActiveAcrossTick(m.positions, m.ticks, current, tick, m.pool.tickCurrentIndex);
    } else {
      ActiveAcrossTick(m.positions, m.ticks, m.pool.tickCurrentIndex, tick, current);
    }
    assert TickBooks(m.positions, m.ticks, tick);
    forall k
      ensures StreamInvariant(m', k)
    {
      assert StreamInvariant(m, k);
      CrossKeepsStream(m, m', tick, k);
    }
  }

  /** The accounts after a crossing. */
  ghost predicate Crossed(m: Machine, m': Machine, tick: int) {
    && Relocated(m, m') && TickAt(m.ticks, tick).initialized
    && m'.ticks == m.ticks[tick := NextTickCrossUpdate(TickAt(m.ticks, tick), m.pool.feeGrowthGlobalA,
                                                       m.pool.feeGrowthGlobalB, m.pool.rewardInfos)]
  }

  lemma CrossKeepsBooks(m: Machine, m': Machine, tick: int)
    requires Crossed(m, m', tick) && forall t :: TickBooks(m.positions, m.ticks, t)
    ensures forall t :: TickBooks(m'.positions, m'.ticks, t)
  {
    forall t
      ensures TickBooks(m'.positions, m'.ticks, t)
    {
      assert TickBooks(m.positions, m.ticks, t);
    }
  }

  lemma CrossKeepsStream(m: Machine, m': Machine, tick: int, k: Stream)
    requires WellFormed(m) && (forall t :: TickBooks(m.positions, m.ticks, t)) && StreamInvariant(m, k)
    requires Crossed(m, m', tick) && (m.pool.tickCurrentIndex < tick) != (m'.pool.tickCurrentIndex < tick)
    requires forall t {:trigger TickAt(m.ticks, t)} :: t != tick && TickAt(m.ticks, t).initialized ==>
      (m.pool.tickCurrentIndex < t) == (m'.pool.tickCurrentIndex < t)
    ensures StreamInvariant(m', k)
  {
    CrossKeepsAttribution(m.pool, TickAt(m.ticks, tick), tick, m'.pool.tickCurrentIndex, k);
    CrossKeepsDormancy(m, tick, k);
    RelocationKeepsStream(m, m', k);
  }

  lemma CrossKeepsDormancy(m: Machine, tick: int, k: Stream)
    requires Dormant(m, k)
    ensures
      var update := NextTickCrossUpdate(TickAt(m.ticks, tick), m.pool.feeGrowthGlobalA,
                                        m.pool.feeGrowthGlobalB, m.pool.rewardInfos);
      !Active(m.pool, k) ==> Outside(update, k) == 0
  {
    assert Outside(TickAt(m.ticks, tick), k) == 0 || Active(m.pool, k);
  }

  // ---- Swaps -----------------------------------------------------------------------------------------------

  lemma FeeGrowthIsFunded(fee: u64, liquidity: u128)
    ensures liquidity * FeeGrowthDelta(fee, liquidity) <= fee * TWO_64
  {
    if liquidity > 0 {
      Rounding.FloorWithin(fee * TWO_64, liquidity);
    }
  }

  function AfterFee(m: Machine, aToB: bool, feeAmount: u64): Machine {
    m.(pool := AddFeeGrowth(m.pool, aToB, feeAmount), log := m.log + [FeeEvent(m.pool, aToB, feeAmount)])
  }

  lemma FeeKeepsInv(m: Machine, aToB: bool, feeAmount: u64)
    requires Inv(m)
    ensures Inv(AfterFee(m, aToB, feeAmount))
  {
    var fee := LiquidityFee(feeAmount, m.pool.protocolFeeRate);
    FeeGrowthIsFunded(fee, m.pool.liquidity);
    var delta := FeeGrowthDelta(fee, m.pool.liquidity);
    GrowKeepsInv(m, FeeStream(aToB), delta, fee * TWO_64);
    assert AfterFee(m, aToB, feeAmount) == Grow(m, FeeStream(aToB), delta, fee * TWO_64);
  }

  lemma MoveKeepsInv(m: Machine, aToB: bool, leg: Leg)
    requires Inv(m) && FollowsSearch(m.pool, m.ticks, aToB, leg) && NegatesNet(m.ticks, aToB, leg)
    requires MoveTick(m.pool, m.ticks, aToB, leg).Ok?
    ensures var (pool, ticks) := MoveTick(m.pool, m.ticks, aToB, leg).value; Inv(m.(pool := pool, ticks := ticks))
  {
    if !leg.reachesNextTick {
      DriftKeepsInv(m, leg.stopsAt);
    } else if TickAt(m.ticks, leg.nextTick).initialized {
      CrossKeepsInv(m, aToB, leg.nextTick);
    } else {
      DriftKeepsInv(m, if aToB then leg.nextTick - 1 else leg.nextTick);
    }
  }

  function AfterLegs(m: Machine, aToB: bool, legs: seq<Leg>): Machine
    requires SwapLegs(m.pool, m.ticks, aToB, legs).Ok?
  {
    var (pool, ticks) := SwapLegs(m.pool, m.ticks, aToB, legs).value;
    m.(pool := pool, ticks := ticks, log := m.log + FeeEvents(m.pool, m.ticks, aToB, legs))
  }

  /** Unfolds the first leg of a successful swap. */
  lemma FirstLeg(m: Machine, aToB: bool, legs: seq<Leg>) returns (next: Machine)
    requires legs != [] && SwapLegs(m.pool, m.ticks, aToB, legs).Ok?
    ensures
      var paid := AfterFee(m, aToB, legs[0].feeAmount);
      var moved := MoveTick(paid.pool, paid.ticks, aToB, legs[0]);
      && moved.Ok?
      && next == paid.(pool := moved.value.0, ticks := moved.value.1)
      && SwapLegs(next.pool, next.ticks, aToB, legs[1..]).Ok?
      && AfterLegs(m, aToB, legs) == AfterLegs(next, aToB, legs[1..])
  {
    var paid := AfterFee(m, aToB, legs[0].feeAmount);
    var moved := MoveTick(paid.pool, paid.ticks, aToB, legs[0]);
    next := paid.(pool := moved.value.0, ticks := moved.value.1);
    assert AfterLegs(m, aToB, legs).log == AfterLegs(next, aToB, legs[1..]).log by {
      assert m.log + ([FeeEvent(m.pool, aToB, legs[0].feeAmount)] + FeeEvents(next.pool, next.ticks, aToB, legs[1..]))
          == next.log + FeeEvents(next.pool, next.ticks, aToB, legs[1..]);
    }
  }

  lemma {:induction false} LegsKeepInv(m: Machine, aToB: bool, legs: seq<Leg>)
    requires Inv(m) && LegsFollowSearch(m.pool, m.ticks, aToB, legs) && LegsNegateNet(m.pool, m.ticks, aToB, legs)
    requires SwapLegs(m.pool, m.ticks, aToB, legs).Ok?
    ensures Inv(AfterLegs(m, aToB, legs))
    decreases |legs|
  {
    if legs == [] {
      assert AfterLegs(m, aToB, legs) == m;
    } else {
      var next := FirstLeg(m, aToB, legs);
      var paid := AfterFee(m, aToB, legs[0].feeAmount);
      FeeKeepsInv(m, aToB, legs[0].feeAmount);
      MoveKeepsInv(paid, aToB, legs[0]);
      LegsKeepInv(next, aToB, legs[1..]);
    }
  }

  lemma SwapKeepsInv(m: Machine, aToB: bool, legs: seq<Leg>, timestamp: u64)
    requires Inv(m) && Possible(m, DoSwap(aToB, legs, timestamp)) && Swap(m, aToB, legs, timestamp).Ok?
    ensures Inv(Swap(m, aToB, legs, timestamp).value)
  {
    AdvanceKeepsInv(m, timestamp);
    LegsKeepInv(AdvanceTo(m, timestamp).value, aToB, legs);
  }
}
