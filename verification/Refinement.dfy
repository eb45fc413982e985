/** The wrapping accumulators agree with the naive ledger, over every run and at every settlement. */
module Refinement {
  import opened Words
  import FixedPoint
  import opened State
  import TickManager
  import PoolManager
  import opened SwapManager
  import opened Ledger
  import opened Machine
  import opened Books
  import opened Invariant
  import opened Steps
  import opened Liquidity
  import opened Runs

  /** From m to m' the log was extended, and growth inside moved by exactly what the extension says. */
  ghost predicate Tracks(m: Machine, m': Machine, l: int, u: int, k: Stream) {
    && |m.log| <= |m'.log| && m'.log[..|m.log|] == m.log
    && Congruent(RangeGrowth(m', l, u, k) - RangeGrowth(m, l, u, k), Earned(m'.log[|m.log|..], k, l, u))
  }

  lemma TracksTransitive(m: Machine, m1: Machine, m2: Machine, l: int, u: int, k: Stream)
    requires Tracks(m, m1, l, u, k) && Tracks(m1, m2, l, u, k)
    ensures Tracks(m, m2, l, u, k)
  {
    var first, second := m1.log[|m.log|..], m2.log[|m1.log|..];
    assert m2.log[|m.log|..] == first + second;
    Concat(first, second, k, l, u);
    CongruentSum(RangeGrowth(m1, l, u, k) - RangeGrowth(m, l, u, k), Earned(first, k, l, u),
                 RangeGrowth(m2, l, u, k) - RangeGrowth(m1, l, u, k), Earned(second, k, l, u));
  }

  /** Nothing that leaves the attribution at both ticks alone, and logs no growth, is noticed. */
  lemma SameAttributionTracks(m: Machine, m': Machine, l: int, u: int, k: Stream)
    requires Below(m', k, l) == Below(m, k, l) && Below(m', k, u) == Below(m, k, u)
    requires |m.log| <= |m'.log| && m'.log[..|m.log|] == m.log
    requires Earned(m'.log[|m.log|..], k, l, u) == 0
    ensures Tracks(m, m', l, u, k)
  {
    RangeGrowthIsDifference(m, l, u, k);
    RangeGrowthIsDifference(m', l, u, k);
    CongruentReflexive(0);
  }

  lemma SameLogTracks(m: Machine, m': Machine, l: int, u: int, k: Stream)
    requires Below(m', k, l) == Below(m, k, l) && Below(m', k, u) == Below(m, k, u) && m'.log == m.log
    ensures Tracks(m, m', l, u, k)
  {
    assert m'.log[|m.log|..] == [];
    SameAttributionTracks(m, m', l, u, k);
  }

  ghost predicate BothInitialized(ticks: Ticks, l: int, u: int) {
    TickAt(ticks, l).initialized && TickAt(ticks, u).initialized
  }

  // ---- Growth and time ------------------------------------------------------------------------------------

  /** Growth inside moves by the increment exactly if the current tick is in the range. */
  lemma RangeAfterGrow(m: Machine, k: Stream, delta: u128, budgetX64: nat, l: int, u: int)
    requires Active(m.pool, k) && BothInitialized(m.ticks, l, u) && l < u
    ensures Congruent(RangeGrowth(Grow(m, k, delta, budgetX64), l, u, k) - RangeGrowth(m, l, u, k),
                      if l <= m.pool.tickCurrentIndex < u then delta else 0)
  {
    var m', c := Grow(m, k, delta, budgetX64), m.pool.tickCurrentIndex;
    BelowAfterGrow(m, k, delta, budgetX64, l);
    BelowAfterGrow(m, k, delta, budgetX64, u);
    RangeGrowthIsDifference(m, l, u, k);
    RangeGrowthIsDifference(m', l, u, k);
    DifferenceMoves(Below(m, k, l), Below(m', k, l), Below(m, k, u), Below(m', k, u), RangeGrowth(m, l, u, k),
                    RangeGrowth(m', l, u, k), if c < l then delta else 0, if c < u then delta else 0);
  }

  lemma GrowTracks(m: Machine, j: Stream, delta: u128, budgetX64: nat, l: int, u: int, k: Stream)
    requires Active(m.pool, j) && BothInitialized(m.ticks, l, u) && l < u
    ensures Tracks(m, Grow(m, j, delta, budgetX64), l, u, k)
  {
    var m' := Grow(m, j, delta, budgetX64);
    var e := Grew(j, m.pool.tickCurrentIndex, delta, budgetX64);
    assert m'.log[|m.log|..] == [] + [e];
    Append([], e, k, l, u);
    if j == k {
      RangeAfterGrow(m, k, delta, budgetX64, l, u);
    } else {
      BelowOfOtherStreams(m, j, delta, budgetX64, k, l);
      BelowOfOtherStreams(m, j, delta, budgetX64, k, u);
      SameAttributionTracks(m, m', l, u, k);
    }
  }

  lemma DifferenceMoves(below: int, below': int, above: int, above': int, inside: int, inside': int, low: int, high: int)
    requires Congruent(below', below + low) && Congruent(above', above + high)
    requires Congruent(inside, above - below) && Congruent(inside', above' - below')
    ensures Congruent(inside' - inside, high - low)
  {
    CongruentSum(above', above + high, below', below + low);
    CongruentTransitive(inside', above' - below', above + high - (below + low));
    CongruentSum(inside', above + high - (below + low), inside, above - below);
  }

  lemma GrowRewardTracks(m: Machine, timestamp: u64, i: RewardIndex, l: int, u: int, k: Stream)
    requires BothInitialized(m.ticks, l, u) && l < u
    ensures Tracks(m, GrowReward(m, timestamp, i), l, u, k)
  {
    var entry := RewardEvent(m.pool, timestamp, i);
    if entry != [] {
      var info := m.pool.rewardInfos[i];
      var last := m.pool.rewardLastUpdatedTimestamp;
      var delta := PoolManager.RewardGrowthDelta(timestamp - last, info.emissionsPerSecondX64, m.pool.liquidity);
      assert GrowReward(m, timestamp, i) == Grow(m, Reward(i), delta, entry[0].budgetX64);
      GrowTracks(m, Reward(i), delta, entry[0].budgetX64, l, u, k);
    } else {
      SameLogTracks(m, m, l, u, k);
    }
  }

  /** What was tracked so far is tracked through one more reward. */
  lemma TracksOnward(start: Machine, m: Machine, timestamp: u64, i: RewardIndex, l: int, u: int, k: Stream)
    requires Tracks(start, m, l, u, k) && BothInitialized(m.ticks, l, u) && l < u
    ensures Tracks(start, GrowReward(m, timestamp, i), l, u, k)
    ensures BothInitialized(GrowReward(m, timestamp, i).ticks, l, u)
  {
    GrowRewardTracks(m, timestamp, i, l, u, k);
    TracksTransitive(start, m, GrowReward(m, timestamp, i), l, u, k);
  }

  lemma StampTracks(start: Machine, m: Machine, timestamp: u64, l: int, u: int, k: Stream)
    requires Tracks(start, m, l, u, k)
    ensures Tracks(start, Stamp(m, timestamp), l, u, k)
  {
    SameLogTracks(m, Stamp(m, timestamp), l, u, k);
    TracksTransitive(start, m, Stamp(m, timestamp), l, u, k);
  }

  lemma AdvanceTracks(m: Machine, timestamp: u64, l: int, u: int, k: Stream)
    requires BothInitialized(m.ticks, l, u) && l < u && AdvanceTo(m, timestamp).Ok?
    ensures Tracks(m, AdvanceTo(m, timestamp).value, l, u, k)
  {
    SameLogTracks(m, m, l, u, k);
    TracksOnward(m, m, timestamp, 0, l, u, k);
    var m1 := GrowReward(m, timestamp, 0);
    TracksOnward(m, m1, timestamp, 1, l, u, k);
    var m2 := GrowReward(m1, timestamp, 1);
    TracksOnward(m, m2, timestamp, 2, l, u, k);
    StampTracks(m, GrowReward(m2, timestamp, 2), timestamp, l, u, k);
    AdvanceIsThreeGrowths(m, timestamp);
  }

  // ---- Swaps ------------------------------------------------------------------------------------------------

  lemma FeeTracks(m: Machine, aToB: bool, feeAmount: u64, l: int, u: int, k: Stream)
    requires BothInitialized(m.ticks, l, u) && l < u
    ensures Tracks(m, AfterFee(m, aToB, feeAmount), l, u, k)
  {
    var fee := LiquidityFee(feeAmount, m.pool.protocolFeeRate);
    var delta := FeeGrowthDelta(fee, m.pool.liquidity);
    GrowTracks(m, FeeStream(aToB), delta, fee * TWO_64, l, u, k);
    assert AfterFee(m, aToB, feeAmount) == Grow(m, FeeStream(aToB), delta, fee * TWO_64);
  }

  /** A move, crossing or not, keeps the attribution of every tick and keeps it initialized or not. */
  lemma MoveKeepsAttribution(m: Machine, aToB: bool, leg: Leg, t: int, k: Stream)
    requires FollowsSearch(m.pool, m.ticks, aToB, leg) && MoveTick(m.pool, m.ticks, aToB, leg).Ok?
    ensures
      var (pool, ticks) := MoveTick(m.pool, m.ticks, aToB, leg).value;
      && Below(m.(pool := pool, ticks := ticks), k, t) == Below(m, k, t)
      && TickAt(ticks, t).initialized == TickAt(m.ticks, t).initialized
  {
    if leg.reachesNextTick && t == leg.nextTick && TickAt(m.ticks, t).initialized {
      TickManager.CrossKeepsAttribution(m.pool, TickAt(m.ticks, t), t, if aToB then t - 1 else t, k);
    }
  }

  /** Moving the current tick, across a tick or between ticks, changes growth inside of no range at all. */
  lemma MoveIsInvisible(m: Machine, aToB: bool, leg: Leg, l: int, u: int, k: Stream)
    requires FollowsSearch(m.pool, m.ticks, aToB, leg) && MoveTick(m.pool, m.ticks, aToB, leg).Ok?
    ensures
      var (pool, ticks) := MoveTick(m.pool, m.ticks, aToB, leg).value;
      RangeGrowth(m.(pool := pool, ticks := ticks), l, u, k) == RangeGrowth(m, l, u, k)
  {
    var (pool, ticks) := MoveTick(m.pool, m.ticks, aToB, leg).value;
    MoveKeepsAttribution(m, aToB, leg, l, k);
    MoveKeepsAttribution(m, aToB, leg, u, k);
    RangeGrowthIsDifference(m, l, u, k);
    RangeGrowthIsDifference(m.(pool := pool, ticks := ticks), l, u, k);
  }

  lemma MoveTracks(m: Machine, aToB: bool, leg: Leg, l: int, u: int, k: Stream)
    requires FollowsSearch(m.pool, m.ticks, aToB, leg) && MoveTick(m.pool, m.ticks, aToB, leg).Ok?
    requires BothInitialized(m.ticks, l, u)
    ensures
      var (pool, ticks) := MoveTick(m.pool, m.ticks, aToB, leg).value;
      Tracks(m, m.(pool := pool, ticks := ticks), l, u, k) && BothInitialized(ticks, l, u)
  {
    var (pool, ticks) := MoveTick(m.pool, m.ticks, aToB, leg).value;
    MoveKeepsAttribution(m, aToB, leg, l, k);
    MoveKeepsAttribution(m, aToB, leg, u, k);
    SameLogTracks(m, m.(pool := pool, ticks := ticks), l, u, k);
  }

  lemma {:induction false} LegsTrack(m: Machine, aToB: bool, legs: seq<Leg>, l: int, u: int, k: Stream)
    requires LegsFollowSearch(m.pool, m.ticks, aToB, legs) && SwapLegs(m.pool, m.ticks, aToB, legs).Ok?
    requires BothInitialized(m.ticks, l, u) && l < u
    ensures Tracks(m, AfterLegs(m, aToB, legs), l, u, k)
    decreases |legs|
  {
    if legs == [] {
      assert AfterLegs(m, aToB, legs) == m;
      SameLogTracks(m, m, l, u, k);
    } else {
      var next := FirstLeg(m, aToB, legs);
      var paid := AfterFee(m, aToB, legs[0].feeAmount);
      FeeTracks(m, aToB, legs[0].feeAmount, l, u, k);
      MoveTracks(paid, aToB, legs[0], l, u, k);
      LegsTrack(next, aToB, legs[1..], l, u, k);
      TracksTransitive(m, paid, next, l, u, k);
      TracksTransitive(m, next, AfterLegs(m, aToB, legs), l, u, k);
    }
  }

  // ---- Liquidity changes -------------------------------------------------------------------------------------

  lemma ChangeTracks(m: Machine, m': Machine, id: int, delta: i128, l: int, u: int, k: Stream)
    requires Changes(m, m', id, delta) && (forall t :: TickBooks(m.positions, m.ticks, t))
    requires BothInitialized(m.ticks, l, u) && BothInitialized(m'.ticks, l, u)
    ensures Tracks(m, m', l, u, k)
  {
    BelowUnlessCleared(m, m', id, delta, l, k);
    BelowUnlessCleared(m, m', id, delta, u, k);
    SameLogTracks(m, m', l, u, k);
  }

  /**
    A liquidity change alters growth inside of a range only by clearing one of its ticks:
    initializing a tick, on either side of the current tick, is invisible.
  */
  lemma ChangeIsInvisible(m: Machine, m': Machine, id: int, delta: i128, l: int, u: int, k: Stream)
    requires Changes(m, m', id, delta) && TickBooks(m.positions, m.ticks, l) && TickBooks(m.positions, m.ticks, u)
    requires KeepsRange(m, m', l, u)
    ensures RangeGrowth(m', l, u, k) == RangeGrowth(m, l, u, k)
  {
    BelowUnlessCleared(m, m', id, delta, l, k);
    BelowUnlessCleared(m, m', id, delta, u, k);
    RangeGrowthIsDifference(m, l, u, k);
    RangeGrowthIsDifference(m', l, u, k);
  }

  lemma ModifyTracks(m: Machine, id: int, delta: i128, timestamp: u64, l: int, u: int, k: Stream)
    requires Inv(m) && ModifyLiquidity(m, id, delta, timestamp).Ok? && l < u
    requires BothInitialized(m.ticks, l, u)
    requires BothInitialized(ModifyLiquidity(m, id, delta, timestamp).value.ticks, l, u)
    ensures Tracks(m, ModifyLiquidity(m, id, delta, timestamp).value, l, u, k)
  {
    AdvanceKeepsInv(m, timestamp);
    ModifyFactors(m, id, delta, timestamp);
    var now := AdvanceTo(m, timestamp).value;
    var m' := ModifyLiquidity(now, id, delta, timestamp).value;
    ModifyParts(now, id, delta, timestamp);
    AdvanceTracks(m, timestamp, l, u, k);
    ChangeTracks(now, m', id, delta, l, u, k);
    TracksTransitive(m, now, m', l, u, k);
  }

  // ---- Instructions and runs ------------------------------------------------------------------------------------

  /** Instructions that only touch positions, settings or the log's payments. */
  lemma QuietTracks(m: Machine, op: Instruction, l: int, u: int, k: Stream)
    requires Inv(m) && Execute(m, op).Ok?
    requires op.DoOpenPosition? || op.DoInitializeReward? || op.DoCollectReward? || op.DoCollectFees?
    ensures Tracks(m, After(m, op), l, u, k)
  {
    LogGrows(m, op);
    var m' := After(m, op);
    assert m'.log[|m.log|..] == NewEvents(m, op);
    PaymentsEarnNothing(NewEvents(m, op), k, l, u);
    QuietKeepsBelow(m, op, l, k);
    QuietKeepsBelow(m, op, u, k);
    SameAttributionTracks(m, m', l, u, k);
  }

  lemma QuietKeepsBelow(m: Machine, op: Instruction, t: int, k: Stream)
    requires Inv(m) && Execute(m, op).Ok?
    requires op.DoOpenPosition? || op.DoInitializeReward? || op.DoCollectReward? || op.DoCollectFees?
    ensures Below(After(m, op), k, t) == Below(m, k, t)
  {
    if op.DoInitializeReward? {
      assert StreamInvariant(m, k);
      assert Active(m.pool, k) || Outside(TickAt(m.ticks, t), k) == 0;
    }
  }

  lemma {:induction false} PaymentsEarnNothing(log: Log, k: Stream, l: int, u: int)
    requires forall i :: 0 <= i < |log| ==> log[i].Paid?
    ensures Earned(log, k, l, u) == 0
  {
    if log == [] {
    } else {
      PaymentsEarnNothing(log[..|log| - 1], k, l, u);
    }
  }

  lemma SetEmissionsTracks(m: Machine, index: int, rate: u128, vaultAmount: u64, timestamp: u64, l: int, u: int, k: Stream)
    requires SetRewardEmissions(m, index, rate, vaultAmount, timestamp).Ok?
    requires BothInitialized(m.ticks, l, u) && l < u
    ensures Tracks(m, SetRewardEmissions(m, index, rate, vaultAmount, timestamp).value, l, u, k)
  {
    AdvanceTracks(m, timestamp, l, u, k);
    RateTracks(m, AdvanceTo(m, timestamp).value, SetRewardEmissions(m, index, rate, vaultAmount, timestamp).value,
               index, rate, l, u, k);
  }

  /** A new rate is not noticed until time passes. */
  lemma RateTracks(start: Machine, m: Machine, m': Machine, index: RewardIndex, rate: u128, l: int, u: int, k: Stream)
    requires Tracks(start, m, l, u, k)
    requires m' == m.(pool := m.pool.(rewardInfos := m.pool.rewardInfos[
      index := m.pool.rewardInfos[index].(emissionsPerSecondX64 := rate)]))
    ensures Tracks(start, m', l, u, k)
  {
    SameLogTracks(m, m', l, u, k);
    TracksTransitive(start, m, m', l, u, k);
  }

  lemma SwapTracks(m: Machine, aToB: bool, legs: seq<Leg>, timestamp: u64, l: int, u: int, k: Stream)
    requires Possible(m, DoSwap(aToB, legs, timestamp)) && Swap(m, aToB, legs, timestamp).Ok?
    requires BothInitialized(m.ticks, l, u) && l < u
    ensures Tracks(m, Swap(m, aToB, legs, timestamp).value, l, u, k)
  {
    var now := AdvanceTo(m, timestamp).value;
    AdvanceTracks(m, timestamp, l, u, k);
    LegsTrack(now, aToB, legs, l, u, k);
    TracksTransitive(m, now, AfterLegs(now, aToB, legs), l, u, k);
  }

  lemma InstructionTracks(m: Machine, op: Instruction, l: int, u: int, k: Stream)
    requires Inv(m) && Possible(m, op) && l < u
    requires BothInitialized(m.ticks, l, u) && BothInitialized(After(m, op).ticks, l, u)
    ensures Tracks(m, After(m, op), l, u, k)
  {
    if Execute(m, op).Err? {
      SameLogTracks(m, m, l, u, k);
    } else {
      match op
      case DoIncrease(id, amount, terms, timestamp) =>
        ModifyTracks(m, id, FixedPoint.ConvertToLiquidityDelta(amount, true).value, timestamp, l, u, k);
      case DoDecrease(id, amount, terms, timestamp) =>
        ModifyTracks(m, id, FixedPoint.ConvertToLiquidityDelta(amount, false).value, timestamp, l, u, k);
      case DoUpdateFeesAndRewards(id, timestamp) => ModifyTracks(m, id, 0, timestamp, l, u, k);
      case DoSetEmissions(index, rate, vaultAmount, timestamp) =>
        SetEmissionsTracks(m, index, rate, vaultAmount, timestamp, l, u, k);
      case DoSwap(aToB, legs, timestamp) => SwapTracks(m, aToB, legs, timestamp, l, u, k);
      case _ => QuietTracks(m, op, l, u, k);
    }
  }

  /** Both ticks stay initialized before and after every instruction of a run. */
  ghost predicate StayInitialized(m: Machine, ops: seq<Instruction>, l: int, u: int)
    decreases |ops|
  {
    BothInitialized(m.ticks, l, u) && (ops != [] ==> StayInitialized(After(m, ops[0]), ops[1..], l, u))
  }

  lemma {:induction false} RunTracks(m: Machine, ops: seq<Instruction>, l: int, u: int, k: Stream)
    requires Inv(m) && PossibleRun(m, ops) && StayInitialized(m, ops, l, u) && l < u
    ensures Tracks(m, Run(m, ops), l, u, k)
    decreases |ops|
  {
    if ops == [] {
      SameLogTracks(m, m, l, u, k);
    } else {
      var next := After(m, ops[0]);
      InstructionKeepsInv(m, ops[0]);
      InstructionTracks(m, ops[0], l, u, k);
      RunTracks(next, ops[1..], l, u, k);
      TracksTransitive(m, next, Run(m, ops), l, u, k);
    }
  }

  /**
    From any reachable state on, as long as both ticks stay initialized: growth inside, taken as a
    wrapping difference, is the sum of exactly those increments made while lower <= current < upper.
  */
  lemma GrowthInsideFollowsLedger(m: Machine, ops: seq<Instruction>, l: int, u: int, k: Stream)
    requires Reachable(m) && PossibleRun(m, ops) && StayInitialized(m, ops, l, u) && l < u
    ensures
      var m' := Run(m, ops);
      && |m.log| <= |m'.log|
      && var earned := Earned(m'.log[|m.log|..], k, l, u);
      && Congruent(RangeGrowth(m', l, u, k) - RangeGrowth(m, l, u, k), earned)
      && (earned < TWO_128 ==> WrapSub(RangeGrowth(m', l, u, k), RangeGrowth(m, l, u, k)) == earned)
  {
    ReachableRunTracks(m, ops, l, u, k);
    var m' := Run(m, ops);
    DifferenceIsLeast(RangeGrowth(m', l, u, k), RangeGrowth(m, l, u, k), Earned(m'.log[|m.log|..], k, l, u));
  }

  lemma ReachableRunTracks(m: Machine, ops: seq<Instruction>, l: int, u: int, k: Stream)
    requires Reachable(m) && PossibleRun(m, ops) && StayInitialized(m, ops, l, u) && l < u
    ensures Tracks(m, Run(m, ops), l, u, k)
  {
    ReachableHasInv(m);
    RunTracks(m, ops, l, u, k);
  }

  lemma DifferenceIsLeast(now: u128, before: u128, earned: nat)
    requires Congruent(now - before, earned)
    ensures earned < TWO_128 ==> WrapSub(now, before) == earned
  {
    WrapSubCongruent(now, before);
    CongruentTransitive(WrapSub(now, before), now - before, earned);
    WordIsLeast(WrapSub(now, before), earned);
  }

  // ---- Settlement -------------------------------------------------------------------------------------------------

  /** A settlement credits the floor of what was earned, and credits are added to what is owed. */
  ghost predicate Settles(m: Machine, m': Machine, id: int, k: Stream)
    requires 0 <= id < |m.positions| == |m'.positions|
  {
    var p, p' := m.positions[id], m'.positions[id];
    var earned, credit := EarnedSince(m, id, k), CreditDue(m.pool, m.ticks, p, k);
    && CreditedTotal(m'.credits, k) == CreditedTotal(m.credits, k) + credit
    && Owed(p', k) == WrapAdd64(Owed(p, k), credit)
    && TWO_64 * credit <= p.liquidity * earned
    && (p.liquidity * earned < TWO_128 ==> credit == p.liquidity * earned / TWO_64)
  }

  lemma SettlementOfChange(m: Machine, m': Machine, id: int, delta: i128, k: Stream)
    requires Changes(m, m', id, delta) && RecordsCredits(m, m', id) && Agrees(m, id, k)
    ensures Settles(m, m', id, k)
  {
    SettlementIsCredited(m, m', id, k);
    CreditMeetsClaim(m, id, k);
  }

  /**
    Settling a position in any reachable state credits, for every stream, the floor of its liquidity
    times what the ledger says its range earned since it was last settled, unless that product
    overflows 128 bits; then it credits no more than that.
  */
  lemma SettlementIsExact(m: Machine, id: int, delta: i128, timestamp: u64, k: Stream)
    requires Reachable(m)
    ensures ModifyLiquidity(m, id, delta, timestamp).Ok? ==>
      Settles(AdvanceTo(m, timestamp).value, ModifyLiquidity(m, id, delta, timestamp).value, id, k)
  {
    if ModifyLiquidity(m, id, delta, timestamp).Ok? {
      ReachableHasInv(m);
      AdvanceKeepsInv(m, timestamp);
      ModifyFactors(m, id, delta, timestamp);
      var now := AdvanceTo(m, timestamp).value;
      ModifyParts(now, id, delta, timestamp);
      assert StreamInvariant(now, k);
      SettlementOfChange(now, ModifyLiquidity(now, id, delta, timestamp).value, id, delta, k);
    }
  }

  // ---- Initializing and clearing, in reachable states ---------------------------------------------------------

  /**
    In any reachable state a liquidity change initializes and clears ticks unnoticed: growth inside
    changes of no range whose ticks are not cleared, and of no position that has liquidity afterwards.
  */
  lemma ChangesAreInvisible(m: Machine, id: int, delta: i128, timestamp: u64, l: int, u: int, k: Stream)
    requires Reachable(m)
    ensures ModifyLiquidity(m, id, delta, timestamp).Ok? ==>
      var now, m' := AdvanceTo(m, timestamp).value, ModifyLiquidity(m, id, delta, timestamp).value;
      KeepsRange(m, m', l, u) || HasLiquidityIn(m', l, u) ==> RangeGrowth(m', l, u, k) == RangeGrowth(now, l, u, k)
  {
    if ModifyLiquidity(m, id, delta, timestamp).Ok? {
      ReachableHasInv(m);
      AdvanceKeepsInv(m, timestamp);
      ModifyFactors(m, id, delta, timestamp);
      var now := AdvanceTo(m, timestamp).value;
      ModifyParts(now, id, delta, timestamp);
      var m' := ModifyLiquidity(now, id, delta, timestamp).value;
      ChangeKeepsInv(now, m', id, delta);
      if HasLiquidityIn(m', l, u) {
        ClearingSparesEarners(now, m', id, delta, l, u, k);
      } else if KeepsRange(now, m', l, u) {
        ChangeIsInvisible(now, m', id, delta, l, u, k);
      }
    }
  }

  ghost predicate KeepsRange(m: Machine, m': Machine, l: int, u: int) {
    && (TickAt(m.ticks, l).initialized ==> TickAt(m'.ticks, l).initialized)
    && (TickAt(m.ticks, u).initialized ==> TickAt(m'.ticks, u).initialized)
  }

  /** Some position over exactly this range can still earn. */
  ghost predicate HasLiquidityIn(m: Machine, l: int, u: int) {
    exists i :: 0 <= i < |m.positions| && SpansWithLiquidity(m.positions[i], l, u)
  }

  predicate SpansWithLiquidity(p: Position, l: int, u: int) {
    p.tickLowerIndex == l && p.tickUpperIndex == u && p.liquidity > 0
  }

  lemma ClearingSparesEarners(m: Machine, m': Machine, id: int, delta: i128, l: int, u: int, k: Stream)
    requires Changes(m, m', id, delta) && HasLiquidityIn(m', l, u)
    requires (forall t :: TickBooks(m.positions, m.ticks, t)) && (forall t :: TickBooks(m'.positions, m'.ticks, t))
    ensures RangeGrowth(m', l, u, k) == RangeGrowth(m, l, u, k)
  {
    var i :| 0 <= i < |m'.positions| && SpansWithLiquidity(m'.positions[i], l, u);
    ChangeKeepsBelow(m, m', id, delta, i, l, k);
    ChangeKeepsBelow(m, m', id, delta, i, u, k);
    RangeGrowthIsDifference(m, l, u, k);
    RangeGrowthIsDifference(m', l, u, k);
  }
}
