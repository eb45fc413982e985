/** Nobody is ever credited more than was emitted or paid in, over every run. */
module Solvency {
  import opened Words
  import opened State
  import opened SwapManager
  import opened Ledger
  import opened Machine
  import Sums
  import opened Invariant
  import opened Runs
  import Rounding

  // ---- Rewards: elapsed seconds times the rate in force ----------------------------------------------------

  /** What a reward emitted while an instruction advanced the clock, times 2^64. */
  function EmittedBy(m: Machine, op: Instruction, i: RewardIndex): int {
    (After(m, op).pool.rewardLastUpdatedTimestamp - m.pool.rewardLastUpdatedTimestamp)
      * m.pool.rewardInfos[i].emissionsPerSecondX64
  }

  ghost function EmittedX64(m: Machine, ops: seq<Instruction>, i: RewardIndex): int
    decreases |ops|
  {
    if ops == [] then 0 else EmittedBy(m, ops[0], i) + EmittedX64(After(m, ops[0]), ops[1..], i)
  }

  lemma RewardEventsBudget(pool: Pool, timestamp: u64, i: RewardIndex)
    requires pool.rewardLastUpdatedTimestamp <= timestamp
    ensures BudgetX64(RewardEvents(pool, timestamp), Reward(i))
         <= (timestamp - pool.rewardLastUpdatedTimestamp) * pool.rewardInfos[i].emissionsPerSecondX64
  {
    Rounding.Scale(0, timestamp - pool.rewardLastUpdatedTimestamp, pool.rewardInfos[i].emissionsPerSecondX64);
    var e0, e1, e2 := RewardEvent(pool, timestamp, 0), RewardEvent(pool, timestamp, 1), RewardEvent(pool, timestamp, 2);
    Concat(e0 + e1, e2, Reward(i), 0, 0);
    Concat(e0, e1, Reward(i), 0, 0);
    SingleRewardBudget(pool, timestamp, 0, Reward(i));
    SingleRewardBudget(pool, timestamp, 1, Reward(i));
    SingleRewardBudget(pool, timestamp, 2, Reward(i));
  }

  lemma SingleRewardBudget(pool: Pool, timestamp: u64, j: RewardIndex, k: Stream)
    ensures
      var entry := RewardEvent(pool, timestamp, j);
      BudgetX64(entry, k) == if entry != [] && k == Reward(j) then entry[0].budgetX64 else 0
  {
    var entry := RewardEvent(pool, timestamp, j);
    if entry != [] {
      SingleEvent(entry[0], k);
      assert entry == [entry[0]];
    }
  }

  lemma {:induction false} FeeEventsBudgetNoReward(pool: Pool, ticks: Ticks, aToB: bool, legs: seq<Leg>, i: RewardIndex)
    ensures BudgetX64(FeeEvents(pool, ticks, aToB, legs), Reward(i)) == 0
    decreases |legs|
  {
    if legs == [] {
    } else {
      var moved := MoveTick(AddFeeGrowth(pool, aToB, legs[0].feeAmount), ticks, aToB, legs[0]);
      var rest := if moved.Ok? then FeeEvents(moved.value.0, moved.value.1, aToB, legs[1..]) else [];
      var e := FeeEvent(pool, aToB, legs[0].feeAmount);
      Concat([e], rest, Reward(i), 0, 0);
      assert [e] == [] + [e];
      Append([], e, Reward(i), 0, 0);
      if moved.Ok? {
        FeeEventsBudgetNoReward(moved.value.0, moved.value.1, aToB, legs[1..], i);
      }
    }
  }

  lemma {:induction false} SwapKeepsTime(pool: Pool, ticks: Ticks, aToB: bool, legs: seq<Leg>)
    requires SwapLegs(pool, ticks, aToB, legs).Ok?
    ensures SwapLegs(pool, ticks, aToB, legs).value.0.rewardLastUpdatedTimestamp == pool.rewardLastUpdatedTimestamp
    decreases |legs|
  {
    if legs == [] {
    } else {
      var moved := MoveTick(AddFeeGrowth(pool, aToB, legs[0].feeAmount), ticks, aToB, legs[0]).value;
      SwapKeepsTime(moved.0, moved.1, aToB, legs[1..]);
    }
  }

  /** An instruction that carries a time stamp leaves it in the pool; the others leave the clock alone. */
  function ClockAfter(m: Machine, op: Instruction): int {
    match op
    case DoIncrease(id, amount, terms, timestamp) => timestamp
    case DoDecrease(id, amount, terms, timestamp) => timestamp
    case DoUpdateFeesAndRewards(id, timestamp) => timestamp
    case DoSetEmissions(index, rate, vaultAmount, timestamp) => timestamp
    case DoSwap(aToB, legs, timestamp) => timestamp
    case _ => m.pool.rewardLastUpdatedTimestamp
  }

  lemma ClockAdvances(m: Machine, op: Instruction)
    requires Execute(m, op).Ok?
    ensures After(m, op).pool.rewardLastUpdatedTimestamp == ClockAfter(m, op) >= m.pool.rewardLastUpdatedTimestamp
  {
    if op.DoSwap? {
      SwapKeepsTime(AdvanceTo(m, op.timestamp).value.pool, m.ticks, op.aToB, op.legs);
    }
  }

  /** Payments fund nothing. */
  lemma PaymentsBudget(m: Machine, op: Instruction, k: Stream)
    requires op.DoCollectReward? || op.DoCollectFees?
    ensures BudgetX64(NewEvents(m, op), k) == 0
  {
    var events := NewEvents(m, op);
    if op.DoCollectReward? && events != [] {
      SingleEvent(events[0], k);
    } else if events != [] {
      TwoEvents(events[0], events[1], k);
    }
  }

  lemma SwapEventsBudget(m: Machine, aToB: bool, legs: seq<Leg>, timestamp: u64, k: Stream)
    requires AdvanceTo(m, timestamp).Ok?
    ensures BudgetX64(NewEvents(m, DoSwap(aToB, legs, timestamp)), k)
         == BudgetX64(RewardEvents(m.pool, timestamp), k)
          + BudgetX64(FeeEvents(AdvanceTo(m, timestamp).value.pool, m.ticks, aToB, legs), k)
  {
    Concat(RewardEvents(m.pool, timestamp), FeeEvents(AdvanceTo(m, timestamp).value.pool, m.ticks, aToB, legs), k, 0, 0);
  }

  lemma SwapBudget(m: Machine, aToB: bool, legs: seq<Leg>, timestamp: u64, i: RewardIndex)
    requires m.pool.rewardLastUpdatedTimestamp <= timestamp
    ensures BudgetX64(NewEvents(m, DoSwap(aToB, legs, timestamp)), Reward(i))
         <= (timestamp - m.pool.rewardLastUpdatedTimestamp) * m.pool.rewardInfos[i].emissionsPerSecondX64
  {
    RewardEventsBudget(m.pool, timestamp, i);
    SwapEventsBudget(m, aToB, legs, timestamp, Reward(i));
    FeeEventsBudgetNoReward(AdvanceTo(m, timestamp).value.pool, m.ticks, aToB, legs, i);
  }

  lemma NewEventsBudget(m: Machine, op: Instruction, i: RewardIndex)
    requires m.pool.rewardLastUpdatedTimestamp <= ClockAfter(m, op)
    ensures BudgetX64(NewEvents(m, op), Reward(i))
         <= (ClockAfter(m, op) - m.pool.rewardLastUpdatedTimestamp) * m.pool.rewardInfos[i].emissionsPerSecondX64
  {
    var elapsed := ClockAfter(m, op) - m.pool.rewardLastUpdatedTimestamp;
    Rounding.Scale(0, elapsed, m.pool.rewardInfos[i].emissionsPerSecondX64);
    if op.DoCollectReward? || op.DoCollectFees? {
      PaymentsBudget(m, op, Reward(i));
    } else if op.DoSwap? {
      SwapBudget(m, op.aToB, op.legs, op.timestamp, i);
    } else if op.DoOpenPosition? || op.DoInitializeReward? {
      assert NewEvents(m, op) == [];
    } else {
      assert NewEvents(m, op) == RewardEvents(m.pool, ClockAfter(m, op));
      RewardEventsBudget(m.pool, ClockAfter(m, op), i);
    }
  }

  lemma SingleEvent(e: Event, k: Stream)
    ensures BudgetX64([e], k) == if e.Grew? && e.stream == k then e.budgetX64 else 0
  {
    assert [e] == [] + [e];
    Append([], e, k, 0, 0);
  }

  lemma TwoEvents(e: Event, f: Event, k: Stream)
    ensures BudgetX64([e, f], k) == BudgetX64([e], k) + BudgetX64([f], k)
    ensures e.Paid? && f.Paid? ==> BudgetX64([e, f], k) == 0
  {
    assert [e, f] == [e] + [f];
    Concat([e], [f], k, 0, 0);
    SingleEvent(e, k);
    SingleEvent(f, k);
  }

  /** A failed instruction emits nothing, a successful one what accrued up to its time. */
  lemma EmittedUpTo(m: Machine, op: Instruction, i: RewardIndex)
    ensures Execute(m, op).Err? ==> EmittedBy(m, op, i) == 0
    ensures Execute(m, op).Ok? ==>
      && m.pool.rewardLastUpdatedTimestamp <= ClockAfter(m, op)
      && EmittedBy(m, op, i)
           == (ClockAfter(m, op) - m.pool.rewardLastUpdatedTimestamp) * m.pool.rewardInfos[i].emissionsPerSecondX64
  {
    if Execute(m, op).Ok? {
      ClockAdvances(m, op);
    } else {
      assert After(m, op) == m;
    }
  }

  lemma LogBudget(m: Machine, op: Instruction, k: Stream)
    ensures BudgetX64(After(m, op).log, k)
         == BudgetX64(m.log, k) + if Execute(m, op).Ok? then BudgetX64(NewEvents(m, op), k) else 0
  {
    LogGrows(m, op);
    Concat(m.log, NewEvents(m, op), k, 0, 0);
  }

  lemma InstructionBudget(m: Machine, op: Instruction, i: RewardIndex)
    ensures BudgetX64(After(m, op).log, Reward(i)) <= BudgetX64(m.log, Reward(i)) + EmittedBy(m, op, i)
  {
    EmittedUpTo(m, op, i);
    LogBudget(m, op, Reward(i));
    if Execute(m, op).Ok? {
      NewEventsBudget(m, op, i);
    }
  }

  lemma {:induction false} RunBudget(m: Machine, ops: seq<Instruction>, i: RewardIndex)
    ensures BudgetX64(Run(m, ops).log, Reward(i)) <= BudgetX64(m.log, Reward(i)) + EmittedX64(m, ops, i)
    decreases |ops|
  {
    if ops == [] {
    } else {
      InstructionBudget(m, ops[0], i);
      RunBudget(After(m, ops[0]), ops[1..], i);
    }
  }

  lemma ClaimsAreNatural(m: Machine, k: Stream)
    ensures 0 <= Sums.SumTo(|m.positions|, ClaimOf(m, k))
  {
    forall i | 0 <= i < |m.positions|
      ensures 0 <= ClaimOf(m, k)(i)
    {
      Rounding.Scale(0, m.positions[i].liquidity, EarnedSince(m, i, k));
    }
    Sums.SumNonNegative(|m.positions|, ClaimOf(m, k));
  }

  /**
    Over every run: everything settlements ever credited of a reward is at most the seconds elapsed
    times the emission rate in force, and what was paid and is still owed is at most what was credited,
    whatever wrapped, overflowed or was crossed.
  */
  lemma RewardsAreSolvent(
      tickSpacing: u16, protocolFeeRate: ProtocolFeeRate, current: int, ops: seq<Instruction>, i: RewardIndex)
    requires PossibleRun(Genesis(tickSpacing, protocolFeeRate, current), ops)
    ensures
      var start := Genesis(tickSpacing, protocolFeeRate, current);
      var end := Run(start, ops);
      && TWO_64 * CreditedTotal(end.credits, Reward(i)) <= EmittedX64(start, ops, i)
      && PaidOut(end.log, Reward(i)) + TotalOwed(end, Reward(i)) <= CreditedTotal(end.credits, Reward(i))
  {
    var start := Genesis(tickSpacing, protocolFeeRate, current);
    GenesisHasInv(tickSpacing, protocolFeeRate, current);
    RunKeepsInv(start, ops);
    var end := Run(start, ops);
    assert StreamInvariant(end, Reward(i));
    ClaimsAreNatural(end, Reward(i));
    RunBudget(start, ops, i);
  }

  // ---- Fees: what swappers paid, less the protocol share ------------------------------------------------------

  /** Liquidity providers' share of the fees of some legs. */
  function LegFees(legs: seq<Leg>, protocolFeeRate: ProtocolFeeRate): nat {
    if legs == [] then 0 else LiquidityFee(legs[0].feeAmount, protocolFeeRate) + LegFees(legs[1..], protocolFeeRate)
  }

  function FeesTakenBy(m: Machine, op: Instruction, aToB: bool): nat {
    if op.DoSwap? && op.aToB == aToB && Execute(m, op).Ok? then LegFees(op.legs, m.pool.protocolFeeRate) else 0
  }

  ghost function FeesTaken(m: Machine, ops: seq<Instruction>, aToB: bool): nat
    decreases |ops|
  {
    if ops == [] then 0 else FeesTakenBy(m, ops[0], aToB) + FeesTaken(After(m, ops[0]), ops[1..], aToB)
  }

  lemma {:induction false} FeeEventsBudget(pool: Pool, ticks: Ticks, aToB: bool, legs: seq<Leg>, side: bool)
    requires SwapLegs(pool, ticks, aToB, legs).Ok?
    ensures BudgetX64(FeeEvents(pool, ticks, aToB, legs), FeeStream(side))
         == if side == aToB then TWO_64 * LegFees(legs, pool.protocolFeeRate) else 0
    decreases |legs|
  {
    if legs == [] {
    } else {
      var moved := MoveTick(AddFeeGrowth(pool, aToB, legs[0].feeAmount), ticks, aToB, legs[0]).value;
      var e := FeeEvent(pool, aToB, legs[0].feeAmount);
      var rest := FeeEvents(moved.0, moved.1, aToB, legs[1..]);
      Concat([e], rest, FeeStream(side), 0, 0);
      assert [e] == [] + [e];
      Append([], e, FeeStream(side), 0, 0);
      FeeEventsBudget(moved.0, moved.1, aToB, legs[1..], side);
    }
  }

  lemma RewardEventsFundNoFees(pool: Pool, timestamp: u64, side: bool)
    ensures BudgetX64(RewardEvents(pool, timestamp), FeeStream(side)) == 0
  {
    var e0, e1, e2 := RewardEvent(pool, timestamp, 0), RewardEvent(pool, timestamp, 1), RewardEvent(pool, timestamp, 2);
    Concat(e0 + e1, e2, FeeStream(side), 0, 0);
    Concat(e0, e1, FeeStream(side), 0, 0);
    SingleRewardBudget(pool, timestamp, 0, FeeStream(side));
    SingleRewardBudget(pool, timestamp, 1, FeeStream(side));
    SingleRewardBudget(pool, timestamp, 2, FeeStream(side));
  }

  lemma SwapFees(m: Machine, aToB: bool, legs: seq<Leg>, timestamp: u64, side: bool)
    requires SwapUpdate(m.pool, m.ticks, aToB, legs, timestamp).Ok?
    ensures BudgetX64(NewEvents(m, DoSwap(aToB, legs, timestamp)), FeeStream(side))
         == if aToB == side then TWO_64 * LegFees(legs, m.pool.protocolFeeRate) else 0
  {
    RewardEventsFundNoFees(m.pool, timestamp, side);
    SwapEventsBudget(m, aToB, legs, timestamp, FeeStream(side));
    FeeEventsBudget(AdvanceTo(m, timestamp).value.pool, m.ticks, aToB, legs, side);
  }

  lemma NewEventsFees(m: Machine, op: Instruction, side: bool)
    requires op.DoSwap? ==> SwapUpdate(m.pool, m.ticks, op.aToB, op.legs, op.timestamp).Ok?
    ensures BudgetX64(NewEvents(m, op), FeeStream(side))
         == if op.DoSwap? && op.aToB == side then TWO_64 * LegFees(op.legs, m.pool.protocolFeeRate) else 0
  {
    if op.DoCollectReward? || op.DoCollectFees? {
      PaymentsBudget(m, op, FeeStream(side));
    } else if op.DoSwap? {
      SwapFees(m, op.aToB, op.legs, op.timestamp, side);
    } else if op.DoOpenPosition? || op.DoInitializeReward? {
      assert NewEvents(m, op) == [];
    } else {
      assert NewEvents(m, op) == RewardEvents(m.pool, op.timestamp);
      RewardEventsFundNoFees(m.pool, op.timestamp, side);
    }
  }

  lemma InstructionFees(m: Machine, op: Instruction, side: bool)
    ensures BudgetX64(After(m, op).log, FeeStream(side))
         == BudgetX64(m.log, FeeStream(side)) + TWO_64 * FeesTakenBy(m, op, side)
  {
    LogBudget(m, op, FeeStream(side));
    if Execute(m, op).Ok? {
      NewEventsFees(m, op, side);
    }
  }

  lemma {:induction false} RunFees(m: Machine, ops: seq<Instruction>, side: bool)
    ensures BudgetX64(Run(m, ops).log, FeeStream(side))
         == BudgetX64(m.log, FeeStream(side)) + TWO_64 * FeesTaken(m, ops, side)
    decreases |ops|
  {
    if ops == [] {
    } else {
      InstructionFees(m, ops[0], side);
      RunFees(After(m, ops[0]), ops[1..], side);
    }
  }

  /**
    Over every run: all fees ever credited are at most what swappers paid less the protocol share, and
    what was paid out and is still owed is at most what was credited.
  */
  lemma FeesAreSolvent(
      tickSpacing: u16, protocolFeeRate: ProtocolFeeRate, current: int, ops: seq<Instruction>, side: bool)
    requires PossibleRun(Genesis(tickSpacing, protocolFeeRate, current), ops)
    ensures
      var start := Genesis(tickSpacing, protocolFeeRate, current);
      var end := Run(start, ops);
      && CreditedTotal(end.credits, FeeStream(side)) <= FeesTaken(start, ops, side)
      && PaidOut(end.log, FeeStream(side)) + TotalOwed(end, FeeStream(side)) <= CreditedTotal(end.credits, FeeStream(side))
  {
    var start := Genesis(tickSpacing, protocolFeeRate, current);
    GenesisHasInv(tickSpacing, protocolFeeRate, current);
    RunKeepsInv(start, ops);
    var end := Run(start, ops);
    assert StreamInvariant(end, FeeStream(side));
    ClaimsAreNatural(end, FeeStream(side));
    RunFees(start, ops, side);
  }

  // ---- Vaults --------------------------------------------------------------------------------------------------

  lemma OwedIsPartOfTotal(m: Machine, id: int, k: Stream)
    requires 0 <= id < |m.positions|
    ensures Owed(m.positions[id], k) <= TotalOwed(m, k)
  {
    Sums.SumAtLeast(|m.positions|, id, OwedOf(m, k));
  }

  /**
    A reward vault that was given what was emitted so far, in whole tokens, and only ever paid
    collections, can pay every position in full at any time.
  */
  lemma FundedVaultPaysInFull(
      tickSpacing: u16, protocolFeeRate: ProtocolFeeRate, current: int, ops: seq<Instruction>, i: RewardIndex,
      funded: nat, id: int, vaultAmount: u64)
    requires PossibleRun(Genesis(tickSpacing, protocolFeeRate, current), ops)
    requires 0 <= id < |Run(Genesis(tickSpacing, protocolFeeRate, current), ops).positions|
    ensures
      var start := Genesis(tickSpacing, protocolFeeRate, current);
      var end := Run(start, ops);
      EmittedX64(start, ops, i) < TWO_64 * (funded + 1) && vaultAmount == funded - PaidOut(end.log, Reward(i)) ==>
        var collected := CollectReward(end, id, i, vaultAmount);
        && collected.Ok? && Owed(collected.value.positions[id], Reward(i)) == 0
        && collected.value.log == end.log + [Paid(Reward(i), Owed(end.positions[id], Reward(i)))]
  {
    var end := Run(Genesis(tickSpacing, protocolFeeRate, current), ops);
    RewardsAreSolvent(tickSpacing, protocolFeeRate, current, ops, i);
    OwedIsPartOfTotal(end, id, Reward(i));
  }

  /** Vaults that hold the fees taken and not yet paid can pay both fees of every position. */
  lemma FeeVaultsPayInFull(
      tickSpacing: u16, protocolFeeRate: ProtocolFeeRate, current: int, ops: seq<Instruction>,
      id: int, vaultA: u64, vaultB: u64)
    requires PossibleRun(Genesis(tickSpacing, protocolFeeRate, current), ops)
    requires 0 <= id < |Run(Genesis(tickSpacing, protocolFeeRate, current), ops).positions|
    ensures
      var start := Genesis(tickSpacing, protocolFeeRate, current);
      var end := Run(start, ops);
      vaultA >= FeesTaken(start, ops, true) - PaidOut(end.log, FeeA) &&
      vaultB >= FeesTaken(start, ops, false) - PaidOut(end.log, FeeB) ==>
        CollectFees(end, id, vaultA, vaultB).Ok?
  {
    var end := Run(Genesis(tickSpacing, protocolFeeRate, current), ops);
    FeesAreSolvent(tickSpacing, protocolFeeRate, current, ops, true);
    FeesAreSolvent(tickSpacing, protocolFeeRate, current, ops, false);
    OwedIsPartOfTotal(end, id, FeeA);
    OwedIsPartOfTotal(end, id, FeeB);
  }
}
