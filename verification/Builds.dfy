/**
  A build with overflow checks panics where a release build wraps. In the parts of a swap modelled here
  that can happen in two places. Such a build reaches no other states, so what holds of every reachable
  state holds of its states too. It refuses more: when its swaps succeed is a result of its own.
*/
module Builds {
  import opened Words
  import opened State
  import opened SwapManager
  import opened Machine
  import opened Books
  import opened Invariant
  import opened Steps
  import opened Runs
  import opened Progress
  import opened Instructions
  import opened LiquidityManager

  /** Some leg crosses a tick whose net amount has neither a negative nor an absolute value. */
  predicate CrossesLeastNet(pool: Pool, ticks: Ticks, aToB: bool, legs: seq<Leg>)
    decreases |legs|
  {
    legs != [] &&
      var moved := MoveTick(AddFeeGrowth(pool, aToB, legs[0].feeAmount), ticks, aToB, legs[0]);
      || MeetsLeastNet(ticks, legs[0])
      || (moved.Ok? && CrossesLeastNet(moved.value.0, moved.value.1, aToB, legs[1..]))
  }

  predicate MeetsLeastNet(ticks: Ticks, leg: Leg) {
    && leg.reachesNextTick && TickAt(ticks, leg.nextTick).initialized
    && TickAt(ticks, leg.nextTick).liquidityNet == -TWO_127
  }

  /** The fee growth of a swap, subtracted from the growth before for a log line, wrapped around. */
  predicate FeeGrowthWraps(m: Machine, aToB: bool, legs: seq<Leg>, timestamp: u64) {
    var r := Swap(m, aToB, legs, timestamp);
    r.Ok? && Growth(r.value.pool, FeeStream(aToB)) < Growth(m.pool, FeeStream(aToB))
  }

  function ExecuteChecked(m: Machine, op: Instruction): Result<Machine> {
    if op.DoSwap? then
      var now :- AdvanceTo(m, op.timestamp);
      if CrossesLeastNet(now.pool, m.ticks, op.aToB, op.legs) then Err(ArithmeticOverflow)
      else if FeeGrowthWraps(m, op.aToB, op.legs, op.timestamp) then Err(ArithmeticOverflow)
      else Execute(m, op)
    else Execute(m, op)
  }

  function AfterChecked(m: Machine, op: Instruction): Machine {
    var r := ExecuteChecked(m, op);
    if r.Ok? then r.value else m
  }

  function RunChecked(m: Machine, ops: seq<Instruction>): Machine
    decreases |ops|
  {
    if ops == [] then m else RunChecked(AfterChecked(m, ops[0]), ops[1..])
  }

  ghost predicate PossibleRunChecked(m: Machine, ops: seq<Instruction>)
    decreases |ops|
  {
    ops != [] ==> FollowsPrices(m, ops[0]) && PossibleRunChecked(AfterChecked(m, ops[0]), ops[1..])
  }

  ghost predicate ReachableChecked(m: Machine) {
    exists tickSpacing, protocolFeeRate, current, ops ::
      PossibleRunChecked(Genesis(tickSpacing, protocolFeeRate, current), ops) &&
      m == RunChecked(Genesis(tickSpacing, protocolFeeRate, current), ops)
  }

  lemma {:induction false} NetsNegateUnlessLeast(pool: Pool, ticks: Ticks, aToB: bool, legs: seq<Leg>)
    requires !CrossesLeastNet(pool, ticks, aToB, legs)
    ensures LegsNegateNet(pool, ticks, aToB, legs)
    decreases |legs|
  {
    if legs == [] {
    } else {
      var moved := MoveTick(AddFeeGrowth(pool, aToB, legs[0].feeAmount), ticks, aToB, legs[0]);
      if moved.Ok? {
        NetsNegateUnlessLeast(moved.value.0, moved.value.1, aToB, legs[1..]);
      }
    }
  }

  /** Overflow checks only ever refuse swaps, and what they let pass needs no assumption about net amounts. */
  lemma ChecksOnlyRefuse(m: Machine, op: Instruction)
    requires FollowsPrices(m, op)
    ensures ExecuteChecked(m, op).Ok? ==> ExecuteChecked(m, op) == Execute(m, op) && Possible(m, op)
    ensures !op.DoSwap? ==> ExecuteChecked(m, op) == Execute(m, op)
  {
    if ExecuteChecked(m, op).Ok? && op.DoSwap? {
      NetsNegateUnlessLeast(AdvanceTo(m, op.timestamp).value.pool, m.ticks, op.aToB, op.legs);
    }
  }

  /** Leaving out the refused instructions gives a run of the release build to the same state. */
  lemma {:induction false} CheckedRunIsRun(m: Machine, ops: seq<Instruction>) returns (accepted: seq<Instruction>)
    requires PossibleRunChecked(m, ops)
    ensures PossibleRun(m, accepted) && Run(m, accepted) == RunChecked(m, ops)
    decreases |ops|
  {
    if ops == [] {
      accepted := [];
    } else {
      ChecksOnlyRefuse(m, ops[0]);
      var rest := CheckedRunIsRun(AfterChecked(m, ops[0]), ops[1..]);
      if ExecuteChecked(m, ops[0]).Ok? {
        accepted := [ops[0]] + rest;
        assert accepted[1..] == rest;
      } else {
        accepted := rest;
      }
    }
  }

  /** Every state a build with overflow checks can reach, a release build can reach. */
  lemma CheckedStatesAreReachable(m: Machine)
    requires ReachableChecked(m)
    ensures Reachable(m)
  {
    var tickSpacing, protocolFeeRate, current, ops :|
      PossibleRunChecked(Genesis(tickSpacing, protocolFeeRate, current), ops) &&
      m == RunChecked(Genesis(tickSpacing, protocolFeeRate, current), ops);
    var accepted := CheckedRunIsRun(Genesis(tickSpacing, protocolFeeRate, current), ops);
    assert m == Run(Genesis(tickSpacing, protocolFeeRate, current), accepted);
  }

  // ---- When the swaps of such a build succeed ------------------------------------------------------------

  /** With less than 2^127 units of liquidity in all, no swap meets the least net amount. */
  lemma {:induction false} NoLeastNet(m: Machine, aToB: bool, legs: seq<Leg>)
    requires Inv(m) && TotalLiquidity(m.positions) < TWO_127 && LegsFollowSearch(m.pool, m.ticks, aToB, legs)
    ensures !CrossesLeastNet(m.pool, m.ticks, aToB, legs)
    decreases |legs|
  {
    if legs != [] {
      var paid := AfterFee(m, aToB, legs[0].feeAmount);
      FeeKeepsInv(m, aToB, legs[0].feeAmount);
      assert TickBooks(m.positions, m.ticks, legs[0].nextTick);
      TicksWithinTotal(m.positions, legs[0].nextTick);
      MoveSucceeds(paid, aToB, legs[0]);
      MoveKeepsInv(paid, aToB, legs[0]);
      var (pool, ticks) := MoveTick(paid.pool, paid.ticks, aToB, legs[0]).value;
      NoLeastNet(paid.(pool := pool, ticks := ticks), aToB, legs[1..]);
    }
  }

  /**
    Where a release build is only stopped by the clock, a build with overflow checks is stopped by a wrap
    of the fee growth as well, and by nothing else.
  */
  lemma CheckedSwapSucceedsIff(m: Machine, aToB: bool, legs: seq<Leg>, timestamp: u64)
    requires ReachableChecked(m) && TotalLiquidity(m.positions) < TWO_127
    requires FollowsPrices(m, DoSwap(aToB, legs, timestamp))
    ensures ExecuteChecked(m, DoSwap(aToB, legs, timestamp)).Ok? <==>
      m.pool.rewardLastUpdatedTimestamp <= timestamp && !FeeGrowthWraps(m, aToB, legs, timestamp)
  {
    CheckedStatesAreReachable(m);
    SwapCannotGetStuck(m, aToB, legs, timestamp);
    if m.pool.rewardLastUpdatedTimestamp <= timestamp {
      ReachableHasInv(m);
      AdvanceKeepsInv(m, timestamp);
      NoLeastNet(AdvanceTo(m, timestamp).value, aToB, legs);
    }
  }

  lemma {:induction false} RunOneMore(m: Machine, ops: seq<Instruction>, op: Instruction)
    requires PossibleRunChecked(m, ops) && FollowsPrices(RunChecked(m, ops), op)
    ensures PossibleRunChecked(m, ops + [op])
    ensures RunChecked(m, ops + [op]) == AfterChecked(RunChecked(m, ops), op)
    decreases |ops|
  {
    if ops == [] {
      assert ops + [op] == [op] && [op][1..] == [];
    } else {
      RunOneMore(AfterChecked(m, ops[0]), ops[1..], op);
      assert (ops + [op])[1..] == ops[1..] + [op];
    }
  }

  lemma NextIsReachable(m: Machine, op: Instruction)
    requires ReachableChecked(m) && FollowsPrices(m, op)
    ensures ReachableChecked(AfterChecked(m, op))
  {
    var tickSpacing, protocolFeeRate, current, ops :|
      PossibleRunChecked(Genesis(tickSpacing, protocolFeeRate, current), ops) &&
      m == RunChecked(Genesis(tickSpacing, protocolFeeRate, current), ops);
    RunOneMore(Genesis(tickSpacing, protocolFeeRate, current), ops, op);
  }

  /** An empty position around tick 0 of a fresh pool. */
  lemma OnePosition() returns (m: Machine)
    ensures ReachableChecked(m) && m.pool == Genesis(1, 0, 0).pool && m.ticks == map[]
    ensures m.positions == [OpenPosition(1, -1, 1).value]
  {
    var start, open := Genesis(1, 0, 0), DoOpenPosition(-1, 1);
    assert PossibleRunChecked(start, []) && RunChecked(start, []) == start;
    NextIsReachable(start, open);
    m := AfterChecked(start, open);
  }

  lemma DepositGoesThrough(m: Machine, terms: Terms)
    requires m.pool == Genesis(1, 0, 0).pool && m.ticks == map[] && m.positions == [OpenPosition(1, -1, 1).value]
    requires terms == Terms(RangePrices(1, 1, 1), 0, 0, 0, 0)
    ensures IncreaseLiquidity(m, 0, 1, terms, 0).Ok?
    ensures
      var after := IncreaseLiquidity(m, 0, 1, terms, 0).value;
      && after.pool == m.pool.(liquidity := 1) && !TickAt(after.ticks, 0).initialized
      && |after.positions| == 1 && after.positions[0].liquidity == 1
  {
    assert AcceptDeposit(0, m.positions[0], terms, 1) == Ok((0, 0));
    assert ModifyLiquidity(m, 0, 1, 0).Ok?;
  }

  /** One unit of liquidity around tick 0. */
  lemma OneUnit() returns (m: Machine)
    ensures ReachableChecked(m) && TotalLiquidity(m.positions) == 1
    ensures m.pool == Genesis(1, 0, 0).pool.(liquidity := 1) && !TickAt(m.ticks, 0).initialized
  {
    var opening := OnePosition();
    var terms := Terms(RangePrices(1, 1, 1), 0, 0, 0, 0);
    NextIsReachable(opening, DoIncrease(0, 1, terms, 0));
    DepositGoesThrough(opening, terms);
    m := AfterChecked(opening, DoIncrease(0, 1, terms, 0));
    assert TotalLiquidity(m.positions) == LiquidityOf(m.positions)(0);
  }

  /** One swap that stays where it is, with the largest fee. */
  lemma LargestFee(m: Machine, swap: Instruction)
    requires m.pool == Genesis(1, 0, 0).pool.(liquidity := 1, feeGrowthGlobalA := m.pool.feeGrowthGlobalA)
    requires swap == DoSwap(true, [Leg(TWO_64 - 1, -1, false, 0)], 0) && !TickAt(m.ticks, 0).initialized
    ensures FollowsPrices(m, swap) && !CrossesLeastNet(m.pool, m.ticks, true, swap.legs)
    ensures Execute(m, swap).Ok?
    ensures
      var after := Execute(m, swap).value;
      && (after.ticks, after.positions) == (m.ticks, m.positions)
      && after.pool == m.pool.(feeGrowthGlobalA := WrapAdd(m.pool.feeGrowthGlobalA, (TWO_64 - 1) * TWO_64))
  {
    assert swap.legs[1..] == [];
    assert FeeGrowthDelta(TWO_64 - 1, 1) == (TWO_64 - 1) * TWO_64;
    var grown := AddFeeGrowth(m.pool, true, TWO_64 - 1);
    assert MoveTick(grown, m.ticks, true, swap.legs[0]) == Ok((grown, m.ticks));
    assert SwapLegs(m.pool, m.ticks, true, swap.legs) == SwapLegs(grown, m.ticks, true, []);
  }

  /** That happens: one unit of liquidity, one swap whose fee growth nearly fills 128 bits, and the same again. */
  lemma FeeGrowthCanWrap() returns (m: Machine, again: Instruction)
    ensures ReachableChecked(m) && TotalLiquidity(m.positions) == 1 && FollowsPrices(m, again)
    ensures Execute(m, again).Ok? && ExecuteChecked(m, again).Err?
  {
    var funded := OneUnit();
    again := DoSwap(true, [Leg(TWO_64 - 1, -1, false, 0)], 0);
    LargestFee(funded, again);
    NextIsReachable(funded, again);
    m := AfterChecked(funded, again);
    LargestFee(m, again);
  }
}
