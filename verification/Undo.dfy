/** A withdrawal undoes a deposit: cleared ticks are blank again, and nothing is credited twice. */
module Undo {
  import opened Words
  import FixedPoint
  import opened State
  import LiquidityManager
  import opened SwapManager
  import opened Instructions
  import opened Machine
  import opened Books
  import opened Invariant
  import Steps
  import opened Liquidity
  import opened Runs
  import opened Refinement
  import opened Ledger

  /** A tick no liquidity ends at is all zero, whatever happened there before. */
  ghost predicate BlankWhenUnused(ticks: Ticks) {
    forall t :: !TickAt(ticks, t).initialized ==> TickAt(ticks, t) == DEFAULT_TICK
  }

  lemma MoveKeepsBlank(pool: Pool, ticks: Ticks, aToB: bool, leg: Leg)
    requires BlankWhenUnused(ticks) && MoveTick(pool, ticks, aToB, leg).Ok?
    ensures BlankWhenUnused(MoveTick(pool, ticks, aToB, leg).value.1)
  {
    var ticks' := MoveTick(pool, ticks, aToB, leg).value.1;
    forall t
      ensures !TickAt(ticks', t).initialized ==> TickAt(ticks', t) == DEFAULT_TICK
    {
      assert !TickAt(ticks, t).initialized ==> TickAt(ticks, t) == DEFAULT_TICK;
    }
  }

  lemma {:induction false} LegsKeepBlank(pool: Pool, ticks: Ticks, aToB: bool, legs: seq<Leg>)
    requires BlankWhenUnused(ticks) && SwapLegs(pool, ticks, aToB, legs).Ok?
    ensures BlankWhenUnused(SwapLegs(pool, ticks, aToB, legs).value.1)
    decreases |legs|
  {
    if legs != [] {
      var moved := MoveTick(AddFeeGrowth(pool, aToB, legs[0].feeAmount), ticks, aToB, legs[0]).value;
      MoveKeepsBlank(AddFeeGrowth(pool, aToB, legs[0].feeAmount), ticks, aToB, legs[0]);
      LegsKeepBlank(moved.0, moved.1, aToB, legs[1..]);
    }
  }

  lemma ModifyKeepsBlank(m: Machine, id: int, delta: i128, timestamp: u64)
    requires Inv(m) && BlankWhenUnused(m.ticks)
    ensures ModifyLiquidity(m, id, delta, timestamp).Ok? ==>
      BlankWhenUnused(ModifyLiquidity(m, id, delta, timestamp).value.ticks)
  {
    if ModifyLiquidity(m, id, delta, timestamp).Ok? {
      Steps.AdvanceKeepsInv(m, timestamp);
      ModifyFactors(m, id, delta, timestamp);
      var now := AdvanceTo(m, timestamp).value;
      ModifyParts(now, id, delta, timestamp);
      ChangeKeepsBlank(now, ModifyLiquidity(now, id, delta, timestamp).value, id, delta);
    }
  }

  lemma ChangeKeepsBlank(m: Machine, m': Machine, id: int, delta: i128)
    requires BlankWhenUnused(m.ticks) && Changes(m, m', id, delta)
    ensures BlankWhenUnused(m'.ticks)
  {
    ChangedTickIsBlank(m, m.positions[id].tickLowerIndex, delta, false);
    ChangedTickIsBlank(m, m.positions[id].tickUpperIndex, delta, true);
  }

  lemma ChangedTickIsBlank(m: Machine, t: int, delta: i128, isUpper: bool)
    requires BlankWhenUnused(m.ticks) && TickChange(m, t, delta, isUpper).Ok?
    ensures var tick := TickChange(m, t, delta, isUpper).value; !tick.initialized ==> tick == DEFAULT_TICK
  {
  }

  lemma InstructionKeepsBlank(m: Machine, op: Instruction)
    requires Inv(m) && BlankWhenUnused(m.ticks)
    ensures BlankWhenUnused(After(m, op).ticks)
  {
    if Execute(m, op).Ok? {
      match op
      case DoIncrease(id, amount, terms, timestamp) =>
        ModifyKeepsBlank(m, id, FixedPoint.ConvertToLiquidityDelta(amount, true).value, timestamp);
      case DoDecrease(id, amount, terms, timestamp) =>
        ModifyKeepsBlank(m, id, FixedPoint.ConvertToLiquidityDelta(amount, false).value, timestamp);
      case DoUpdateFeesAndRewards(id, timestamp) => ModifyKeepsBlank(m, id, 0, timestamp);
      case DoSwap(aToB, legs, timestamp) => LegsKeepBlank(AdvanceTo(m, timestamp).value.pool, m.ticks, aToB, legs);
      case _ =>
    }
  }

  lemma {:induction false} RunKeepsBlank(m: Machine, ops: seq<Instruction>)
    requires Inv(m) && PossibleRun(m, ops) && BlankWhenUnused(m.ticks)
    ensures BlankWhenUnused(Run(m, ops).ticks)
    decreases |ops|
  {
    if ops != [] {
      InstructionKeepsBlank(m, ops[0]);
      InstructionKeepsInv(m, ops[0]);
      RunKeepsBlank(After(m, ops[0]), ops[1..]);
    }
  }

  /** In every reachable state an unused tick is blank: clearing leaves no trace. */
  lemma UnusedTicksAreBlank(m: Machine)
    requires Reachable(m)
    ensures BlankWhenUnused(m.ticks)
  {
    var tickSpacing, protocolFeeRate, current, ops :|
      PossibleRun(Genesis(tickSpacing, protocolFeeRate, current), ops) &&
      m == Run(Genesis(tickSpacing, protocolFeeRate, current), ops);
    GenesisHasInv(tickSpacing, protocolFeeRate, current);
    RunKeepsBlank(Genesis(tickSpacing, protocolFeeRate, current), ops);
  }

  /** At a tick, taking away what was added gives back the very same tick. */
  lemma TickRestored(m: Machine, m': Machine, t: int, delta: i128, back: i128, isUpper: bool)
    requires 0 < delta && back + delta == 0 && BlankWhenUnused(m.ticks)
    requires TickAt(m.ticks, t).initialized <==> TickAt(m.ticks, t).liquidityGross > 0
    requires TickChange(m, t, delta, isUpper) == Ok(TickAt(m'.ticks, t))
    ensures TickChange(m', t, back, isUpper) == Ok(TickAt(m.ticks, t))
  {
  }

  /** The books are right at both ends of a position. */
  ghost predicate EndsInBooks(m: Machine, id: int)
    requires 0 <= id < |m.positions|
  {
    && TickBooks(m.positions, m.ticks, m.positions[id].tickLowerIndex)
    && TickBooks(m.positions, m.ticks, m.positions[id].tickUpperIndex)
  }

  /** Withdrawing in the state a deposit led to, all at one time. */
  lemma WithdrawalAfter(m: Machine, m': Machine, id: int, delta: i128, back: i128, timestamp: u64)
    requires 0 < delta && back + delta == 0 && Changes(m, m', id, delta) && m.pool.rewardLastUpdatedTimestamp == timestamp
    requires EndsInBooks(m, id) && BlankWhenUnused(m.ticks) && ValidRanges(m.positions)
    ensures ModifyLiquidity(m', id, back, timestamp).Ok?
    ensures m'.positions[id].tickLowerIndex < m'.positions[id].tickUpperIndex
    ensures m'.pool.rewardLastUpdatedTimestamp == timestamp
  {
    TickRestored(m, m', m.positions[id].tickLowerIndex, delta, back, false);
    TickRestored(m, m', m.positions[id].tickUpperIndex, delta, back, true);
  }

  /** Of one stream, a position has the same checkpoint and is owed the same, and nothing was credited. */
  ghost predicate Unmoved(m: Machine, m': Machine, id: int, k: Stream)
    requires 0 <= id < |m.positions| == |m'.positions|
  {
    && Checkpoint(m'.positions[id], k) == Checkpoint(m.positions[id], k)
    && Owed(m'.positions[id], k) == Owed(m.positions[id], k)
    && CreditedTotal(m'.credits, k) == CreditedTotal(m.credits, k)
  }

  /** After a deposit, settling again at once credits nothing and moves no checkpoint. */
  lemma SecondSettlement(m: Machine, m': Machine, m'': Machine, id: int, delta: i128, delta': i128, k: Stream)
    requires Changes(m, m', id, delta) && Changes(m', m'', id, delta') && 0 < delta
    requires EndsInBooks(m, id) && RecordsCredits(m', m'', id)
    ensures Unmoved(m', m'', id, k)
  {
    var l, u := m.positions[id].tickLowerIndex, m.positions[id].tickUpperIndex;
    DepositKeepsRange(m, m', id, delta);
    ChangeIsInvisible(m, m', id, delta, l, u, k);
    SettledAtCheckpoint(m', m'', id, delta', k);
  }

  lemma DepositKeepsRange(m: Machine, m': Machine, id: int, delta: i128)
    requires 0 < delta && Changes(m, m', id, delta) && EndsInBooks(m, id)
    ensures KeepsRange(m, m', m.positions[id].tickLowerIndex, m.positions[id].tickUpperIndex)
  {
  }

  /** A position whose checkpoint is the growth inside its range is credited nothing. */
  lemma SettledAtCheckpoint(m: Machine, m': Machine, id: int, delta: i128, k: Stream)
    requires Changes(m, m', id, delta) && RecordsCredits(m, m', id)
    requires var p := m.positions[id]; RangeGrowth(m, p.tickLowerIndex, p.tickUpperIndex, k) == Checkpoint(p, k)
    ensures Unmoved(m, m', id, k)
  {
    SettlementIsCredited(m, m', id, k);
  }

  /** Unmoved in every stream, a position is the same but for its liquidity. */
  lemma UnmovedPosition(m: Machine, m': Machine, id: int, liquidity: u128)
    requires 0 <= id < |m.positions| == |m'.positions| && forall k :: Unmoved(m, m', id, k)
    requires m'.positions[id].tickLowerIndex == m.positions[id].tickLowerIndex
    requires m'.positions[id].tickUpperIndex == m.positions[id].tickUpperIndex
    requires m'.positions[id].liquidity == liquidity
    ensures m'.positions[id] == m.positions[id].(liquidity := liquidity)
  {
    var p := m.positions[id].(liquidity := liquidity);
    forall k
      ensures Checkpoint(m'.positions[id], k) == Checkpoint(p, k) && Owed(m'.positions[id], k) == Owed(p, k)
    {
      assert Unmoved(m, m', id, k);
    }
    SamePosition(m'.positions[id], p);
  }

  /** Two positions that agree in everything are one. */
  lemma SamePosition(p: Position, q: Position)
    requires p.tickLowerIndex == q.tickLowerIndex && p.tickUpperIndex == q.tickUpperIndex && p.liquidity == q.liquidity
    requires forall k :: Checkpoint(p, k) == Checkpoint(q, k) && Owed(p, k) == Owed(q, k)
    ensures p == q
  {
    assert Checkpoint(p, FeeA) == Checkpoint(q, FeeA) && Owed(p, FeeB) == Owed(q, FeeB);
    assert Checkpoint(p, FeeB) == Checkpoint(q, FeeB) && Owed(p, FeeA) == Owed(q, FeeA);
    forall i | 0 <= i < NUM_REWARDS
      ensures p.rewardInfos[i] == q.rewardInfos[i]
    {
      assert Checkpoint(p, Reward(i)) == Checkpoint(q, Reward(i)) && Owed(p, Reward(i)) == Owed(q, Reward(i));
    }
    assert p.rewardInfos == q.rewardInfos;
  }

  /** Both states have the same pool, ticks, positions, log and credits. */
  ghost predicate SameAccounts(m: Machine, n: Machine) {
    && m.pool == n.pool && m.positions == n.positions && m.log == n.log
    && (forall t :: TickAt(m.ticks, t) == TickAt(n.ticks, t))
    && forall k :: CreditedTotal(m.credits, k) == CreditedTotal(n.credits, k)
  }

  /**
    The state after has the pool, ticks and log of the first, and the credits and positions of the one
    between, but for one position, which has its first liquidity back.
  */
  ghost predicate Restored(m: Machine, between: Machine, after: Machine, id: int) {
    && 0 <= id < |m.positions| == |between.positions|
    && SameAccounts(after, m.(positions := after.positions, credits := between.credits))
    && after.positions == between.positions[id := between.positions[id].(liquidity := m.positions[id].liquidity)]
  }

  lemma ChangeUndone(m: Machine, m': Machine, m'': Machine, id: int, delta: i128, back: i128)
    requires 0 < delta && back + delta == 0 && Changes(m, m', id, delta) && Changes(m', m'', id, back)
    requires EndsInBooks(m, id) && BlankWhenUnused(m.ticks) && RecordsCredits(m', m'', id)
    ensures Restored(m, m', m'', id)
  {
    TicksUndone(m, m', m'', id, delta, back);
    PositionUndone(m, m', m'', id, delta, back);
  }

  lemma TicksUndone(m: Machine, m': Machine, m'': Machine, id: int, delta: i128, back: i128)
    requires 0 < delta && back + delta == 0 && Changes(m, m', id, delta) && Changes(m', m'', id, back)
    requires EndsInBooks(m, id) && BlankWhenUnused(m.ticks)
    ensures forall t :: TickAt(m''.ticks, t) == TickAt(m.ticks, t)
  {
    TickRestored(m, m', m.positions[id].tickLowerIndex, delta, back, false);
    TickRestored(m, m', m.positions[id].tickUpperIndex, delta, back, true);
  }

  lemma PositionUndone(m: Machine, m': Machine, m'': Machine, id: int, delta: i128, back: i128)
    requires 0 < delta && back + delta == 0 && Changes(m, m', id, delta) && Changes(m', m'', id, back)
    requires EndsInBooks(m, id) && RecordsCredits(m', m'', id)
    ensures m''.positions[id] == m'.positions[id].(liquidity := m.positions[id].liquidity)
    ensures forall k :: CreditedTotal(m''.credits, k) == CreditedTotal(m'.credits, k)
  {
    DepositSettledAll(m, m', m'', id, delta, back);
    UnmovedPosition(m', m'', id, m.positions[id].liquidity);
    NothingCredited(m', m'', id);
  }

  lemma DepositSettledAll(m: Machine, m': Machine, m'': Machine, id: int, delta: i128, back: i128)
    requires 0 < delta && back + delta == 0 && Changes(m, m', id, delta) && Changes(m', m'', id, back)
    requires EndsInBooks(m, id) && RecordsCredits(m', m'', id)
    ensures forall k :: Unmoved(m', m'', id, k)
  {
    forall k
      ensures Unmoved(m', m'', id, k)
    {
      SecondSettlement(m, m', m'', id, delta, back, k);
    }
  }

  lemma NothingCredited(m: Machine, m': Machine, id: int)
    requires 0 <= id < |m.positions| == |m'.positions| && forall k :: Unmoved(m, m', id, k)
    ensures forall k :: CreditedTotal(m'.credits, k) == CreditedTotal(m.credits, k)
  {
    forall k
      ensures CreditedTotal(m'.credits, k) == CreditedTotal(m.credits, k)
    {
      assert Unmoved(m, m', id, k);
    }
  }

  /** At the same prices, minima below what a deposit cost and vaults that hold what it paid in. */
  predicate ReturnsCost(terms: Terms, terms': Terms, cost: (u64, u64)) {
    && terms'.prices == terms.prices
    && (terms'.limitA == 0 || terms'.limitA < cost.0) && (terms'.limitB == 0 || terms'.limitB < cost.1)
    && cost.0 <= terms'.availableA && cost.1 <= terms'.availableB
  }

  /**
    In every reachable state the accounts always let a deposit be withdrawn at the same time. That leaves
    the pool, every tick, every other position and the log as bringing the rewards up to date does; the
    position itself has its old liquidity back and what the deposit's settlement credited, nothing more.
  */
  lemma DepositIsUndone(m: Machine, id: int, amount: u128, terms: Terms, timestamp: u64)
    returns (now: Machine, m': Machine, back: i128, m'': Machine)
    requires Reachable(m)
    ensures IncreaseLiquidity(m, id, amount, terms, timestamp).Ok? ==>
      && AdvanceTo(m, timestamp) == Ok(now) && IncreaseLiquidity(m, id, amount, terms, timestamp) == Ok(m')
      && back + amount == 0 && ModifyLiquidity(m', id, back, timestamp) == Ok(m'') && Restored(now, m', m'', id)
  {
    now, m', back, m'' := m, m, 0, m;
    if IncreaseLiquidity(m, id, amount, terms, timestamp).Ok? {
      var delta := DepositOf(m, id, amount, terms, timestamp);
      now, m' := DepositParts(m, id, delta, timestamp);
      back := WrapNegate(delta);
      m'' := UndoneNow(now, m', id, delta, back, timestamp);
    }
  }

  /**
    And at the same prices the vaults can pay it back: with minima below what the deposit cost and no less
    than that in the vaults, the withdrawal goes through.
  */
  lemma DepositIsReturned(m: Machine, id: int, amount: u128, terms: Terms, terms': Terms, timestamp: u64)
    requires Reachable(m)
    ensures IncreaseLiquidity(m, id, amount, terms, timestamp).Ok? ==>
      var m', cost := IncreaseLiquidity(m, id, amount, terms, timestamp).value,
                      AcceptDeposit(m.pool.tickCurrentIndex, m.positions[id], terms, amount);
      cost.Ok? && (ReturnsCost(terms, terms', cost.value) ==> DecreaseLiquidity(m', id, amount, terms', timestamp).Ok?)
  {
    if IncreaseLiquidity(m, id, amount, terms, timestamp).Ok? {
      var delta := DepositOf(m, id, amount, terms, timestamp);
      var now, m' := DepositParts(m, id, delta, timestamp);
      var back := WrapNegate(delta);
      var m'' := UndoneNow(now, m', id, delta, back, timestamp);
      if ReturnsCost(terms, terms', AcceptDeposit(m.pool.tickCurrentIndex, m.positions[id], terms, delta).value) {
        PayoutAccepted(m.pool.tickCurrentIndex, m.positions[id], m'.positions[id], delta, back, terms, terms');
        WithdrawalIsChange(m', id, amount, back, terms', timestamp);
      }
    }
  }

  /** The vaults return a deposit, less at most one unit of each token. */
  lemma PayoutAccepted(current: int, p: Position, p': Position, delta: i128, back: i128, terms: Terms, terms': Terms)
    requires 0 < delta && back + delta == 0 && AcceptDeposit(current, p, terms, delta).Ok?
    requires ReturnsCost(terms, terms', AcceptDeposit(current, p, terms, delta).value)
    requires p'.tickLowerIndex == p.tickLowerIndex && p'.tickUpperIndex == p.tickUpperIndex
    ensures AcceptWithdrawal(current, p', terms', back).Ok?
  {
    LiquidityManager.TokensReturned(current, terms.prices, p, delta);
  }

  /** A change brings rewards up to date and then changes one position. */
  lemma DepositParts(m: Machine, id: int, delta: i128, timestamp: u64) returns (now: Machine, m': Machine)
    requires Reachable(m) && 0 < delta
    ensures ModifyLiquidity(m, id, delta, timestamp).Ok? ==>
      && AdvanceTo(m, timestamp) == Ok(now) && ModifyLiquidity(m, id, delta, timestamp) == Ok(m')
      && Changes(now, m', id, delta) && RecordsCredits(now, m', id) && EndsInBooks(now, id) && BlankWhenUnused(now.ticks)
      && now.pool.rewardLastUpdatedTimestamp == timestamp && now.positions == m.positions && ValidRanges(m.positions)
      && now.pool.tickCurrentIndex == m.pool.tickCurrentIndex == m'.pool.tickCurrentIndex
  {
    now, m' := m, m;
    if ModifyLiquidity(m, id, delta, timestamp).Ok? {
      ReachableHasInv(m);
      UnusedTicksAreBlank(m);
      Steps.AdvanceKeepsInv(m, timestamp);
      ModifyFactors(m, id, delta, timestamp);
      now := AdvanceTo(m, timestamp).value;
      m' := ModifyLiquidity(now, id, delta, timestamp).value;
      ModifyParts(now, id, delta, timestamp);
      assert TickBooks(now.positions, now.ticks, now.positions[id].tickLowerIndex);
      assert TickBooks(now.positions, now.ticks, now.positions[id].tickUpperIndex);
    }
  }

  /** The withdrawal, once rewards are up to date. */
  lemma UndoneNow(m: Machine, m': Machine, id: int, delta: i128, back: i128, timestamp: u64) returns (m'': Machine)
    requires 0 < delta && back + delta == 0 && Changes(m, m', id, delta) && m.pool.rewardLastUpdatedTimestamp == timestamp
    requires EndsInBooks(m, id) && BlankWhenUnused(m.ticks) && ValidRanges(m.positions)
    ensures ModifyLiquidity(m', id, back, timestamp) == Ok(m'') && Restored(m, m', m'', id)
  {
    WithdrawalAfter(m, m', id, delta, back, timestamp);
    m'' := ChangeNow(m', id, back, timestamp);
    ChangeUndone(m, m', m'', id, delta, back);
  }

  lemma ChangeNow(m: Machine, id: int, delta: i128, timestamp: u64) returns (m': Machine)
    requires 0 <= id < |m.positions| && m.pool.rewardLastUpdatedTimestamp == timestamp
    requires m.positions[id].tickLowerIndex < m.positions[id].tickUpperIndex
    requires ModifyLiquidity(m, id, delta, timestamp).Ok?
    ensures ModifyLiquidity(m, id, delta, timestamp) == Ok(m') && Changes(m, m', id, delta) && RecordsCredits(m, m', id)
  {
    m' := ModifyLiquidity(m, id, delta, timestamp).value;
    ModifyParts(m, id, delta, timestamp);
  }

  /** For a position that already had liquidity, an undone deposit comes to nothing but a settlement. */
  lemma UndoneDepositIsSettlement(m: Machine, id: int, amount: u128, terms: Terms, timestamp: u64,
                                  now: Machine, m': Machine, m'': Machine)
    requires Reachable(m) && AdvanceTo(m, timestamp) == Ok(now)
    requires IncreaseLiquidity(m, id, amount, terms, timestamp) == Ok(m') && Restored(now, m', m'', id)
    requires 0 <= id < |m.positions| && m.positions[id].liquidity > 0
    ensures UpdateFeesAndRewards(m, id, timestamp).Ok? && SameAccounts(m'', UpdateFeesAndRewards(m, id, timestamp).value)
  {
    DepositSettles(m, id, amount, terms, timestamp, now, m');
    RestoredAlike(now, m', m'', UpdateFeesAndRewards(m, id, timestamp).value, id);
  }

  lemma DepositSettles(m: Machine, id: int, amount: u128, terms: Terms, timestamp: u64, now: Machine, m': Machine)
    requires Reachable(m) && AdvanceTo(m, timestamp) == Ok(now)
    requires IncreaseLiquidity(m, id, amount, terms, timestamp) == Ok(m')
    requires 0 <= id < |m.positions| && m.positions[id].liquidity > 0
    ensures UpdateFeesAndRewards(m, id, timestamp).Ok? && Restored(now, m', UpdateFeesAndRewards(m, id, timestamp).value, id)
  {
    ReachableHasInv(m);
    var delta := DepositOf(m, id, amount, terms, timestamp);
    var now', m1 := DepositParts(m, id, delta, timestamp);
    var settled := SettledNow(m, now, id, timestamp);
    SameSettlement(now, m', settled, id, delta);
  }

  lemma RestoredAlike(m: Machine, between: Machine, a: Machine, b: Machine, id: int)
    requires Restored(m, between, a, id) && Restored(m, between, b, id)
    ensures SameAccounts(a, b)
  {
  }

  /** A settlement, once rewards are up to date. */
  lemma SettledNow(m: Machine, now: Machine, id: int, timestamp: u64) returns (settled: Machine)
    requires WellFormed(m) && AdvanceTo(m, timestamp) == Ok(now) && 0 <= id < |m.positions| && m.positions[id].liquidity > 0
    ensures UpdateFeesAndRewards(m, id, timestamp) == Ok(settled)
    ensures Changes(now, settled, id, 0) && RecordsCredits(now, settled, id)
  {
    ModifyFactors(m, id, 0, timestamp);
    settled := ModifyLiquidity(now, id, 0, timestamp).value;
    ModifyParts(now, id, 0, timestamp);
  }

  /** What a change settles does not depend on the amount changed. */
  lemma SameSettlement(m: Machine, m': Machine, settled: Machine, id: int, delta: i128)
    requires Changes(m, m', id, delta) && RecordsCredits(m, m', id)
    requires Changes(m, settled, id, 0) && RecordsCredits(m, settled, id)
    ensures Restored(m, m', settled, id)
  {
    var p := m'.positions[id].(liquidity := m.positions[id].liquidity);
    forall k
      ensures Checkpoint(settled.positions[id], k) == Checkpoint(p, k) && Owed(settled.positions[id], k) == Owed(p, k)
    {
      assert Checkpoint(m'.positions[id], k) == Checkpoint(settled.positions[id], k);
      assert Owed(m'.positions[id], k) == Owed(settled.positions[id], k);
    }
    SamePosition(settled.positions[id], p);
  }

  // ---- Settling twice ---------------------------------------------------------------------------------------

  /**
    In every reachable state, settling a position again right after any change that leaves it liquidity
    changes nothing at all, whichever ticks the change initialized or cleared.
  */
  lemma SettlingAgainChangesNothing(m: Machine, id: int, delta: i128, timestamp: u64)
    requires Reachable(m)
    ensures ModifyLiquidity(m, id, delta, timestamp).Ok? ==>
      var m' := ModifyLiquidity(m, id, delta, timestamp).value;
      m'.positions[id].liquidity > 0 ==>
        UpdateFeesAndRewards(m', id, timestamp).Ok? && SameAccounts(UpdateFeesAndRewards(m', id, timestamp).value, m')
  {
    if ModifyLiquidity(m, id, delta, timestamp).Ok? {
      ReachableHasInv(m);
      Steps.AdvanceKeepsInv(m, timestamp);
      ModifyFactors(m, id, delta, timestamp);
      var now := AdvanceTo(m, timestamp).value;
      ModifyParts(now, id, delta, timestamp);
      var m' := ModifyLiquidity(now, id, delta, timestamp).value;
      if m'.positions[id].liquidity > 0 {
        ChangeKeepsInv(now, m', id, delta);
        AdvanceAgain(m', timestamp);
        var m'' := SettledNow(m', m', id, timestamp);
        SettledTwice(now, m', m'', id, delta);
      }
    }
  }

  lemma AdvanceAgain(m: Machine, timestamp: u64)
    requires m.pool.rewardLastUpdatedTimestamp == timestamp
    ensures AdvanceTo(m, timestamp) == Ok(m)
  {
    assert RewardEvents(m.pool, timestamp) == [];
    assert m.log + [] == m.log;
  }

  lemma SettledTwice(m: Machine, m': Machine, m'': Machine, id: int, delta: i128)
    requires Inv(m) && Inv(m') && Changes(m, m', id, delta) && Changes(m', m'', id, 0) && RecordsCredits(m', m'', id)
    requires m'.positions[id].liquidity > 0
    ensures SameAccounts(m'', m')
  {
    var l, u := m.positions[id].tickLowerIndex, m.positions[id].tickUpperIndex;
    assert SpansWithLiquidity(m'.positions[id], l, u);
    forall k
      ensures Unmoved(m', m'', id, k)
    {
      ClearingSparesEarners(m, m', id, delta, l, u, k);
      SettledAtCheckpoint(m', m'', id, 0, k);
    }
    UnmovedPosition(m', m'', id, m'.positions[id].liquidity);
    NothingCredited(m', m'', id);
  }
}
