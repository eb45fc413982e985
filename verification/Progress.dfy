/** When deposits, withdrawals, crossings and whole swaps succeed. */
module Progress {
  import opened Words
  import opened State
  import opened SwapManager
  import opened LiquidityManager
  import opened Instructions
  import opened Machine
  import opened Sums
  import opened Books
  import opened Invariant
  import opened Steps
  import Liquidity
  import opened Runs

  // ---- Withdrawals ---------------------------------------------------------------------------------------

  /** Removing an amount empties the tick, or leaves its net amount within 128 signed bits. */
  predicate NetHasRoom(tick: Tick, amount: u128, isUpper: bool) {
    || tick.liquidityGross == amount
    || (if isUpper then tick.liquidityNet + amount < TWO_127 else -TWO_127 <= tick.liquidityNet - amount)
  }

  lemma TickRemoval(m: Machine, id: int, t: int, amount: u128, delta: i128, isUpper: bool)
    requires TickBooks(m.positions, m.ticks, t) && 0 <= id < |m.positions|
    requires 0 < amount <= EndsAt(m.positions[id], t) && delta + amount == 0
    ensures Liquidity.TickChange(m, t, delta, isUpper).Ok? <==> NetHasRoom(TickAt(m.ticks, t), amount, isUpper)
  {
    LiquidityKeepsTicks(m.positions, m.ticks, id, t);
    NetBoundedByGross(m.positions, t);
  }

  /** In range, the pool's liquidity covers every position's. */
  lemma PoolCoversPosition(m: Machine, id: int)
    requires BooksBalance(m.positions, m.ticks, m.pool) && 0 <= id < |m.positions|
    ensures ActiveIn(m.positions[id], m.pool.tickCurrentIndex) <= m.pool.liquidity
  {
    SumAtLeast(|m.positions|, id, ActiveOf(m.positions, m.pool.tickCurrentIndex));
  }

  /** The position has the amount, and both its ticks' net amounts have room. */
  predicate RemovalFits(m: Machine, p: Position, amount: u128) {
    && amount <= p.liquidity
    && NetHasRoom(TickAt(m.ticks, p.tickLowerIndex), amount, false)
    && NetHasRoom(TickAt(m.ticks, p.tickUpperIndex), amount, true)
  }

  /** The current time case, from the invariant. */
  lemma RemovalNow(m: Machine, id: int, amount: u128, delta: i128, timestamp: u64)
    requires WellFormed(m) && BooksBalance(m.positions, m.ticks, m.pool)
    requires 0 <= id < |m.positions| && m.pool.rewardLastUpdatedTimestamp == timestamp && 0 < amount && delta + amount == 0
    ensures ModifyLiquidity(m, id, delta, timestamp).Ok? <==> RemovalFits(m, m.positions[id], amount)
  {
    var p := m.positions[id];
    if amount <= p.liquidity {
      assert TickBooks(m.positions, m.ticks, p.tickLowerIndex) && TickBooks(m.positions, m.ticks, p.tickUpperIndex);
      TickRemoval(m, id, p.tickLowerIndex, amount, delta, false);
      TickRemoval(m, id, p.tickUpperIndex, amount, delta, true);
      PoolCoversPosition(m, id);
    }
  }

  /**
    In every reachable state the accounts of a withdrawal can be updated exactly when it is at most the
    position's liquidity, the clock has not run backwards, and both ticks' net amounts have room.
  */
  lemma RemovalSucceedsIff(m: Machine, id: int, amount: u128, delta: i128, timestamp: u64)
    requires Reachable(m) && 0 <= id < |m.positions| && 0 < amount && delta + amount == 0
    ensures ModifyLiquidity(m, id, delta, timestamp).Ok? <==>
      m.pool.rewardLastUpdatedTimestamp <= timestamp && RemovalFits(m, m.positions[id], amount)
  {
    if m.pool.rewardLastUpdatedTimestamp <= timestamp {
      ReachableHasInv(m);
      AdvanceKeepsInv(m, timestamp);
      Liquidity.ModifyFactors(m, id, delta, timestamp);
      RemovalNow(AdvanceTo(m, timestamp).value, id, amount, delta, timestamp);
    }
  }

  /** What the withdrawn liquidity is worth reaches the owner's minima and is in the vaults. */
  predicate PayoutFits(m: Machine, p: Position, amount: u128, terms: Terms) {
    && TokensFit(m.pool.tickCurrentIndex, terms.prices, p, amount, false)
    && var (a, b) := QuotedTokens(m.pool.tickCurrentIndex, terms.prices, p, amount, false);
    terms.limitA <= a <= terms.availableA && terms.limitB <= b <= terms.availableB
  }

  lemma PayoutAccepted(m: Machine, p: Position, amount: u128, delta: i128, terms: Terms)
    requires 0 < amount && delta + amount == 0
    ensures AcceptWithdrawal(m.pool.tickCurrentIndex, p, terms, delta).Ok? <==> PayoutFits(m, p, amount, terms)
  {
    DeltasAreQuoted(m.pool.tickCurrentIndex, terms.prices, p, delta, amount, false);
  }

  /** A withdrawal succeeds exactly when, besides, its tokens can be paid and meet the owner's minima. */
  lemma WithdrawalSucceedsIff(m: Machine, id: int, amount: u128, terms: Terms, timestamp: u64)
    requires Reachable(m) && 0 <= id < |m.positions|
    ensures DecreaseLiquidity(m, id, amount, terms, timestamp).Ok? <==>
      && 0 < amount < TWO_127 && m.pool.rewardLastUpdatedTimestamp <= timestamp
      && RemovalFits(m, m.positions[id], amount) && PayoutFits(m, m.positions[id], amount, terms)
  {
    if 0 < amount < TWO_127 {
      var delta: i128 := -(amount as int);
      PayoutAccepted(m, m.positions[id], amount, delta, terms);
      WithdrawalIsChange(m, id, amount, delta, terms, timestamp);
      RemovalSucceedsIff(m, id, amount, delta, timestamp);
    }
  }

  /**
    Ticks whose gross liquidity fits i128 always have room: there no removal of at most the position's
    liquidity gets stuck in the accounts.
  */
  lemma WithdrawalCannotGetStuck(m: Machine, id: int, delta: i128, timestamp: u64)
    requires Reachable(m) && 0 <= id < |m.positions|
    requires TickAt(m.ticks, m.positions[id].tickLowerIndex).liquidityGross < TWO_127
    requires TickAt(m.ticks, m.positions[id].tickUpperIndex).liquidityGross < TWO_127
    requires delta < 0 <= m.positions[id].liquidity + delta
    requires m.pool.rewardLastUpdatedTimestamp <= timestamp
    ensures ModifyLiquidity(m, id, delta, timestamp).Ok?
  {
    ReachableHasInv(m);
    var p, amount := m.positions[id], -(delta as int);
    SmallGrossHasRoom(m, id, p.tickLowerIndex, amount, false);
    SmallGrossHasRoom(m, id, p.tickUpperIndex, amount, true);
    RemovalSucceedsIff(m, id, amount, delta, timestamp);
  }

  lemma SmallGrossHasRoom(m: Machine, id: int, t: int, amount: u128, isUpper: bool)
    requires Inv(m) && 0 <= id < |m.positions|
    requires t == if isUpper then m.positions[id].tickUpperIndex else m.positions[id].tickLowerIndex
    requires TickAt(m.ticks, t).liquidityGross < TWO_127 && 0 < amount <= m.positions[id].liquidity
    ensures NetHasRoom(TickAt(m.ticks, t), amount, isUpper) && amount < TWO_127
  {
    assert TickBooks(m.positions, m.ticks, t);
    LiquidityKeepsTicks(m.positions, m.ticks, id, t);
    var p := m.positions[id];
    var less := p.(liquidity := p.liquidity - amount);
    SumsAfterUpdate(m.positions, id, less, t);
    NetBoundedByGross(m.positions[id := less], t);
  }

  // ---- Deposits --------------------------------------------------------------------------------------------

  /** Both gross amounts, both net amounts and, in range, the pool's liquidity can take the amount. */
  predicate DepositFits(m: Machine, p: Position, amount: u128) {
    var lower, upper := TickAt(m.ticks, p.tickLowerIndex), TickAt(m.ticks, p.tickUpperIndex);
    && lower.liquidityGross + amount < TWO_128 && upper.liquidityGross + amount < TWO_128
    && lower.liquidityNet + amount < TWO_127 && -TWO_127 <= upper.liquidityNet - amount
    && (p.tickLowerIndex <= m.pool.tickCurrentIndex < p.tickUpperIndex ==> m.pool.liquidity + amount < TWO_128)
  }

  lemma DepositNow(m: Machine, id: int, amount: u128, delta: i128, timestamp: u64)
    requires WellFormed(m) && BooksBalance(m.positions, m.ticks, m.pool)
    requires 0 <= id < |m.positions| && m.pool.rewardLastUpdatedTimestamp == timestamp && 0 < amount == delta
    ensures ModifyLiquidity(m, id, delta, timestamp).Ok? <==> DepositFits(m, m.positions[id], amount)
  {
    var p := m.positions[id];
    assert TickBooks(m.positions, m.ticks, p.tickLowerIndex) && TickBooks(m.positions, m.ticks, p.tickUpperIndex);
    LiquidityKeepsTicks(m.positions, m.ticks, id, p.tickLowerIndex);
    TickDeposit(m, p.tickLowerIndex, amount, delta, false);
    TickDeposit(m, p.tickUpperIndex, amount, delta, true);
  }

  lemma TickDeposit(m: Machine, t: int, amount: u128, delta: i128, isUpper: bool)
    requires TickBooks(m.positions, m.ticks, t) && 0 < amount == delta
    ensures
      var tick := TickAt(m.ticks, t);
      Liquidity.TickChange(m, t, delta, isUpper).Ok? <==>
        && tick.liquidityGross + amount < TWO_128
        && (if isUpper then -TWO_127 <= tick.liquidityNet - amount else tick.liquidityNet + amount < TWO_127)
  {
  }

  lemma AdditionSucceedsIff(m: Machine, id: int, amount: u128, delta: i128, timestamp: u64)
    requires Reachable(m) && 0 <= id < |m.positions| && 0 < amount == delta
    ensures ModifyLiquidity(m, id, delta, timestamp).Ok? <==>
      m.pool.rewardLastUpdatedTimestamp <= timestamp && DepositFits(m, m.positions[id], amount)
  {
    if m.pool.rewardLastUpdatedTimestamp <= timestamp {
      ReachableHasInv(m);
      AdvanceKeepsInv(m, timestamp);
      Liquidity.ModifyFactors(m, id, delta, timestamp);
      DepositNow(AdvanceTo(m, timestamp).value, id, amount, delta, timestamp);
    }
  }

  /** The price of the deposited liquidity is within the owner's maxima and means. */
  predicate CostFits(m: Machine, p: Position, amount: u128, terms: Terms) {
    && TokensFit(m.pool.tickCurrentIndex, terms.prices, p, amount, true)
    && var (a, b) := QuotedTokens(m.pool.tickCurrentIndex, terms.prices, p, amount, true);
    a <= terms.limitA && a <= terms.availableA && b <= terms.limitB && b <= terms.availableB
  }

  lemma CostAccepted(m: Machine, p: Position, amount: u128, delta: i128, terms: Terms)
    requires 0 < amount == delta
    ensures AcceptDeposit(m.pool.tickCurrentIndex, p, terms, delta).Ok? <==> CostFits(m, p, amount, terms)
  {
    DeltasAreQuoted(m.pool.tickCurrentIndex, terms.prices, p, delta, amount, true);
  }

  /**
    The limits of a deposit are those of the ticks, the pool and the owner's tokens; the position's own
    never comes first.
  */
  lemma DepositSucceedsIff(m: Machine, id: int, amount: u128, terms: Terms, timestamp: u64)
    requires Reachable(m) && 0 <= id < |m.positions|
    ensures IncreaseLiquidity(m, id, amount, terms, timestamp).Ok? <==>
      && 0 < amount < TWO_127 && m.pool.rewardLastUpdatedTimestamp <= timestamp
      && DepositFits(m, m.positions[id], amount) && CostFits(m, m.positions[id], amount, terms)
  {
    if 0 < amount < TWO_127 {
      CostAccepted(m, m.positions[id], amount, amount, terms);
      DepositIsChange(m, id, amount, amount, terms, timestamp);
      AdditionSucceedsIff(m, id, amount, amount, timestamp);
    }
  }

  // ---- Crossings -------------------------------------------------------------------------------------------

  /** Liquidity in range on the other side of the tick a leg reaches. */
  ghost function Beyond(m: Machine, aToB: bool, leg: Leg): int {
    ActiveAt(m.positions, if aToB then leg.nextTick - 1 else leg.nextTick)
  }

  lemma BeyondIsNetAway(m: Machine, aToB: bool, leg: Leg)
    requires Inv(m) && FollowsSearch(m.pool, m.ticks, aToB, leg)
    requires leg.reachesNextTick && TickAt(m.ticks, leg.nextTick).initialized
    ensures 0 <= Beyond(m, aToB, leg)
    ensures Beyond(m, aToB, leg)
         == m.pool.liquidity + if aToB then -(TickAt(m.ticks, leg.nextTick).liquidityNet as int)
                               else TickAt(m.ticks, leg.nextTick).liquidityNet
  {
    var tick, current := leg.nextTick, m.pool.tickCurrentIndex;
    assert TickBooks(m.positions, m.ticks, tick);
    if aToB {
      ActiveAcrossTick(m.positions, m.ticks, tick - 1, tick, current);
      SumNonNegative(|m.positions|, ActiveOf(m.positions, tick - 1));
    } else {
      ActiveAcrossTick(m.positions, m.ticks, current, tick, tick);
      SumNonNegative(|m.positions|, ActiveOf(m.positions, tick));
    }
  }

  /**
    A swap that arrives at the next initialized tick can cross it exactly when the liquidity in range
    beyond it fits 128 bits; then that is the pool's liquidity. It never underflows.
  */
  lemma CrossingSucceedsIff(m: Machine, aToB: bool, leg: Leg)
    requires Reachable(m) && FollowsSearch(m.pool, m.ticks, aToB, leg) && NegatesNet(m.ticks, aToB, leg)
    requires leg.reachesNextTick && TickAt(m.ticks, leg.nextTick).initialized
    ensures
      var moved := MoveTick(m.pool, m.ticks, aToB, leg);
      && (moved.Ok? <==> Beyond(m, aToB, leg) < TWO_128)
      && (moved.Ok? ==> moved.value.0.liquidity == Beyond(m, aToB, leg))
      && moved != Err(LiquidityUnderflow)
  {
    ReachableHasInv(m);
    BeyondIsNetAway(m, aToB, leg);
  }

  /**
    The one net amount that cannot be negated: leaving such a tick to the left goes through exactly when
    the pool has 2^127 units of liquidity, and gets the liquidity in range wrong, by 2^128.
  */
  lemma LeastNetBreaksBooks(m: Machine, aToB: bool, leg: Leg)
    requires Reachable(m) && FollowsSearch(m.pool, m.ticks, aToB, leg) && !NegatesNet(m.ticks, aToB, leg)
    ensures
      var moved := MoveTick(m.pool, m.ticks, aToB, leg);
      && (moved.Ok? <==> TWO_127 <= m.pool.liquidity)
      && (moved.Ok? ==> moved.value.0.liquidity == Beyond(m, aToB, leg) - TWO_128)
  {
    ReachableHasInv(m);
    BeyondIsNetAway(m, aToB, leg);
  }

  // ---- Below 2^127 units of liquidity in all, nothing gets stuck ------------------------------------------------

  ghost function LiquidityOf(ps: Positions): int -> int {
    i => if 0 <= i < |ps| then ps[i].liquidity else 0
  }

  ghost function TotalLiquidity(ps: Positions): int {
    SumTo(|ps|, LiquidityOf(ps))
  }

  lemma TicksWithinTotal(ps: Positions, t: int)
    requires ValidRanges(ps)
    ensures GrossAt(ps, t) <= TotalLiquidity(ps)
    ensures -TotalLiquidity(ps) <= NetAt(ps, t) <= TotalLiquidity(ps)
    ensures ActiveAt(ps, t) <= TotalLiquidity(ps)
  {
    SumBounds(|ps|, GrossOf(ps, t), LiquidityOf(ps));
    SumBounds(|ps|, ActiveOf(ps, t), LiquidityOf(ps));
    NetBoundedByGross(ps, t);
  }

  /** Any move the search allows succeeds. */
  lemma MoveSucceeds(m: Machine, aToB: bool, leg: Leg)
    requires Inv(m) && TotalLiquidity(m.positions) < TWO_127 && FollowsSearch(m.pool, m.ticks, aToB, leg)
    ensures NegatesNet(m.ticks, aToB, leg) && MoveTick(m.pool, m.ticks, aToB, leg).Ok?
  {
    if leg.reachesNextTick && TickAt(m.ticks, leg.nextTick).initialized {
      assert TickBooks(m.positions, m.ticks, leg.nextTick);
      TicksWithinTotal(m.positions, leg.nextTick);
      TicksWithinTotal(m.positions, leg.nextTick - 1);
      BeyondIsNetAway(m, aToB, leg);
    }
  }

  lemma {:induction false} LegsSucceed(m: Machine, aToB: bool, legs: seq<Leg>)
    requires Inv(m) && TotalLiquidity(m.positions) < TWO_127 && LegsFollowSearch(m.pool, m.ticks, aToB, legs)
    ensures LegsNegateNet(m.pool, m.ticks, aToB, legs) && SwapLegs(m.pool, m.ticks, aToB, legs).Ok?
    decreases |legs|
  {
    if legs == [] {
    } else {
      var paid := AfterFee(m, aToB, legs[0].feeAmount);
      FeeKeepsInv(m, aToB, legs[0].feeAmount);
      MoveSucceeds(paid, aToB, legs[0]);
      MoveKeepsInv(paid, aToB, legs[0]);
      var (pool, ticks) := MoveTick(paid.pool, paid.ticks, aToB, legs[0]).value;
      LegsSucceed(paid.(pool := pool, ticks := ticks), aToB, legs[1..]);
    }
  }

  /**
    In every reachable state with less than 2^127 units of liquidity in all, the accounting never makes
    a swap fail, however many ticks it crosses: only the clock can.
  */
  lemma SwapCannotGetStuck(m: Machine, aToB: bool, legs: seq<Leg>, timestamp: u64)
    requires Reachable(m) && TotalLiquidity(m.positions) < TWO_127
    requires FollowsPrices(m, DoSwap(aToB, legs, timestamp))
    ensures Possible(m, DoSwap(aToB, legs, timestamp))
    ensures Swap(m, aToB, legs, timestamp).Ok? <==> m.pool.rewardLastUpdatedTimestamp <= timestamp
  {
    if m.pool.rewardLastUpdatedTimestamp <= timestamp {
      ReachableHasInv(m);
      AdvanceKeepsInv(m, timestamp);
      LegsSucceed(AdvanceTo(m, timestamp).value, aToB, legs);
    }
  }

  /** And no position is ever kept from any part of its liquidity by the accounts. */
  lemma LiquidityCanBeRemoved(m: Machine, id: int, delta: i128, timestamp: u64)
    requires Reachable(m) && TotalLiquidity(m.positions) < TWO_127
    requires 0 <= id < |m.positions| && delta < 0 <= m.positions[id].liquidity + delta
    requires m.pool.rewardLastUpdatedTimestamp <= timestamp
    ensures ModifyLiquidity(m, id, delta, timestamp).Ok?
  {
    ReachableHasInv(m);
    var l, u := m.positions[id].tickLowerIndex, m.positions[id].tickUpperIndex;
    assert TickBooks(m.positions, m.ticks, l) && TickBooks(m.positions, m.ticks, u);
    TicksWithinTotal(m.positions, l);
    TicksWithinTotal(m.positions, u);
    WithdrawalCannotGetStuck(m, id, delta, timestamp);
  }

  // ---- Books --------------------------------------------------------------------------------------------------

  /** The books of every reachable state. */
  lemma ReachableBooksBalance(m: Machine)
    requires Reachable(m)
    ensures NetUpTo(m.ticks, m.pool.tickCurrentIndex) == m.pool.liquidity
         == ActiveAt(m.positions, m.pool.tickCurrentIndex)
    ensures NetUpTo(m.ticks, MAX_TICK_INDEX) == 0
    ensures forall t :: NetWithinGross(TickAt(m.ticks, t))
    ensures forall t :: TickAt(m.ticks, t).liquidityGross == GrossAt(m.positions, t)
    ensures forall t :: TickAt(m.ticks, t).liquidityNet == NetAt(m.positions, t)
  {
    ReachableHasInv(m);
    BalancedBooks(m.positions, m.ticks, m.pool);
    forall t
      ensures TickAt(m.ticks, t).liquidityGross == GrossAt(m.positions, t)
      ensures TickAt(m.ticks, t).liquidityNet == NetAt(m.positions, t)
    {
      assert TickBooks(m.positions, m.ticks, t);
    }
  }

  lemma LiquidTickInitialized(m: Machine, t: int)
    requires Reachable(m)
    ensures TickAt(m.ticks, t).initialized <==> TickAt(m.ticks, t).liquidityGross > 0
  {
    ReachableHasInv(m);
    assert TickBooks(m.positions, m.ticks, t);
  }
}
