/** The vaults hold what positions are worth, what they are owed and the protocol's fees, in every run. */
module Backing {
  import opened Words
  import opened State
  import opened LiquidityManager
  import opened SwapManager
  import opened Instructions
  import opened Ledger
  import opened Machine
  import opened Books
  import opened Invariant
  import opened SwapMath
  import opened TokenWorth
  import opened SwapLoop
  import opened Vaults
  import Sums
  import Prices
  import Rounding
  import Steps
  import Runs
  import Solvency
  import Progress

  // ---- Rounded amounts against exact ones -----------------------------------------------------------------

  /** A bound on a product, divided by a common factor. */
  lemma DividedBound(l: nat, span: real, product: int, diff: int, amount: int)
    requires product > 0 && span * product as real == TWO_128 as real * diff as real
    ensures l * diff * TWO_64 <= product * amount ==> Times(l, span) <= TWO_64 as real * amount as real
    ensures product * amount <= l * diff * TWO_64 ==> TWO_64 as real * amount as real <= Times(l, span)
  {
    var p, left, right := product as real, l as real * span, TWO_64 as real * amount as real;
    TimesIsProduct(l, span);
    assert left * p == l as real * (span * p);
    assert left * p == TWO_64 as real * (l * diff * TWO_64) as real by {
      assert (l * diff * TWO_64) as real == l as real * diff as real * TWO_64 as real;
    }
    assert right * p == TWO_64 as real * (product * amount) as real by {
      assert (product * amount) as real == p * amount as real;
    }
    CancelReal(left, right, p);
    CancelReal(right, left, p);
  }

  /** Rounded up, an amount of A is at least the exact one; rounded down, at most. */
  lemma AmountOfA(liquidity: u128, low: u128, high: u128, span: real)
    requires 0 < low <= high && span == Span(A, low, high)
    ensures TWO_64 as real * Prices.TokenAFromLiquidity(liquidity, low, high, false) as real <= Times(liquidity, span)
    ensures Times(liquidity, span) <= TWO_64 as real * Prices.TokenAFromLiquidity(liquidity, low, high, true) as real
  {
    BoundsOfA(liquidity, low, high, Prices.TokenAFromLiquidity(liquidity, low, high, true), span);
    BoundsOfA(liquidity, low, high, Prices.TokenAFromLiquidity(liquidity, low, high, false), span);
  }

  lemma BoundsOfA(liquidity: u128, low: u128, high: u128, x: int, span: real)
    requires 0 < low <= high && span == Span(A, low, high)
    ensures Prices.TokenAFromLiquidity(liquidity, low, high, true) <= x ==> Times(liquidity, span) <= TWO_64 as real * x as real
    ensures x <= Prices.TokenAFromLiquidity(liquidity, low, high, false) ==> TWO_64 as real * x as real <= Times(liquidity, span)
  {
    Prices.TokenABounds(liquidity, low, high, x);
    Rounding.Scale(1, high, low);
    ReciprocalFalls(low, high);
    assert high * low == low * high;
    DividedBound(liquidity, span, low * high, high - low, x);
  }

  lemma AmountOfB(liquidity: u128, low: u128, high: u128, span: real)
    requires low <= high && span == Span(B, low, high)
    ensures TWO_64 as real * Prices.TokenBFromLiquidity(liquidity, low, high, false) as real <= Times(liquidity, span)
    ensures Times(liquidity, span) <= TWO_64 as real * Prices.TokenBFromLiquidity(liquidity, low, high, true) as real
  {
    var up, down := Prices.TokenBFromLiquidity(liquidity, low, high, true), Prices.TokenBFromLiquidity(liquidity, low, high, false);
    Prices.TokenBBounds(liquidity, low, high, up);
    Prices.TokenBBounds(liquidity, low, high, down);
    TimesIsProduct(liquidity, span);
    assert (liquidity * (high - low)) as real == liquidity as real * span;
  }

  // ---- One step of a swap ------------------------------------------------------------------------------------

  /** The loop at some point of a swap: accounts in order, the price where the current tick says, the limit ahead. */
  ghost predicate Underway(s: Setup, order: Order, m: Machine, c: Cursor) {
    && Inv(m) && (m.pool, m.ticks) == (c.pool, c.ticks) && Progress.TotalLiquidity(m.positions) < TWO_127
    && Monotone(s.grid) && Located(s.grid, c.price, c.pool.tickCurrentIndex)
    && MIN_SQRT_PRICE <= order.limit <= MAX_SQRT_PRICE
    && (if order.aToB then order.limit <= c.price else c.price <= order.limit)
  }

  ghost predicate NextStop(c: Cursor, aToB: bool, next: int) {
    FirstStop(c.ticks, c.pool.tickCurrentIndex, aToB, next) && MIN_TICK_INDEX <= next <= MAX_TICK_INDEX
  }

  lemma TargetIsAhead(s: Setup, order: Order, m: Machine, c: Cursor, next: int)
    requires Underway(s, order, m, c) && NextStop(c, order.aToB, next)
    ensures 0 < Target(s, order, next) && Between(order.aToB, c.price, c.price, Target(s, order, next))
  {
    EdgesGrow(s.grid, next, next);
    if order.aToB {
      EdgesGrow(s.grid, next, c.pool.tickCurrentIndex);
    } else {
      EdgesGrow(s.grid, c.pool.tickCurrentIndex + 1, next);
    }
  }

  /** Where a step ends: on the way, not beyond the next tick or the limit. */
  ghost predicate Advances(s: Setup, order: Order, c: Cursor, next: int, price: u128) {
    Between(order.aToB, c.price, price, s.grid.priceAt(next)) && Between(order.aToB, c.price, price, order.limit)
  }

  lemma StepAdvances(s: Setup, order: Order, m: Machine, c: Cursor, next: int, step: SwapStep)
    requires Underway(s, order, m, c) && NextStop(c, order.aToB, next)
    requires StepAt(s, order, c, next) == Ok(step)
    ensures Advances(s, order, c, next, step.nextPrice)
    ensures FairAmounts(step, c.pool.liquidity, c.price, order.aToB)
    ensures Settle(order, c.remaining, c.calculated, step).Err? ==>
      Settle(order, c.remaining, c.calculated, step) == Err(AmountCalcOverflow)
  {
    TargetIsAhead(s, order, m, c, next);
    StepIsFair(c.remaining, s.feeRate, c.pool.liquidity, c.price, Target(s, order, next), order.isInput, order.aToB, step);
  }

  /** The price arithmetic keeps to the search: a step rests before the next tick, or reaches it. */
  lemma LegFollowsSearch(s: Setup, order: Order, m: Machine, c: Cursor, next: int, step: SwapStep)
    requires Underway(s, order, m, c) && NextStop(c, order.aToB, next) && Advances(s, order, c, next, step.nextPrice)
    ensures
      var leg := LegOf(s, c, next, step);
      && FollowsSearch(c.pool, c.ticks, order.aToB, leg)
      && Located(s.grid, step.nextPrice, if !leg.reachesNextTick then leg.stopsAt else if order.aToB then next - 1 else next)
  {
    var leg, current := LegOf(s, c, next, step), c.pool.tickCurrentIndex;
    EdgesGrow(s.grid, next, next);
    EdgesGrow(s.grid, next - 1, next);
    EdgesGrow(s.grid, next, next + 1);
    if !leg.reachesNextTick && step.nextPrice != c.price {
      RestIsBetween(s.grid, order.aToB, c.price, step.nextPrice, next, current, leg.stopsAt);
    }
  }

  lemma RestIsBetween(g: Grid, aToB: bool, price: u128, rest: u128, next: int, current: int, at: int)
    requires Monotone(g) && Located(g, price, current) && MIN_TICK_INDEX <= next <= MAX_TICK_INDEX
    requires rest != price && rest != g.priceAt(next) && at == g.tickAt(rest)
    requires Between(aToB, price, rest, g.priceAt(next)) && MIN_SQRT_PRICE <= rest <= MAX_SQRT_PRICE
    ensures if aToB then next <= at <= current else current <= at < next
    ensures Located(g, rest, at)
  {
    if aToB {
      if at < next {
        EdgesGrow(g, at + 1, next);
      }
      if current < at {
        EdgesGrow(g, current + 1, at);
      }
    } else {
      if next <= at {
        EdgesGrow(g, next, at);
      }
      if at < current {
        EdgesGrow(g, at + 1, current);
      }
    }
  }

  // ---- What a step exchanges ------------------------------------------------------------------------------------

  lemma NoEndOnTheWay(m: Machine, aToB: bool, next: int)
    requires Inv(m) && FirstStop(m.ticks, m.pool.tickCurrentIndex, aToB, next)
    ensures
      var current := m.pool.tickCurrentIndex;
      if aToB then NoEndBetween(m.positions, next, current + 1) else NoEndBetween(m.positions, current, next)
  {
    forall i | 0 <= i < |m.positions| && m.positions[i].liquidity > 0
      ensures TickAt(m.ticks, m.positions[i].tickLowerIndex).initialized
      ensures TickAt(m.ticks, m.positions[i].tickUpperIndex).initialized
    {
      var l, u := m.positions[i].tickLowerIndex, m.positions[i].tickUpperIndex;
      assert TickBooks(m.positions, m.ticks, l) && TickBooks(m.positions, m.ticks, u);
      LiquidityKeepsTicks(m.positions, m.ticks, i, l);
      LiquidityKeepsTicks(m.positions, m.ticks, i, u);
    }
  }

  /** Between two prices without an end on the way, what positions are worth changes by what the liquidity in range exchanges. */
  lemma StepChangesWorth(s: Setup, order: Order, m: Machine, c: Cursor, next: int, low: u128, high: u128, x: Token, change: real)
    requires Underway(s, order, m, c) && NextStop(c, order.aToB, next)
    requires Advances(s, order, c, next, if order.aToB then low else high) && c.price == if order.aToB then high else low
    requires change == Change(x, low, high)
    ensures Worth(x, s.grid, m.positions, high)
         == Worth(x, s.grid, m.positions, low) + Times(c.pool.liquidity, change)
  {
    var current := c.pool.tickCurrentIndex;
    NoEndOnTheWay(m, order.aToB, next);
    var below, above := if order.aToB then next else current, if order.aToB then current + 1 else next;
    WorthAfterMove(x, s.grid, m.positions, below, above, low, high, current, change);
  }

  lemma FairIn(step: SwapStep, liquidity: u128, price: u128, aToB: bool, low: u128, high: u128, span: real)
    requires FairAmounts(step, liquidity, price, aToB) && low <= high
    requires (low, high) == if aToB then (step.nextPrice, price) else (price, step.nextPrice)
    requires span == Span(InToken(aToB), low, high)
    ensures Times(liquidity, span) <= TWO_64 as real * step.amountIn as real
  {
    if aToB {
      AmountOfA(liquidity, low, high, span);
      Prices.TokenABounds(liquidity, low, high, 0);
    } else {
      AmountOfB(liquidity, low, high, span);
    }
  }

  lemma FairOut(step: SwapStep, liquidity: u128, price: u128, aToB: bool, low: u128, high: u128, span: real)
    requires FairAmounts(step, liquidity, price, aToB) && low <= high
    requires (low, high) == if aToB then (step.nextPrice, price) else (price, step.nextPrice)
    requires span == Span(OutToken(aToB), low, high)
    ensures TWO_64 as real * step.amountOut as real <= Times(liquidity, span)
  {
    if aToB {
      AmountOfB(liquidity, low, high, span);
      Prices.TokenBBounds(liquidity, low, high, 0);
    } else {
      AmountOfA(liquidity, low, high, span);
    }
  }

  /** A step takes in at least what positions gain of one token. */
  lemma StepTakesIn(s: Setup, order: Order, m: Machine, c: Cursor, next: int, step: SwapStep)
    requires Underway(s, order, m, c) && NextStop(c, order.aToB, next)
    requires Advances(s, order, c, next, step.nextPrice) && FairAmounts(step, c.pool.liquidity, c.price, order.aToB)
    ensures
      var x := InToken(order.aToB);
      Worth(x, s.grid, m.positions, step.nextPrice) - Worth(x, s.grid, m.positions, c.price)
        <= TWO_64 as real * step.amountIn as real
  {
    var (low, high) := if order.aToB then (step.nextPrice, c.price) else (c.price, step.nextPrice);
    var x := InToken(order.aToB);
    var span := Span(x, low, high);
    StepChangesWorth(s, order, m, c, next, low, high, x, if order.aToB then -span else span);
    FairIn(step, c.pool.liquidity, c.price, order.aToB, low, high, span);
    TimesIsLinear(c.pool.liquidity, span, 0.0);
  }

  /** And it gives out at most what they lose of the other. */
  lemma StepGivesOut(s: Setup, order: Order, m: Machine, c: Cursor, next: int, step: SwapStep)
    requires Underway(s, order, m, c) && NextStop(c, order.aToB, next)
    requires Advances(s, order, c, next, step.nextPrice) && FairAmounts(step, c.pool.liquidity, c.price, order.aToB)
    ensures
      var y := OutToken(order.aToB);
      TWO_64 as real * step.amountOut as real
        <= Worth(y, s.grid, m.positions, c.price) - Worth(y, s.grid, m.positions, step.nextPrice)
  {
    var (low, high) := if order.aToB then (step.nextPrice, c.price) else (c.price, step.nextPrice);
    var y := OutToken(order.aToB);
    var span := Span(y, low, high);
    StepChangesWorth(s, order, m, c, next, low, high, y, if order.aToB then span else -span);
    FairOut(step, c.pool.liquidity, c.price, order.aToB, low, high, span);
    TimesIsLinear(c.pool.liquidity, span, 0.0);
  }

  // ---- Whole swaps -------------------------------------------------------------------------------------------------

  /** From one point of a swap to a later one: what came in covers the gain and the fees, what went out is covered by the loss. */
  ghost predicate Exchanged(s: Setup, order: Order, ps: Positions, c: Cursor, c': Cursor, fees: int) {
    var x, y := InToken(order.aToB), OutToken(order.aToB);
    && Worth(x, s.grid, ps, c'.price) - Worth(x, s.grid, ps, c.price) + TWO_64 as real * fees as real
         <= TWO_64 as real * (TakenIn(order, c') - TakenIn(order, c)) as real
    && TWO_64 as real * (GivenOut(order, c') - GivenOut(order, c)) as real
         <= Worth(y, s.grid, ps, c.price) - Worth(y, s.grid, ps, c'.price)
  }

  /** The machine after a leg. */
  function AfterLeg(m: Machine, order: Order, c': Cursor, leg: Leg): Machine {
    Steps.AfterFee(m, order.aToB, leg.feeAmount).(pool := c'.pool, ticks := c'.ticks)
  }

  lemma LegSettles(s: Setup, order: Order, c: Cursor, next: int, c': Cursor, leg: Leg, step: SwapStep)
    requires OneLeg(s, order, c, next) == Ok((c', leg)) && StepAt(s, order, c, next) == Ok(step)
    ensures leg == LegOf(s, c, next, step) && c'.price == step.nextPrice && leg.feeAmount == step.feeAmount
    ensures TakenIn(order, c') - TakenIn(order, c) == step.amountIn + step.feeAmount
    ensures GivenOut(order, c') - GivenOut(order, c) == step.amountOut
    ensures LiquidityFee(leg.feeAmount, c.pool.protocolFeeRate) + c'.protocolFee - c.protocolFee <= step.feeAmount
    ensures MoveTick(AddFeeGrowth(c.pool, order.aToB, leg.feeAmount), c.ticks, order.aToB, leg) == Ok((c'.pool, c'.ticks))
  {
  }

  lemma LegExchanges(s: Setup, order: Order, m: Machine, c: Cursor, next: int, c': Cursor, leg: Leg)
    requires Underway(s, order, m, c) && NextStop(c, order.aToB, next) && OneLeg(s, order, c, next) == Ok((c', leg))
    ensures Exchanged(s, order, m.positions, c, c',
                      LiquidityFee(leg.feeAmount, c.pool.protocolFeeRate) + c'.protocolFee - c.protocolFee)
  {
    var step := StepAt(s, order, c, next).value;
    LegSettles(s, order, c, next, c', leg, step);
    StepAdvances(s, order, m, c, next, step);
    StepTakesIn(s, order, m, c, next, step);
    StepGivesOut(s, order, m, c, next, step);
  }

  /** A leg leaves everything in order for the next one. */
  lemma LegKeepsUnderway(s: Setup, order: Order, m: Machine, c: Cursor, next: int, c': Cursor, leg: Leg)
    requires Underway(s, order, m, c) && NextStop(c, order.aToB, next) && OneLeg(s, order, c, next) == Ok((c', leg))
    ensures FollowsSearch(c.pool, c.ticks, order.aToB, leg) && NegatesNet(c.ticks, order.aToB, leg)
    ensures Underway(s, order, AfterLeg(m, order, c', leg), c')
    ensures c'.pool.protocolFeeRate == c.pool.protocolFeeRate
  {
    var step := StepAt(s, order, c, next).value;
    LegSettles(s, order, c, next, c', leg, step);
    StepAdvances(s, order, m, c, next, step);
    LegFollowsSearch(s, order, m, c, next, step);
    var paid := Steps.AfterFee(m, order.aToB, leg.feeAmount);
    Steps.FeeKeepsInv(m, order.aToB, leg.feeAmount);
    Progress.MoveSucceeds(paid, order.aToB, leg);
    Steps.MoveKeepsInv(paid, order.aToB, leg);
  }

  lemma ExchangesAddUp(s: Setup, order: Order, ps: Positions, c: Cursor, c': Cursor, c'': Cursor, first: int, rest: int)
    requires Exchanged(s, order, ps, c, c', first) && Exchanged(s, order, ps, c', c'', rest)
    ensures Exchanged(s, order, ps, c, c'', first + rest)
  {
  }

  /** What the loop amounts to: possible legs, their accounting, and an exchange that is backed. */
  ghost predicate LoopIsBacked(s: Setup, order: Order, m: Machine, c: Cursor, end: Cursor, legs: seq<Leg>) {
    && LegsFollowSearch(m.pool, m.ticks, order.aToB, legs) && LegsNegateNet(m.pool, m.ticks, order.aToB, legs)
    && SwapLegs(m.pool, m.ticks, order.aToB, legs) == Ok((end.pool, end.ticks))
    && Located(s.grid, end.price, end.pool.tickCurrentIndex)
    && Exchanged(s, order, m.positions, c, end,
                 Solvency.LegFees(legs, m.pool.protocolFeeRate) + end.protocolFee - c.protocolFee)
  }

  lemma {:induction false} SwapIsBacked(s: Setup, order: Order, m: Machine, c: Cursor, nexts: seq<int>, end: Cursor, legs: seq<Leg>)
    requires Underway(s, order, m, c) && Answers(s, order, c, nexts) && Loop(s, order, c, nexts) == Ok((end, legs))
    ensures LoopIsBacked(s, order, m, c, end, legs)
    decreases |nexts|
  {
    if c.remaining == 0 || order.limit == c.price {
    } else {
      var (c', leg) := OneLeg(s, order, c, nexts[0]).value;
      LegExchanges(s, order, m, c, nexts[0], c', leg);
      LegKeepsUnderway(s, order, m, c, nexts[0], c', leg);
      var m' := AfterLeg(m, order, c', leg);
      SwapIsBacked(s, order, m', c', nexts[1..], end, legs[1..]);
      JoinLegs(s, order, m, c, nexts[0], c', leg, end, legs);
    }
  }

  lemma JoinLegs(s: Setup, order: Order, m: Machine, c: Cursor, next: int, c': Cursor, leg: Leg, end: Cursor, legs: seq<Leg>)
    requires OneLeg(s, order, c, next) == Ok((c', leg)) && (m.pool, m.ticks) == (c.pool, c.ticks)
    requires FollowsSearch(c.pool, c.ticks, order.aToB, leg) && NegatesNet(c.ticks, order.aToB, leg)
    requires c'.pool.protocolFeeRate == c.pool.protocolFeeRate
    requires Exchanged(s, order, m.positions, c, c',
                       LiquidityFee(leg.feeAmount, c.pool.protocolFeeRate) + c'.protocolFee - c.protocolFee)
    requires legs != [] && legs[0] == leg && LoopIsBacked(s, order, AfterLeg(m, order, c', leg), c', end, legs[1..])
    ensures LoopIsBacked(s, order, m, c, end, legs)
  {
    var rate := c.pool.protocolFeeRate;
    LegSettles(s, order, c, next, c', leg, StepAt(s, order, c, next).value);
    ExchangesAddUp(s, order, m.positions, c, c', end,
                   LiquidityFee(leg.feeAmount, rate) + c'.protocolFee - c.protocolFee,
                   Solvency.LegFees(legs[1..], rate) + end.protocolFee - c'.protocolFee);
  }

  // ---- The invariant -------------------------------------------------------------------------------------------------

  function StreamOf(x: Token): Stream {
    FeeStream(x.A?)
  }

  /** Fees taken from traders and not paid out to anyone yet, times 2^64. */
  ghost function UnpaidX64(v: Venue, x: Token): int {
    BudgetX64(v.m.log, StreamOf(x)) - TWO_64 * PaidOut(v.m.log, StreamOf(x)) + TWO_64 * Protocol(v, x)
  }

  /** The vault holds what all positions are worth and the unpaid fees. */
  ghost predicate Backed(s: Setup, v: Venue, x: Token) {
    Worth(x, s.grid, v.m.positions, v.price) + UnpaidX64(v, x) as real <= TWO_64 as real * Vault(v, x) as real
  }

  ghost predicate Kept(s: Setup, v: Venue) {
    && Reachable(v.m) && Located(s.grid, v.price, v.m.pool.tickCurrentIndex)
    && forall x :: Backed(s, v, x)
  }

  /** What positions and the protocol are owed is part of the unpaid fees. */
  lemma OwedIsUnpaid(v: Venue, x: Token)
    requires Inv(v.m)
    ensures TWO_64 * (TotalOwed(v.m, StreamOf(x)) + Protocol(v, x)) <= UnpaidX64(v, x)
    ensures 0 <= TotalOwed(v.m, StreamOf(x))
  {
    assert StreamInvariant(v.m, StreamOf(x));
    Solvency.ClaimsAreNatural(v.m, StreamOf(x));
    Sums.SumNonNegative(|v.m.positions|, OwedOf(v.m, StreamOf(x)));
  }

  lemma WorthIsInVault(s: Setup, v: Venue, x: Token)
    requires Monotone(s.grid) && Inv(v.m) && Backed(s, v, x)
    ensures 0.0 <= Worth(x, s.grid, v.m.positions, v.price) <= TWO_64 as real * Vault(v, x) as real
  {
    OwedIsUnpaid(v, x);
    WorthIsPositive(x, s.grid, v.m.positions, v.price);
  }

  /** Every unit of liquidity is worth eight of 2^64 units of one token or the other. */
  lemma LiquidityIsWorth(g: Grid, ps: Positions, price: u128)
    requires Monotone(g) && Spread(g) && ValidRanges(ps)
    ensures 8.0 * Progress.TotalLiquidity(ps) as real <= Worth(A, g, ps, price) + Worth(B, g, ps, price)
  {
    var a, b := SharesOf(ps, PerUnit(A, g, price)), SharesOf(ps, PerUnit(B, g, price));
    forall i | 0 <= i < |ps|
      ensures 8.0 * Progress.LiquidityOf(ps)(i) as real <= a(i) + b(i)
    {
      UnitsCost(g, ps[i], ps[i].liquidity, price);
    }
    UnitsAddUp(|ps|, Progress.LiquidityOf(ps), a, b);
  }

  /** Token amounts have 64 bits, so there is never more liquidity than the accounting can take. */
  lemma LiquidityIsBounded(s: Setup, v: Venue)
    requires Monotone(s.grid) && Spread(s.grid) && Inv(v.m) && forall x :: Backed(s, v, x)
    ensures Progress.TotalLiquidity(v.m.positions) < TWO_127
  {
    LiquidityIsWorth(s.grid, v.m.positions, v.price);
    WorthIsInVault(s, v, A);
    WorthIsInVault(s, v, B);
  }

  lemma UnitsCost(g: Grid, p: Position, liquidity: u128, price: u128)
    requires Monotone(g) && Spread(g) && MIN_TICK_INDEX <= p.tickLowerIndex < p.tickUpperIndex <= MAX_TICK_INDEX
    ensures 8.0 * liquidity as real
         <= Times(liquidity, PerUnit(A, g, price)(p)) + Times(liquidity, PerUnit(B, g, price)(p))
  {
    var a, b := PerUnit(A, g, price)(p), PerUnit(B, g, price)(p);
    HeldIsAtLeastEight(g, p, price);
    TimesIsLinear(liquidity, a, b);
    TimesIsMonotone(liquidity, 8.0, a + b);
    TimesIsProduct(liquidity, 8.0);
  }

  // ---- Instructions that move no tokens ---------------------------------------------------------------------------

  ghost predicate OnlyGrowth(log: Log) {
    forall e :: e in log ==> e.Grew?
  }

  lemma {:induction false} GrowthPaysNothing(log: Log, k: Stream)
    requires OnlyGrowth(log)
    ensures PaidOut(log, k) == 0
  {
    if log != [] {
      var front, last := log[..|log| - 1], log[|log| - 1];
      assert last in log && forall e :: e in front ==> e in log;
      GrowthPaysNothing(front, k);
    }
  }

  lemma {:induction false} FeeEventsAreGrowth(pool: Pool, ticks: Ticks, aToB: bool, legs: seq<Leg>)
    ensures OnlyGrowth(FeeEvents(pool, ticks, aToB, legs))
    decreases |legs|
  {
    if legs != [] {
      var moved := MoveTick(AddFeeGrowth(pool, aToB, legs[0].feeAmount), ticks, aToB, legs[0]);
      if moved.Ok? {
        FeeEventsAreGrowth(moved.value.0, moved.value.1, aToB, legs[1..]);
      }
    }
  }

  lemma OthersOnlyGrow(m: Machine, op: Instruction)
    requires !op.DoCollectFees? && !op.DoCollectReward?
    ensures OnlyGrowth(NewEvents(m, op))
  {
    if op.DoSwap? && AdvanceTo(m, op.timestamp).Ok? {
      FeeEventsAreGrowth(AdvanceTo(m, op.timestamp).value.pool, m.ticks, op.aToB, op.legs);
    }
  }

  /** What new entries of the ledger say was paid of a token's fees: only a collection pays any. */
  lemma NewPayments(m: Machine, op: Instruction, x: Token)
    requires Execute(m, op).Ok?
    ensures PaidOut(NewEvents(m, op), StreamOf(x)) == if op.DoCollectFees? then Owed(m.positions[op.id], StreamOf(x)) else 0
  {
    var events, k := NewEvents(m, op), StreamOf(x);
    if op.DoCollectFees? {
      TwoPayments(events[0], events[1], k);
    } else if op.DoCollectReward? {
      OnePayment(events[0], k);
    } else {
      OthersOnlyGrow(m, op);
      GrowthPaysNothing(events, k);
    }
  }

  /** Fees of positions are paid out by collecting them and by nothing else. */
  lemma FeesPaid(m: Machine, op: Instruction, x: Token)
    requires Execute(m, op).Ok?
    ensures PaidOut(After(m, op).log, StreamOf(x))
         == PaidOut(m.log, StreamOf(x)) + if op.DoCollectFees? then Owed(m.positions[op.id], StreamOf(x)) else 0
  {
    LogGrows(m, op);
    Concat(m.log, NewEvents(m, op), StreamOf(x), 0, 0);
    NewPayments(m, op, x);
  }

  lemma OnePayment(e: Event, k: Stream)
    ensures PaidOut([e], k) == if e.Paid? && e.stream == k then e.amount else 0
  {
    assert [e] == [] + [e];
    Append([], e, k, 0, 0);
  }

  lemma TwoPayments(e: Event, f: Event, k: Stream)
    ensures PaidOut([e, f], k) == PaidOut([e], k) + PaidOut([f], k)
    ensures PaidOut([e], k) == if e.Paid? && e.stream == k then e.amount else 0
    ensures PaidOut([f], k) == if f.Paid? && f.stream == k then f.amount else 0
  {
    assert [e, f] == [e] + [f];
    Concat([e], [f], k, 0, 0);
    OnePayment(e, k);
    OnePayment(f, k);
  }

  /** The unpaid fees after an instruction that leaves the protocol's alone. */
  lemma UnpaidAfter(v: Venue, op: Instruction, v': Venue, x: Token)
    requires Execute(v.m, op) == Ok(v'.m) && Protocol(v', x) == Protocol(v, x) && !op.DoSwap?
    ensures UnpaidX64(v', x)
         == UnpaidX64(v, x) - if op.DoCollectFees? then TWO_64 * Owed(v.m.positions[op.id], StreamOf(x)) else 0
  {
    Solvency.InstructionFees(v.m, op, x.A?);
    FeesPaid(v.m, op, x);
  }

  /** Same ranges with the same liquidity, and perhaps more positions without any. */
  ghost predicate SameLiquidity(ps: Positions, ps': Positions) {
    && |ps| <= |ps'| <= |ps| + 1
    && (forall i :: 0 <= i < |ps| ==>
          && ps'[i].liquidity == ps[i].liquidity
          && ps'[i].tickLowerIndex == ps[i].tickLowerIndex && ps'[i].tickUpperIndex == ps[i].tickUpperIndex)
    && (|ps'| > |ps| ==> ps'[|ps|].liquidity == 0)
  }

  lemma SameWorth(x: Token, g: Grid, ps: Positions, ps': Positions, price: int)
    requires SameLiquidity(ps, ps')
    ensures Worth(x, g, ps', price) == Worth(x, g, ps, price)
  {
    RealSumAgrees(|ps|, SharesOf(ps, PerUnit(x, g, price)), SharesOf(ps', PerUnit(x, g, price)));
  }

  lemma KeepsLiquidity(m: Machine, op: Instruction)
    requires MovesNoTokens(op) || op.DoCollectFees?
    requires Execute(m, op).Ok?
    ensures SameLiquidity(m.positions, After(m, op).positions)
    ensures After(m, op).pool.tickCurrentIndex == m.pool.tickCurrentIndex
  {
  }

  lemma BookkeepingKeeps(s: Setup, v: Venue, op: Bookkeeping)
    requires Kept(s, v) && Perform(s, v, Keep(op)).Ok?
    ensures Kept(s, Perform(s, v, Keep(op)).value)
  {
    var v' := Perform(s, v, Keep(op)).value;
    Runs.NextIsReachable(v.m, op);
    KeepsLiquidity(v.m, op);
    forall x
      ensures Backed(s, v', x)
    {
      assert Backed(s, v, x);
      UnpaidAfter(v, op, v', x);
      SameWorth(x, s.grid, v.m.positions, v'.m.positions, v.price);
    }
  }

  // ---- Collecting fees ---------------------------------------------------------------------------------------------

  lemma CollectionPays(v: Venue, id: int, x: Token)
    requires PerformCollection(v, id).Ok?
    ensures 0 <= id < |v.m.positions|
    ensures Vault(PerformCollection(v, id).value, x) == Vault(v, x) - Owed(v.m.positions[id], StreamOf(x))
  {
  }

  lemma CollectionKeeps(s: Setup, v: Venue, id: int)
    requires Kept(s, v) && PerformCollection(v, id).Ok?
    ensures Kept(s, PerformCollection(v, id).value)
  {
    var v', op := PerformCollection(v, id).value, DoCollectFees(id, v.vaultA, v.vaultB);
    Runs.NextIsReachable(v.m, op);
    KeepsLiquidity(v.m, op);
    forall x
      ensures Backed(s, v', x)
    {
      assert Backed(s, v, x);
      CollectionPays(v, id, x);
      UnpaidAfter(v, op, v', x);
      SameWorth(x, s.grid, v.m.positions, v'.m.positions, v.price);
    }
  }

  lemma ProtocolCollectionKeeps(s: Setup, v: Venue)
    requires Kept(s, v) && PerformProtocolCollection(v).Ok?
    ensures Kept(s, PerformProtocolCollection(v).value)
  {
    var v' := PerformProtocolCollection(v).value;
    forall x
      ensures Backed(s, v', x)
    {
      assert Backed(s, v, x);
    }
  }

  // ---- Deposits and withdrawals --------------------------------------------------------------------------------------

  /** The part of a range that holds a token, by the side of the range the current tick is on. */
  function PartHolding(x: Token, g: Grid, p: Position, price: u128, current: int): (int, int) {
    var low, high := g.priceAt(p.tickLowerIndex), g.priceAt(p.tickUpperIndex);
    if current < p.tickLowerIndex then (if x.A? then (low, high) else (low, low))
    else if current < p.tickUpperIndex then (if x.A? then (price, high) else (low, price))
    else if x.A? then (high, high)
    else (low, high)
  }

  lemma HeldIsOfPart(x: Token, g: Grid, p: Position, price: u128, current: int)
    requires Monotone(g) && Located(g, price, current)
    requires MIN_TICK_INDEX <= p.tickLowerIndex < p.tickUpperIndex <= MAX_TICK_INDEX
    ensures var (from, to) := PartHolding(x, g, p, price, current);
      0 < from <= to < TWO_128 && PerUnit(x, g, price)(p) == Span(x, from, to)
  {
    var l, u := p.tickLowerIndex, p.tickUpperIndex;
    EdgesGrow(g, l, u);
    if current < l {
      EdgesGrow(g, current + 1, l);
    } else if current < u {
      EdgesGrow(g, l, current);
      EdgesGrow(g, current + 1, u);
    } else {
      EdgesGrow(g, u, current);
    }
  }

  /** The amount of a token for a part of a range, rounded, against the exact one. */
  lemma RoundedAmount(x: Token, liquidity: u128, from: u128, to: u128, span: real)
    requires 0 < from <= to && span == Span(x, from, to)
    ensures TWO_64 as real * Amount(x, liquidity, from, to, false) as real <= Times(liquidity, span)
    ensures Times(liquidity, span) <= TWO_64 as real * Amount(x, liquidity, from, to, true) as real
  {
    if x.A? {
      AmountOfA(liquidity, from, to, span);
    } else {
      AmountOfB(liquidity, from, to, span);
    }
  }

  function Amount(x: Token, liquidity: u128, from: u128, to: u128, roundUp: bool): int
    requires from > 0 && to > 0
  {
    if x.A? then Prices.TokenAFromLiquidity(liquidity, from, to, roundUp)
    else Prices.TokenBFromLiquidity(liquidity, from, to, roundUp)
  }

  /** The tokens of a liquidity change are those of the parts, and a part without width holds none. */
  lemma QuotedForParts(g: Grid, p: Position, price: u128, current: int, liquidity: u128, roundUp: bool)
    requires Monotone(g) && Located(g, price, current)
    requires MIN_TICK_INDEX <= p.tickLowerIndex < p.tickUpperIndex <= MAX_TICK_INDEX
    requires TokensFit(current, PricesOf(g, p, price), p, liquidity, roundUp)
    ensures
      var (a, b) := QuotedTokens(current, PricesOf(g, p, price), p, liquidity, roundUp);
      var (fromA, toA) := PartHolding(A, g, p, price, current);
      var (fromB, toB) := PartHolding(B, g, p, price, current);
      && 0 < fromA <= toA < TWO_128 && 0 < fromB <= toB < TWO_128
      && a == Amount(A, liquidity, fromA, toA, roundUp) && b == Amount(B, liquidity, fromB, toB, roundUp)
  {
    HeldIsOfPart(A, g, p, price, current);
    HeldIsOfPart(B, g, p, price, current);
    if current < p.tickLowerIndex {
      NoWidth(liquidity, g.priceAt(p.tickLowerIndex), roundUp);
    } else if current >= p.tickUpperIndex {
      NoWidth(liquidity, g.priceAt(p.tickUpperIndex), roundUp);
    }
  }

  lemma NoWidth(liquidity: u128, price: u128, roundUp: bool)
    requires price > 0
    ensures Prices.TokenAFromLiquidity(liquidity, price, price, roundUp) == 0
    ensures Prices.TokenBFromLiquidity(liquidity, price, price, roundUp) == 0
  {
    Prices.TokenABounds(liquidity, price, price, 0);
    Prices.TokenABounds(liquidity, price, price, -1);
    Prices.TokenABounds(liquidity, price, price, 1);
    Prices.TokenBBounds(liquidity, price, price, 0);
  }

  /** Tokens taken in are worth at least the liquidity, tokens paid out at most. */
  lemma QuotedAgainstWorth(g: Grid, p: Position, price: u128, current: int, liquidity: u128, roundUp: bool, x: Token)
    requires Monotone(g) && Located(g, price, current)
    requires MIN_TICK_INDEX <= p.tickLowerIndex < p.tickUpperIndex <= MAX_TICK_INDEX
    requires TokensFit(current, PricesOf(g, p, price), p, liquidity, roundUp)
    ensures
      var (a, b) := QuotedTokens(current, PricesOf(g, p, price), p, liquidity, roundUp);
      var amount, worth := if x.A? then a else b, Times(liquidity, PerUnit(x, g, price)(p));
      if roundUp then worth <= TWO_64 as real * amount as real else TWO_64 as real * amount as real <= worth
  {
    HeldIsOfPart(x, g, p, price, current);
    QuotedForParts(g, p, price, current, liquidity, roundUp);
    var (from, to) := PartHolding(x, g, p, price, current);
    RoundedAmount(x, liquidity, from, to, PerUnit(x, g, price)(p));
  }

  lemma ChangeOfPosition(m: Machine, id: int, delta: i128, timestamp: u64)
    requires ModifyLiquidity(m, id, delta, timestamp).Ok?
    ensures
      var m' := ModifyLiquidity(m, id, delta, timestamp).value;
      && 0 <= id < |m.positions| == |m'.positions|
      && var p, p' := m.positions[id], m'.positions[id];
      && m'.positions == m.positions[id := p'] && p'.liquidity == p.liquidity + delta
      && p'.tickLowerIndex == p.tickLowerIndex && p'.tickUpperIndex == p.tickUpperIndex
      && m'.pool.tickCurrentIndex == m.pool.tickCurrentIndex
  {
  }

  lemma TotalOfChange(ps: Positions, id: int, p: Position, held: Position -> real, less: u128, more: u128)
    requires 0 <= id < |ps| && held(p) == held(ps[id])
    requires p.liquidity + less == ps[id].liquidity + more
    ensures Total(ps[id := p], held) == Total(ps, held) + Times(more, held(p)) - Times(less, held(p))
  {
    TotalAfterUpdate(ps, id, p, held);
    TimesAdds(ps[id].liquidity, more, held(p));
    TimesAdds(p.liquidity, less, held(p));
  }

  /** Liquidity of one position changes, and what all positions are worth with it. */
  lemma WorthOfChange(x: Token, g: Grid, m: Machine, id: int, delta: i128, timestamp: u64, price: u128, less: u128, more: u128,
                      m': Machine)
    requires ModifyLiquidity(m, id, delta, timestamp) == Ok(m') && 0 <= id < |m.positions|
    requires more == less + delta && (less == 0 || more == 0)
    ensures
      var held := PerUnit(x, g, price)(m.positions[id]);
      Worth(x, g, m'.positions, price) == Worth(x, g, m.positions, price) + Times(more, held) - Times(less, held)
  {
    ChangeOfPosition(m, id, delta, timestamp);
    TotalOfChange(m.positions, id, m'.positions[id], PerUnit(x, g, price), less, more);
  }

  /** A change that is paid for keeps a token backed. */
  lemma PaidChangeIsBacked(s: Setup, v: Venue, v': Venue, id: int, delta: i128, timestamp: u64, less: u128, more: u128, x: Token)
    requires Backed(s, v, x) && UnpaidX64(v', x) == UnpaidX64(v, x) && v'.price == v.price
    requires ModifyLiquidity(v.m, id, delta, timestamp) == Ok(v'.m) && 0 <= id < |v.m.positions|
    requires more == less + delta && (less == 0 || more == 0)
    requires
      var held := PerUnit(x, s.grid, v.price)(v.m.positions[id]);
      Times(more, held) - Times(less, held) <= TWO_64 as real * (Vault(v', x) - Vault(v, x)) as real
    ensures Backed(s, v', x)
  {
    WorthOfChange(x, s.grid, v.m, id, delta, timestamp, v.price, less, more, v'.m);
  }

  lemma TokensTaken(v: Venue, changed: Result<Machine>, tokens: Result<(u64, u64)>, v': Venue)
    requires TakeTokens(v, changed, tokens) == Ok(v')
    ensures changed == Ok(v'.m) && v' == v.(m := v'.m, vaultA := v'.vaultA, vaultB := v'.vaultB)
    ensures tokens.Ok? && tokens.value.0 == v'.vaultA - v.vaultA && tokens.value.1 == v'.vaultB - v.vaultB
  {
  }

  lemma TokensGiven(v: Venue, changed: Result<Machine>, tokens: Result<(u64, u64)>, v': Venue)
    requires GiveTokens(v, changed, tokens) == Ok(v')
    ensures changed == Ok(v'.m) && v' == v.(m := v'.m, vaultA := v'.vaultA, vaultB := v'.vaultB)
    ensures tokens.Ok? && tokens.value.0 == v.vaultA - v'.vaultA && tokens.value.1 == v.vaultB - v'.vaultB
  {
  }

  /** What a successful deposit does to the machine and the vaults. */
  lemma DepositParts(g: Grid, v: Venue, action: Action, v': Venue)
    requires action.Deposit? && PerformDeposit(g, v, action) == Ok(v')
    ensures 0 <= action.id < |v.m.positions| && action.amount < TWO_127
    ensures v' == v.(m := v'.m, vaultA := v'.vaultA, vaultB := v'.vaultB)
    ensures IncreaseLiquidity(v.m, action.id, action.amount, DepositTerms(g, v, action), action.timestamp) == Ok(v'.m)
    ensures
      var tokens := AcceptDeposit(v.m.pool.tickCurrentIndex, v.m.positions[action.id], DepositTerms(g, v, action), action.amount);
      tokens.Ok? && tokens.value.0 == v'.vaultA - v.vaultA && tokens.value.1 == v'.vaultB - v.vaultB
  {
    var terms := DepositTerms(g, v, action);
    TokensTaken(v, IncreaseLiquidity(v.m, action.id, action.amount, terms, action.timestamp),
                AcceptDeposit(v.m.pool.tickCurrentIndex, v.m.positions[action.id], terms, action.amount), v');
  }

  lemma DepositCovers(s: Setup, v: Venue, action: Action, v': Venue, x: Token)
    requires action.Deposit? && PerformDeposit(s.grid, v, action) == Ok(v')
    requires Monotone(s.grid) && Inv(v.m) && Located(s.grid, v.price, v.m.pool.tickCurrentIndex)
    ensures 0 <= action.id < |v.m.positions|
    ensures Times(action.amount, PerUnit(x, s.grid, v.price)(v.m.positions[action.id]))
         <= TWO_64 as real * (Vault(v', x) - Vault(v, x)) as real
  {
    DepositParts(s.grid, v, action, v');
    var p, current := v.m.positions[action.id], v.m.pool.tickCurrentIndex;
    DeltasAreQuoted(current, PricesOf(s.grid, p, v.price), p, action.amount, action.amount, true);
    QuotedAgainstWorth(s.grid, p, v.price, current, action.amount, true, x);
  }

  lemma DepositKeeps(s: Setup, v: Venue, action: Action, v': Venue)
    requires Kept(s, v) && Monotone(s.grid) && action.Deposit? && PerformDeposit(s.grid, v, action) == Ok(v')
    ensures Kept(s, v')
  {
    Runs.ReachableHasInv(v.m);
    DepositParts(s.grid, v, action, v');
    DepositIsChange(v.m, action.id, action.amount, action.amount, DepositTerms(s.grid, v, action), action.timestamp);
    var op := DoIncrease(action.id, action.amount, DepositTerms(s.grid, v, action), action.timestamp);
    Runs.NextIsReachable(v.m, op);
    forall x
      ensures Backed(s, v', x)
    {
      assert Backed(s, v, x);
      UnpaidAfter(v, op, v', x);
      DepositCovers(s, v, action, v', x);
      PaidChangeIsBacked(s, v, v', action.id, action.amount, action.timestamp, 0, action.amount, x);
    }
    ChangeOfPosition(v.m, action.id, action.amount, action.timestamp);
  }

  /** What a successful withdrawal does to the machine and the vaults. */
  lemma WithdrawalParts(g: Grid, v: Venue, action: Action, delta: i128, v': Venue)
    requires action.Withdraw? && PerformWithdrawal(g, v, action) == Ok(v') && delta + action.amount == 0
    ensures 0 <= action.id < |v.m.positions| && action.amount < TWO_127
    ensures v' == v.(m := v'.m, vaultA := v'.vaultA, vaultB := v'.vaultB)
    ensures DecreaseLiquidity(v.m, action.id, action.amount, WithdrawalTerms(g, v, action), action.timestamp) == Ok(v'.m)
    ensures
      var tokens := AcceptWithdrawal(v.m.pool.tickCurrentIndex, v.m.positions[action.id], WithdrawalTerms(g, v, action), delta);
      tokens.Ok? && tokens.value.0 == v.vaultA - v'.vaultA && tokens.value.1 == v.vaultB - v'.vaultB
  {
    var terms := WithdrawalTerms(g, v, action);
    TokensGiven(v, DecreaseLiquidity(v.m, action.id, action.amount, terms, action.timestamp),
                AcceptWithdrawal(v.m.pool.tickCurrentIndex, v.m.positions[action.id], terms, delta), v');
  }

  lemma WithdrawalIsCovered(s: Setup, v: Venue, action: Action, delta: i128, v': Venue, x: Token)
    requires action.Withdraw? && PerformWithdrawal(s.grid, v, action) == Ok(v') && delta + action.amount == 0
    requires Monotone(s.grid) && Inv(v.m) && Located(s.grid, v.price, v.m.pool.tickCurrentIndex)
    ensures 0 <= action.id < |v.m.positions|
    ensures TWO_64 as real * (Vault(v, x) - Vault(v', x)) as real
         <= Times(action.amount, PerUnit(x, s.grid, v.price)(v.m.positions[action.id]))
  {
    WithdrawalParts(s.grid, v, action, delta, v');
    var p, current := v.m.positions[action.id], v.m.pool.tickCurrentIndex;
    DeltasAreQuoted(current, PricesOf(s.grid, p, v.price), p, delta, action.amount, false);
    QuotedAgainstWorth(s.grid, p, v.price, current, action.amount, false, x);
  }

  lemma WithdrawalChanges(g: Grid, v: Venue, action: Action, delta: i128, v': Venue)
    requires action.Withdraw? && PerformWithdrawal(g, v, action) == Ok(v') && delta + action.amount == 0
    ensures 0 <= action.id < |v.m.positions| && v' == v.(m := v'.m, vaultA := v'.vaultA, vaultB := v'.vaultB)
    ensures ModifyLiquidity(v.m, action.id, delta, action.timestamp) == Ok(v'.m)
    ensures Execute(v.m, DoDecrease(action.id, action.amount, WithdrawalTerms(g, v, action), action.timestamp)) == Ok(v'.m)
  {
    WithdrawalParts(g, v, action, delta, v');
    WithdrawalIsChange(v.m, action.id, action.amount, delta, WithdrawalTerms(g, v, action), action.timestamp);
  }

  lemma WithdrawalKeeps(s: Setup, v: Venue, action: Action, delta: i128, v': Venue)
    requires Kept(s, v) && Monotone(s.grid) && action.Withdraw? && PerformWithdrawal(s.grid, v, action) == Ok(v')
    requires delta + action.amount == 0
    ensures Kept(s, v')
  {
    Runs.ReachableHasInv(v.m);
    WithdrawalChanges(s.grid, v, action, delta, v');
    var op := DoDecrease(action.id, action.amount, WithdrawalTerms(s.grid, v, action), action.timestamp);
    Runs.NextIsReachable(v.m, op);
    forall x
      ensures Backed(s, v', x)
    {
      assert Backed(s, v, x);
      UnpaidAfter(v, op, v', x);
      WithdrawalIsCovered(s, v, action, delta, v', x);
      PaidChangeIsBacked(s, v, v', action.id, delta, action.timestamp, action.amount, 0, x);
    }
    ChangeOfPosition(v.m, action.id, delta, action.timestamp);
  }

  // ---- Swaps -------------------------------------------------------------------------------------------------------

  ghost predicate GridOk(s: Setup) {
    Monotone(s.grid) && Spread(s.grid)
  }

  lemma LoopStartsInOrder(s: Setup, v: Venue, order: Order, timestamp: u64)
    requires GridOk(s) && Kept(s, v) && CheckOrder(v.price, order).Ok? && AdvanceTo(v.m, timestamp).Ok?
    ensures
      var now := AdvanceTo(v.m, timestamp).value;
      Underway(s, order, now, LoopStart(now, v.price, order))
  {
    Runs.ReachableHasInv(v.m);
    Steps.AdvanceKeepsInv(v.m, timestamp);
    LiquidityIsBounded(s, v);
  }

  /** The legs of the loop are a possible swap of the machine, which cannot fail. */
  lemma LoopIsSwap(s: Setup, v: Venue, order: Order, timestamp: u64, end: Cursor, legs: seq<Leg>)
    requires AdvanceTo(v.m, timestamp).Ok?
    requires
      var now := AdvanceTo(v.m, timestamp).value;
      LoopIsBacked(s, order, now, LoopStart(now, v.price, order), end, legs)
    ensures Possible(v.m, DoSwap(order.aToB, legs, timestamp))
    ensures
      var r := Swap(v.m, order.aToB, legs, timestamp);
      r.Ok? && (r.value.pool, r.value.ticks, r.value.positions) == (end.pool, end.ticks, v.m.positions)
  {
  }

  /** What a swap that ended its loop at some point does to the machine, the price and the vaults. */
  ghost predicate Traded(v: Venue, order: Order, timestamp: u64, end: Cursor, legs: seq<Leg>, v': Venue) {
    var x, y := InToken(order.aToB), OutToken(order.aToB);
    && Swap(v.m, order.aToB, legs, timestamp) == Ok(v'.m) && v'.price == end.price
    && Vault(v', x) == Vault(v, x) + TakenIn(order, end) && Protocol(v', x) <= Protocol(v, x) + end.protocolFee
    && Vault(v', y) == Vault(v, y) - GivenOut(order, end) && Protocol(v', y) == Protocol(v, y)
  }

  lemma SwapParts(s: Setup, v: Venue, order: Order, nexts: seq<int>, funds: u64, timestamp: u64, v': Venue)
    returns (end: Cursor, legs: seq<Leg>)
    requires PerformSwap(s, v, order, nexts, funds, timestamp) == Ok(v')
    ensures CheckOrder(v.price, order).Ok? && AdvanceTo(v.m, timestamp).Ok?
    ensures Loop(s, order, LoopStart(AdvanceTo(v.m, timestamp).value, v.price, order), nexts) == Ok((end, legs))
    ensures Traded(v, order, timestamp, end, legs, v')
  {
    var now := AdvanceTo(v.m, timestamp).value;
    var looped := Loop(s, order, LoopStart(now, v.price, order), nexts).value;
    end, legs := looped.0, looped.1;
    var (vaultIn, vaultOut) := SwapTokens(v, order, end, funds).value;
  }

  lemma UnpaidAfterSwap(v: Venue, aToB: bool, legs: seq<Leg>, timestamp: u64, v': Venue, x: Token)
    requires Swap(v.m, aToB, legs, timestamp) == Ok(v'.m)
    ensures UnpaidX64(v', x) - TWO_64 * Protocol(v', x)
         == UnpaidX64(v, x) - TWO_64 * Protocol(v, x)
          + if x == InToken(aToB) then TWO_64 * Solvency.LegFees(legs, v.m.pool.protocolFeeRate) else 0
  {
    Solvency.InstructionFees(v.m, DoSwap(aToB, legs, timestamp), x.A?);
    FeesPaid(v.m, DoSwap(aToB, legs, timestamp), x);
  }

  lemma SwapBacksToken(s: Setup, v: Venue, order: Order, timestamp: u64, start: Cursor, end: Cursor, legs: seq<Leg>, v': Venue,
                       x: Token)
    requires Backed(s, v, x) && Traded(v, order, timestamp, end, legs, v') && v'.m.positions == v.m.positions
    requires start.price == v.price && TakenIn(order, start) == 0 && GivenOut(order, start) == 0
    requires Exchanged(s, order, v.m.positions, start, end,
                       Solvency.LegFees(legs, v.m.pool.protocolFeeRate) + end.protocolFee)
    ensures Backed(s, v', x)
  {
    UnpaidAfterSwap(v, order.aToB, legs, timestamp, v', x);
  }

  lemma TradeBacks(s: Setup, v: Venue, order: Order, timestamp: u64, start: Cursor, end: Cursor, legs: seq<Leg>, v': Venue)
    requires (forall x :: Backed(s, v, x)) && Traded(v, order, timestamp, end, legs, v') && v'.m.positions == v.m.positions
    requires start.price == v.price && TakenIn(order, start) == 0 && GivenOut(order, start) == 0
    requires Exchanged(s, order, v.m.positions, start, end,
                       Solvency.LegFees(legs, v.m.pool.protocolFeeRate) + end.protocolFee)
    ensures forall x :: Backed(s, v', x)
  {
    forall x
      ensures Backed(s, v', x)
    {
      SwapBacksToken(s, v, order, timestamp, start, end, legs, v', x);
    }
  }

  /** The loop at a venue: its legs are a possible swap of the machine, which cannot fail, and its exchange is backed. */
  lemma VenueLoop(s: Setup, v: Venue, order: Order, nexts: seq<int>, timestamp: u64, start: Cursor, end: Cursor, legs: seq<Leg>)
    requires GridOk(s) && Kept(s, v) && CheckOrder(v.price, order).Ok? && AdvanceTo(v.m, timestamp).Ok?
    requires start == LoopStart(AdvanceTo(v.m, timestamp).value, v.price, order)
    requires Answers(s, order, start, nexts) && Loop(s, order, start, nexts) == Ok((end, legs))
    ensures Possible(v.m, DoSwap(order.aToB, legs, timestamp))
    ensures
      var r := Swap(v.m, order.aToB, legs, timestamp);
      r.Ok? && (r.value.pool, r.value.ticks, r.value.positions) == (end.pool, end.ticks, v.m.positions)
    ensures Located(s.grid, end.price, end.pool.tickCurrentIndex)
    ensures Exchanged(s, order, v.m.positions, start, end,
                      Solvency.LegFees(legs, v.m.pool.protocolFeeRate) + end.protocolFee)
  {
    var now := AdvanceTo(v.m, timestamp).value;
    LoopStartsInOrder(s, v, order, timestamp);
    SwapIsBacked(s, order, now, start, nexts, end, legs);
    LoopIsSwap(s, v, order, timestamp, end, legs);
  }

  lemma TradeKeeps(s: Setup, v: Venue, order: Order, timestamp: u64, start: Cursor, end: Cursor, legs: seq<Leg>, v': Venue)
    requires Kept(s, v) && Traded(v, order, timestamp, end, legs, v')
    requires Possible(v.m, DoSwap(order.aToB, legs, timestamp))
    requires v'.m.positions == v.m.positions && v'.m.pool == end.pool
    requires Located(s.grid, end.price, end.pool.tickCurrentIndex)
    requires start.price == v.price && TakenIn(order, start) == 0 && GivenOut(order, start) == 0
    requires Exchanged(s, order, v.m.positions, start, end,
                       Solvency.LegFees(legs, v.m.pool.protocolFeeRate) + end.protocolFee)
    ensures Kept(s, v')
  {
    Runs.NextIsReachable(v.m, DoSwap(order.aToB, legs, timestamp));
    TradeBacks(s, v, order, timestamp, start, end, legs, v');
  }

  lemma SwapKeeps(s: Setup, v: Venue, order: Order, nexts: seq<int>, funds: u64, timestamp: u64, v': Venue)
    requires GridOk(s) && Kept(s, v) && PerformSwap(s, v, order, nexts, funds, timestamp) == Ok(v')
    requires Searched(s, v, Trade(order, nexts, funds, timestamp))
    ensures Kept(s, v')
  {
    var end, legs := SwapParts(s, v, order, nexts, funds, timestamp, v');
    var start := LoopStart(AdvanceTo(v.m, timestamp).value, v.price, order);
    VenueLoop(s, v, order, nexts, timestamp, start, end, legs);
    TradeKeeps(s, v, order, timestamp, start, end, legs, v');
  }

  // ---- Runs ----------------------------------------------------------------------------------------------------------

  lemma ActionKeeps(s: Setup, v: Venue, action: Action)
    requires GridOk(s) && Kept(s, v) && Searched(s, v, action)
    ensures Kept(s, AfterAction(s, v, action))
  {
    if Perform(s, v, action).Ok? {
      match action
      case Keep(op) => BookkeepingKeeps(s, v, op);
      case Deposit(id, amount, maxA, maxB, fundsA, fundsB, timestamp) =>
        DepositKeeps(s, v, action, AfterAction(s, v, action));
      case Withdraw(id, amount, minA, minB, timestamp) =>
        WithdrawalKeeps(s, v, action, -(amount as int), AfterAction(s, v, action));
      case CollectFeesOf(id) => CollectionKeeps(s, v, id);
      case CollectProtocolFees => ProtocolCollectionKeeps(s, v);
      case Trade(order, nexts, funds, timestamp) =>
        SwapKeeps(s, v, order, nexts, funds, timestamp, AfterAction(s, v, action));
    }
  }

  lemma FreshVenueIsKept(s: Setup, tickSpacing: u16, protocolFeeRate: ProtocolFeeRate, price: u128)
    requires Monotone(s.grid) && MIN_SQRT_PRICE <= price <= MAX_SQRT_PRICE
    ensures Kept(s, FreshVenue(s, tickSpacing, protocolFeeRate, price))
  {
    var m := Genesis(tickSpacing, protocolFeeRate, s.grid.tickAt(price));
    assert PossibleRun(m, []) && Run(m, []) == m;
  }

  lemma {:induction false} RunKeeps(s: Setup, v: Venue, actions: seq<Action>)
    requires GridOk(s) && Kept(s, v) && SearchedRun(s, v, actions)
    ensures Kept(s, RunActions(s, v, actions))
    decreases |actions|
  {
    if actions != [] {
      ActionKeeps(s, v, actions[0]);
      RunKeeps(s, AfterAction(s, v, actions[0]), actions[1..]);
    }
  }
}
