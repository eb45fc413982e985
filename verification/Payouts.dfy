/** What the backing of the vaults means: nobody is ever kept from what is theirs. */
module Payouts {
  import opened Words
  import opened State
  import opened TokenMath
  import opened LiquidityManager
  import opened SwapManager
  import opened Instructions
  import opened Machine
  import opened Books
  import opened Invariant
  import opened SwapMath
  import opened TokenWorth
  import opened SwapLoop
  import opened Vaults
  import opened Backing
  import Sums
  import Solvency
  import Rounding
  import PoolManager
  import Runs
  import Steps
  import Progress

  ghost predicate ReachableVenue(s: Setup, v: Venue) {
    exists tickSpacing, protocolFeeRate, price, actions ::
      && MIN_SQRT_PRICE <= price <= MAX_SQRT_PRICE
      && SearchedRun(s, FreshVenue(s, tickSpacing, protocolFeeRate, price), actions)
      && v == RunActions(s, FreshVenue(s, tickSpacing, protocolFeeRate, price), actions)
  }

  lemma ReachableIsKept(s: Setup, v: Venue)
    requires GridOk(s) && ReachableVenue(s, v)
    ensures Kept(s, v)
  {
    var tickSpacing, protocolFeeRate, price, actions :|
      && MIN_SQRT_PRICE <= price <= MAX_SQRT_PRICE
      && SearchedRun(s, FreshVenue(s, tickSpacing, protocolFeeRate, price), actions)
      && v == RunActions(s, FreshVenue(s, tickSpacing, protocolFeeRate, price), actions);
    FreshVenueIsKept(s, tickSpacing, protocolFeeRate, price);
    RunKeeps(s, FreshVenue(s, tickSpacing, protocolFeeRate, price), actions);
  }

  /** Over every run, each vault holds what all positions are worth, all fees they are owed and the protocol's. */
  lemma VaultsCoverEverything(s: Setup, v: Venue, x: Token)
    requires GridOk(s) && ReachableVenue(s, v)
    ensures 0.0 <= Worth(x, s.grid, v.m.positions, v.price) && 0 <= TotalOwed(v.m, StreamOf(x))
    ensures Worth(x, s.grid, v.m.positions, v.price) + TWO_64 as real * (TotalOwed(v.m, StreamOf(x)) + Protocol(v, x)) as real
         <= TWO_64 as real * Vault(v, x) as real
  {
    ReachableIsKept(s, v);
    Runs.ReachableHasInv(v.m);
    assert Backed(s, v, x);
    OwedIsUnpaid(v, x);
    WorthIsInVault(s, v, x);
  }

  /**
    With prices and tokens, every run is a run of the accounting, and there are never 2^127 units of
    liquidity: no net amount has to be assumed away, and no swap gets stuck in the accounts.
  */
  lemma MachineIsReachable(s: Setup, v: Venue)
    requires GridOk(s) && ReachableVenue(s, v)
    ensures Reachable(v.m) && Progress.TotalLiquidity(v.m.positions) < TWO_127
  {
    ReachableIsKept(s, v);
    Runs.ReachableHasInv(v.m);
    LiquidityIsBounded(s, v);
  }

  // ---- Withdrawals -----------------------------------------------------------------------------------------

  /** Liquidity whose worth is in a vault is small enough for the products of the program. */
  lemma ProductFits(liquidity: u128, from: u128, to: u128, span: real, vault: u64)
    requires 0 < from <= to <= MAX_SQRT_PRICE && span == Span(A, from, to)
    requires Times(liquidity, span) <= TWO_64 as real * vault as real
    ensures liquidity * (to - from) < TWO_192
  {
    ReciprocalFalls(from, to);
    SmallProduct(from, to);
    DividedBound(liquidity, span, from * to, to - from, TWO_64);
    Rounding.Cancel(from * to, liquidity * (to - from), TWO_64);
  }

  lemma SmallProduct(from: int, to: int)
    requires 0 < from <= to <= MAX_SQRT_PRICE
    ensures 0 < from * to < TWO_192
  {
    assert from * to <= from * MAX_SQRT_PRICE <= MAX_SQRT_PRICE * MAX_SQRT_PRICE;
  }

  /** A share of a position's liquidity is worth no more than a vault holds. */
  lemma ShareIsInVault(s: Setup, v: Venue, id: int, amount: u128, x: Token)
    requires GridOk(s) && Inv(v.m) && Backed(s, v, x) && 0 <= id < |v.m.positions| && amount <= v.m.positions[id].liquidity
    ensures Times(amount, PerUnit(x, s.grid, v.price)(v.m.positions[id])) <= TWO_64 as real * Vault(v, x) as real
  {
    var p := v.m.positions[id];
    WorthIsInVault(s, v, x);
    WorthIsPositive(x, s.grid, v.m.positions, v.price);
    HeldIsPositive(x, s.grid, p, v.price);
    TimesIsPositive(amount, p.liquidity, PerUnit(x, s.grid, v.price)(p));
  }

  lemma PartIsInVault(s: Setup, v: Venue, id: int, amount: u128, x: Token)
    requires GridOk(s) && Inv(v.m) && Backed(s, v, x) && Located(s.grid, v.price, v.m.pool.tickCurrentIndex)
    requires 0 <= id < |v.m.positions| && amount <= v.m.positions[id].liquidity
    ensures
      var (from, to) := PartHolding(x, s.grid, v.m.positions[id], v.price, v.m.pool.tickCurrentIndex);
      && 0 < from <= to < TWO_128 && Amount(x, amount, from, to, false) <= Vault(v, x)
      && (x.A? ==> amount * (to - from) < TWO_192)
  {
    var p, current := v.m.positions[id], v.m.pool.tickCurrentIndex;
    HeldIsOfPart(x, s.grid, p, v.price, current);
    var (from, to) := PartHolding(x, s.grid, p, v.price, current);
    var span := PerUnit(x, s.grid, v.price)(p);
    RoundedAmount(x, amount, from, to, span);
    ShareIsInVault(s, v, id, amount, x);
    if x.A? {
      PartIsBounded(s.grid, p, v.price, current);
      ProductFits(amount, from, to, span, Vault(v, x));
    }
  }

  lemma PartIsBounded(g: Grid, p: Position, price: u128, current: int)
    requires Monotone(g) && Located(g, price, current)
    requires MIN_TICK_INDEX <= p.tickLowerIndex < p.tickUpperIndex <= MAX_TICK_INDEX
    ensures PartHolding(A, g, p, price, current).1 <= MAX_SQRT_PRICE
  {
    EdgesGrow(g, p.tickLowerIndex, p.tickUpperIndex);
  }

  /** Amounts that fit for the parts of a range make tokens that fit. */
  lemma FitsByParts(g: Grid, p: Position, price: u128, current: int, liquidity: u128)
    requires Monotone(g) && Located(g, price, current)
    requires MIN_TICK_INDEX <= p.tickLowerIndex < p.tickUpperIndex <= MAX_TICK_INDEX
    requires
      var (fromA, toA) := PartHolding(A, g, p, price, current);
      && 0 < fromA <= toA < TWO_128 && liquidity * (toA - fromA) < TWO_192 && Amount(A, liquidity, fromA, toA, false) < TWO_64
    requires
      var (fromB, toB) := PartHolding(B, g, p, price, current);
      0 < fromB <= toB < TWO_128 && Amount(B, liquidity, fromB, toB, false) < TWO_64
    ensures TokensFit(current, PricesOf(g, p, price), p, liquidity, false)
  {
  }

  /** What a withdrawal pays out can be computed and is in the vaults. */
  lemma PayoutIsInVault(s: Setup, v: Venue, id: int, amount: u128)
    requires GridOk(s) && Inv(v.m) && (forall x :: Backed(s, v, x)) && Located(s.grid, v.price, v.m.pool.tickCurrentIndex)
    requires 0 <= id < |v.m.positions| && amount <= v.m.positions[id].liquidity
    ensures
      var p, current := v.m.positions[id], v.m.pool.tickCurrentIndex;
      && TokensFit(current, PricesOf(s.grid, p, v.price), p, amount, false)
      && var (a, b) := QuotedTokens(current, PricesOf(s.grid, p, v.price), p, amount, false);
      a <= v.vaultA && b <= v.vaultB
  {
    var p, current := v.m.positions[id], v.m.pool.tickCurrentIndex;
    PartIsInVault(s, v, id, amount, A);
    PartIsInVault(s, v, id, amount, B);
    FitsByParts(s.grid, p, v.price, current, amount);
    QuotedForParts(s.grid, p, v.price, current, amount, false);
  }

  /** The accounts let any part of a position's liquidity out. */
  lemma AnyPartCanGo(s: Setup, v: Venue, id: int, amount: u128)
    requires GridOk(s) && Kept(s, v) && 0 <= id < |v.m.positions| && 0 < amount <= v.m.positions[id].liquidity
    ensures amount < TWO_127 && Progress.RemovalFits(v.m, v.m.positions[id], amount)
  {
    Runs.ReachableHasInv(v.m);
    LiquidityIsBounded(s, v);
    Sums.SumAtLeast(|v.m.positions|, id, Progress.LiquidityOf(v.m.positions));
    var delta: i128, now := -(amount as int), v.m.pool.rewardLastUpdatedTimestamp;
    Progress.LiquidityCanBeRemoved(v.m, id, delta, now);
    Progress.RemovalSucceedsIff(v.m, id, amount, delta, now);
  }

  lemma GivenWithinFunds(v: Venue, changed: Result<Machine>, tokens: Result<(u64, u64)>)
    requires tokens.Ok? ==> tokens.value.0 <= v.vaultA && tokens.value.1 <= v.vaultB
    ensures GiveTokens(v, changed, tokens).Ok? <==> changed.Ok? && tokens.Ok?
  {
  }

  lemma AcceptedIsAvailable(current: int, p: Position, terms: Terms, delta: i128)
    ensures
      var tokens := AcceptWithdrawal(current, p, terms, delta);
      tokens.Ok? ==> tokens.value.0 <= terms.availableA && tokens.value.1 <= terms.availableB
  {
  }

  /** At the venue, a withdrawal is one of the machine, paid from the vaults. */
  lemma WithdrawalOfMachine(g: Grid, v: Venue, action: Action, delta: i128)
    requires action.Withdraw? && 0 <= action.id < |v.m.positions|
    requires 0 < action.amount < TWO_127 && delta + action.amount == 0
    ensures PerformWithdrawal(g, v, action).Ok? <==>
      DecreaseLiquidity(v.m, action.id, action.amount, WithdrawalTerms(g, v, action), action.timestamp).Ok?
  {
    var terms, current := WithdrawalTerms(g, v, action), v.m.pool.tickCurrentIndex;
    var tokens := AcceptWithdrawal(current, v.m.positions[action.id], terms, delta);
    AcceptedIsAvailable(current, v.m.positions[action.id], terms, delta);
    GivenWithinFunds(v, DecreaseLiquidity(v.m, action.id, action.amount, terms, action.timestamp), tokens);
    WithdrawalIsChange(v.m, action.id, action.amount, delta, terms, action.timestamp);
  }

  /**
    In every run: a withdrawal of any part of a position's liquidity succeeds unless the clock ran back or
    the owner's own minima stop it. Accounts, arithmetic and vaults never do.
  */
  lemma WithdrawalAlwaysPays(s: Setup, v: Venue, id: int, amount: u128, minA: u64, minB: u64, timestamp: u64)
    requires GridOk(s) && ReachableVenue(s, v) && 0 <= id < |v.m.positions|
    requires 0 < amount <= v.m.positions[id].liquidity
    ensures
      var p, current := v.m.positions[id], v.m.pool.tickCurrentIndex;
      && TokensFit(current, PricesOf(s.grid, p, v.price), p, amount, false)
      && var (a, b) := QuotedTokens(current, PricesOf(s.grid, p, v.price), p, amount, false);
      && (Perform(s, v, Withdraw(id, amount, minA, minB, timestamp)).Ok? <==>
            v.m.pool.rewardLastUpdatedTimestamp <= timestamp && minA <= a && minB <= b)
  {
    ReachableIsKept(s, v);
    Runs.ReachableHasInv(v.m);
    PayoutIsInVault(s, v, id, amount);
    AnyPartCanGo(s, v, id, amount);
    var action, delta := Withdraw(id, amount, minA, minB, timestamp), -(amount as int);
    WithdrawalOfMachine(s.grid, v, action, delta);
    Progress.WithdrawalSucceedsIff(v.m, id, amount, WithdrawalTerms(s.grid, v, action), timestamp);
  }

  // ---- Deposits ----------------------------------------------------------------------------------------------

  /** What both vaults would hold bounds all liquidity together with the deposit. */
  lemma DepositIsBounded(s: Setup, v: Venue, p: Position, amount: u128, a: int, b: int)
    requires GridOk(s) && Inv(v.m) && forall x :: Backed(s, v, x)
    requires MIN_TICK_INDEX <= p.tickLowerIndex < p.tickUpperIndex <= MAX_TICK_INDEX
    requires Times(amount, PerUnit(A, s.grid, v.price)(p)) <= TWO_64 as real * a as real
    requires Times(amount, PerUnit(B, s.grid, v.price)(p)) <= TWO_64 as real * b as real
    requires v.vaultA + a < TWO_64 && v.vaultB + b < TWO_64
    ensures Progress.TotalLiquidity(v.m.positions) + amount < TWO_127
  {
    UnitsCost(s.grid, p, amount, v.price);
    LiquidityIsWorth(s.grid, v.m.positions, v.price);
    WorthIsInVault(s, v, A);
    WorthIsInVault(s, v, B);
  }

  /** Below 2^127 units in all, ticks and pool can take a deposit. */
  lemma SmallDepositFits(m: Machine, id: int, amount: u128)
    requires Inv(m) && 0 <= id < |m.positions| && Progress.TotalLiquidity(m.positions) + amount < TWO_127
    ensures Progress.DepositFits(m, m.positions[id], amount)
  {
    var p := m.positions[id];
    assert TickBooks(m.positions, m.ticks, p.tickLowerIndex) && TickBooks(m.positions, m.ticks, p.tickUpperIndex);
    Progress.TicksWithinTotal(m.positions, p.tickLowerIndex);
    Progress.TicksWithinTotal(m.positions, p.tickUpperIndex);
    Progress.TicksWithinTotal(m.positions, m.pool.tickCurrentIndex);
  }

  lemma AffordableDepositFits(s: Setup, v: Venue, action: Action)
    requires GridOk(s) && Kept(s, v) && action.Deposit? && 0 <= action.id < |v.m.positions|
    requires Progress.CostFits(v.m, v.m.positions[action.id], action.amount, DepositTerms(s.grid, v, action))
    requires DepositFitsVaults(s, v, action)
    ensures Progress.DepositFits(v.m, v.m.positions[action.id], action.amount)
  {
    var p, current := v.m.positions[action.id], v.m.pool.tickCurrentIndex;
    var (a, b) := QuotedTokens(current, PricesOf(s.grid, p, v.price), p, action.amount, true);
    Runs.ReachableHasInv(v.m);
    QuotedAgainstWorth(s.grid, p, v.price, current, action.amount, true, A);
    QuotedAgainstWorth(s.grid, p, v.price, current, action.amount, true, B);
    DepositIsBounded(s, v, p, action.amount, a, b);
    SmallDepositFits(v.m, action.id, action.amount);
  }

  /** The price of the deposit fits the token accounts of the vaults. */
  predicate DepositFitsVaults(s: Setup, v: Venue, action: Action)
    requires action.Deposit? && 0 <= action.id < |v.m.positions|
  {
    var p, current := v.m.positions[action.id], v.m.pool.tickCurrentIndex;
    && TokensFit(current, PricesOf(s.grid, p, v.price), p, action.amount, true)
    && var (a, b) := QuotedTokens(current, PricesOf(s.grid, p, v.price), p, action.amount, true);
    v.vaultA + a < TWO_64 && v.vaultB + b < TWO_64
  }

  /**
    In every run: a deposit succeeds exactly when its tokens fit the owner's maxima and means and the vaults,
    and the clock has not run back. Ticks and pool never refuse liquidity that can be paid for.
  */
  lemma DepositSucceedsIff(s: Setup, v: Venue, action: Action)
    requires GridOk(s) && ReachableVenue(s, v) && action.Deposit? && 0 <= action.id < |v.m.positions|
    ensures Perform(s, v, action).Ok? <==>
      && 0 < action.amount < TWO_127 && v.m.pool.rewardLastUpdatedTimestamp <= action.timestamp
      && Progress.CostFits(v.m, v.m.positions[action.id], action.amount, DepositTerms(s.grid, v, action))
      && DepositFitsVaults(s, v, action)
  {
    ReachableIsKept(s, v);
    var p, terms := v.m.positions[action.id], DepositTerms(s.grid, v, action);
    if 0 < action.amount < TWO_127 {
      Progress.DepositSucceedsIff(v.m, action.id, action.amount, terms, action.timestamp);
      Progress.CostAccepted(v.m, p, action.amount, action.amount, terms);
      TakenWithinVaults(s, v, action);
      if Progress.CostFits(v.m, p, action.amount, terms) && DepositFitsVaults(s, v, action) {
        AffordableDepositFits(s, v, action);
      }
    }
  }

  lemma TakenWithinVaults(s: Setup, v: Venue, action: Action)
    requires action.Deposit? && 0 <= action.id < |v.m.positions| && 0 < action.amount < TWO_127
    ensures Perform(s, v, action).Ok? <==>
      && IncreaseLiquidity(v.m, action.id, action.amount, DepositTerms(s.grid, v, action), action.timestamp).Ok?
      && DepositFitsVaults(s, v, action)
  {
    var p, current, terms := v.m.positions[action.id], v.m.pool.tickCurrentIndex, DepositTerms(s.grid, v, action);
    DeltasAreQuoted(current, terms.prices, p, action.amount, action.amount, true);
    DepositIsChange(v.m, action.id, action.amount, action.amount, terms, action.timestamp);
  }

  // ---- Fees --------------------------------------------------------------------------------------------------

  lemma FeesAreInVault(s: Setup, v: Venue, id: int, x: Token)
    requires GridOk(s) && Kept(s, v) && 0 <= id < |v.m.positions|
    ensures Owed(v.m.positions[id], StreamOf(x)) + Protocol(v, x) <= Vault(v, x)
  {
    Runs.ReachableHasInv(v.m);
    assert Backed(s, v, x);
    OwedIsUnpaid(v, x);
    WorthIsPositive(x, s.grid, v.m.positions, v.price);
    Sums.SumAtLeast(|v.m.positions|, id, OwedOf(v.m, StreamOf(x)));
  }

  /** In every run, the fees of every position can be collected in full. */
  lemma FeesAlwaysPay(s: Setup, v: Venue, id: int)
    requires GridOk(s) && ReachableVenue(s, v)
    ensures Perform(s, v, CollectFeesOf(id)).Ok? <==> 0 <= id < |v.m.positions|
  {
    ReachableIsKept(s, v);
    if 0 <= id < |v.m.positions| {
      FeesAreInVault(s, v, id, A);
      FeesAreInVault(s, v, id, B);
    }
  }

  /** And so can the protocol's. */
  lemma ProtocolFeesAlwaysPay(s: Setup, v: Venue)
    requires GridOk(s) && ReachableVenue(s, v)
    ensures Perform(s, v, CollectProtocolFees).Ok?
  {
    VaultsCoverEverything(s, v, A);
    VaultsCoverEverything(s, v, B);
  }

  // ---- Swaps ----------------------------------------------------------------------------------------------------

  /** A step fails only where its own arithmetic does; moving the tick never stops it. */
  lemma LegSucceedsIff(s: Setup, order: Order, m: Machine, c: Cursor, next: int)
    requires Underway(s, order, m, c) && NextStop(c, order.aToB, next)
    ensures OneLeg(s, order, c, next).Ok? <==>
      StepAt(s, order, c, next).Ok? && Settle(order, c.remaining, c.calculated, StepAt(s, order, c, next).value).Ok?
  {
    if StepAt(s, order, c, next).Ok? {
      var step := StepAt(s, order, c, next).value;
      var leg := LegOf(s, c, next, step);
      StepAdvances(s, order, m, c, next, step);
      LegFollowsSearch(s, order, m, c, next, step);
      Steps.FeeKeepsInv(m, order.aToB, leg.feeAmount);
      Progress.MoveSucceeds(Steps.AfterFee(m, order.aToB, leg.feeAmount), order.aToB, leg);
    }
  }

  /** The vault of the token going out always has it. */
  lemma OutIsInVault(s: Setup, v: Venue, order: Order, start: Cursor, end: Cursor, fees: int)
    requires GridOk(s) && Kept(s, v) && start.price == v.price && GivenOut(order, start) == 0
    requires Exchanged(s, order, v.m.positions, start, end, fees)
    ensures GivenOut(order, end) <= Vault(v, OutToken(order.aToB))
  {
    var y := OutToken(order.aToB);
    Runs.ReachableHasInv(v.m);
    assert Backed(s, v, y);
    WorthIsInVault(s, v, y);
    WorthIsPositive(y, s.grid, v.m.positions, end.price);
  }

  lemma TokensMove(v: Venue, order: Order, end: Cursor, funds: u64)
    requires 0 <= TakenIn(order, end) && 0 <= GivenOut(order, end) <= Vault(v, OutToken(order.aToB))
    ensures SwapTokens(v, order, end, funds).Ok? <==>
      TakenIn(order, end) <= funds && Vault(v, InToken(order.aToB)) + TakenIn(order, end) < TWO_64
  {
  }

  /** Once the loop is through, the accounts and the vault of the outgoing token let the swap pass. */
  lemma LoopedSwapPasses(s: Setup, v: Venue, order: Order, nexts: seq<int>, timestamp: u64, start: Cursor, end: Cursor,
                         legs: seq<Leg>)
    requires GridOk(s) && Kept(s, v) && CheckOrder(v.price, order).Ok? && AdvanceTo(v.m, timestamp).Ok?
    requires start == LoopStart(AdvanceTo(v.m, timestamp).value, v.price, order)
    requires Answers(s, order, start, nexts) && Loop(s, order, start, nexts) == Ok((end, legs))
    ensures Swap(v.m, order.aToB, legs, timestamp).Ok?
    ensures 0 <= TakenIn(order, end) && 0 <= GivenOut(order, end) <= Vault(v, OutToken(order.aToB))
  {
    VenueLoop(s, v, order, nexts, timestamp, start, end, legs);
    OutIsInVault(s, v, order, start, end, Solvency.LegFees(legs, v.m.pool.protocolFeeRate) + end.protocolFee);
    LoopOnlySpends(s, order, start, nexts);
  }

  /**
    In every run: a swap succeeds exactly when the order is valid, the clock has not run back, the steps can be
    computed, the search finds its way, and the trader accepts and can pay the price. The accounts and the
    vault the proceeds come from never stop it.
  */
  lemma SwapSucceedsIff(s: Setup, v: Venue, order: Order, nexts: seq<int>, funds: u64, timestamp: u64)
    requires GridOk(s) && ReachableVenue(s, v) && Searched(s, v, Trade(order, nexts, funds, timestamp))
    ensures Perform(s, v, Trade(order, nexts, funds, timestamp)).Ok? <==>
      && CheckOrder(v.price, order).Ok? && v.m.pool.rewardLastUpdatedTimestamp <= timestamp
      && var looped := Loop(s, order, LoopStart(AdvanceTo(v.m, timestamp).value, v.price, order), nexts);
      && looped.Ok? && CheckThreshold(order, looped.value.0).Ok?
      && TakenIn(order, looped.value.0) <= funds && Vault(v, InToken(order.aToB)) + TakenIn(order, looped.value.0) < TWO_64
  {
    ReachableIsKept(s, v);
    if CheckOrder(v.price, order).Ok? && AdvanceTo(v.m, timestamp).Ok? {
      var start := LoopStart(AdvanceTo(v.m, timestamp).value, v.price, order);
      var looped := Loop(s, order, start, nexts);
      if looped.Ok? {
        LoopedSwapPasses(s, v, order, nexts, timestamp, start, looped.value.0, looped.value.1);
        TokensMove(v, order, looped.value.0, funds);
      }
    }
  }

  /** A successful swap leaves pool, ticks and price where the loop over the accounts ends, and moves its tokens. */
  lemma SwapEndsWithLoop(s: Setup, v: Venue, order: Order, nexts: seq<int>, funds: u64, timestamp: u64, v': Venue)
    requires GridOk(s) && ReachableVenue(s, v) && Searched(s, v, Trade(order, nexts, funds, timestamp))
    requires Perform(s, v, Trade(order, nexts, funds, timestamp)) == Ok(v')
    ensures
      var end := SwapEnd(s, v.m.pool, v.price, v.m.ticks, order, nexts, timestamp);
      && end.Ok? && (v'.m.pool, v'.m.ticks, v'.price) == (end.value.pool, end.value.ticks, end.value.price)
      && Vault(v', InToken(order.aToB)) == Vault(v, InToken(order.aToB)) + TakenIn(order, end.value)
      && Vault(v', OutToken(order.aToB)) == Vault(v, OutToken(order.aToB)) - GivenOut(order, end.value)
  {
    ReachableIsKept(s, v);
    var end, legs := SwapParts(s, v, order, nexts, funds, timestamp, v');
    VenueLoop(s, v, order, nexts, timestamp, LoopStart(AdvanceTo(v.m, timestamp).value, v.price, order), end, legs);
    StartsAsTimed(v, order, timestamp);
  }

  lemma StartsAsTimed(v: Venue, order: Order, timestamp: u64)
    requires AdvanceTo(v.m, timestamp).Ok?
    ensures
      var rewards := PoolManager.NextPoolRewardInfos(v.m.pool, timestamp);
      && rewards.Ok?
      && LoopStart(AdvanceTo(v.m, timestamp).value, v.price, order)
           == Cursor(Timed(v.m.pool, rewards.value, timestamp), v.m.ticks, v.price, order.amount, 0, 0)
  {
  }

  // ---- Everyone can leave ---------------------------------------------------------------------------------------------

  lemma {:induction false} RunOneMore(s: Setup, v: Venue, actions: seq<Action>, action: Action)
    requires SearchedRun(s, v, actions) && Searched(s, RunActions(s, v, actions), action)
    ensures SearchedRun(s, v, actions + [action])
    ensures RunActions(s, v, actions + [action]) == AfterAction(s, RunActions(s, v, actions), action)
    decreases |actions|
  {
    if actions == [] {
      assert actions + [action] == [action] && [action][1..] == [];
    } else {
      RunOneMore(s, AfterAction(s, v, actions[0]), actions[1..], action);
      assert (actions + [action])[1..] == actions[1..] + [action];
    }
  }

  lemma NextIsReachable(s: Setup, v: Venue, action: Action)
    requires ReachableVenue(s, v) && Searched(s, v, action)
    ensures ReachableVenue(s, AfterAction(s, v, action))
  {
    var tickSpacing, protocolFeeRate, price, actions :|
      && MIN_SQRT_PRICE <= price <= MAX_SQRT_PRICE
      && SearchedRun(s, FreshVenue(s, tickSpacing, protocolFeeRate, price), actions)
      && v == RunActions(s, FreshVenue(s, tickSpacing, protocolFeeRate, price), actions);
    RunOneMore(s, FreshVenue(s, tickSpacing, protocolFeeRate, price), actions, action);
  }

  /** A position without liquidity or fees owed. */
  predicate Gone(p: Position) {
    p.liquidity == 0 && p.feeOwedA == 0 && p.feeOwedB == 0
  }

  /** Only one position differs. */
  ghost predicate OthersStay(ps: Positions, ps': Positions, id: int) {
    |ps'| == |ps| && forall i :: 0 <= i < |ps| && i != id ==> ps'[i] == ps[i]
  }

  lemma WithdrawalEmpties(g: Grid, v: Venue, action: Action, delta: i128, v': Venue)
    requires action.Withdraw? && PerformWithdrawal(g, v, action) == Ok(v') && delta + action.amount == 0
    requires 0 <= action.id < |v.m.positions| && action.amount == v.m.positions[action.id].liquidity > 0
    ensures OthersStay(v.m.positions, v'.m.positions, action.id) && v'.m.positions[action.id].liquidity == 0
    ensures v'.m.pool.rewardLastUpdatedTimestamp == action.timestamp
  {
    WithdrawalChanges(g, v, action, delta, v');
    ChangeOfPosition(v.m, action.id, delta, action.timestamp);
    ChangeSetsTime(v.m, action.id, delta, action.timestamp);
  }

  lemma ChangeSetsTime(m: Machine, id: int, delta: i128, timestamp: u64)
    requires ModifyLiquidity(m, id, delta, timestamp).Ok?
    ensures ModifyLiquidity(m, id, delta, timestamp).value.pool.rewardLastUpdatedTimestamp == timestamp
  {
  }

  /** Taking out all liquidity. */
  lemma TakeOut(s: Setup, v: Venue, id: int, timestamp: u64) returns (v': Venue)
    requires GridOk(s) && ReachableVenue(s, v) && 0 <= id < |v.m.positions|
    requires v.m.pool.rewardLastUpdatedTimestamp <= timestamp && v.m.positions[id].liquidity > 0
    ensures Perform(s, v, Withdraw(id, v.m.positions[id].liquidity, 0, 0, timestamp)) == Ok(v')
    ensures ReachableVenue(s, v') && OthersStay(v.m.positions, v'.m.positions, id) && v'.m.positions[id].liquidity == 0
    ensures v'.m.pool.rewardLastUpdatedTimestamp == timestamp
  {
    var amount := v.m.positions[id].liquidity;
    var action := Withdraw(id, amount, 0, 0, timestamp);
    PaysWithoutMinima(s, v, id, amount, timestamp);
    NextIsReachable(s, v, action);
    v' := Perform(s, v, action).value;
    WithdrawalEmpties(s.grid, v, action, -(amount as int), v');
  }

  lemma PaysWithoutMinima(s: Setup, v: Venue, id: int, amount: u128, timestamp: u64)
    requires GridOk(s) && ReachableVenue(s, v) && 0 <= id < |v.m.positions|
    requires 0 < amount <= v.m.positions[id].liquidity && v.m.pool.rewardLastUpdatedTimestamp <= timestamp
    ensures amount < TWO_127 && Perform(s, v, Withdraw(id, amount, 0, 0, timestamp)).Ok?
  {
    ReachableIsKept(s, v);
    AnyPartCanGo(s, v, id, amount);
    WithdrawalAlwaysPays(s, v, id, amount, 0, 0, timestamp);
    QuotedIsNatural(v.m.pool.tickCurrentIndex, PricesOf(s.grid, v.m.positions[id], v.price), v.m.positions[id], amount);
  }

  lemma QuotedIsNatural(current: int, prices: RangePrices, p: Position, amount: u128)
    requires TokensFit(current, prices, p, amount, false) && 0 < amount < TWO_127
    ensures
      var (a, b) := QuotedTokens(current, prices, p, amount, false);
      0 <= a && 0 <= b
  {
    DeltasAreQuoted(current, prices, p, -(amount as int), amount, false);
  }

  lemma CollectAll(s: Setup, v: Venue, id: int) returns (v': Venue)
    requires GridOk(s) && ReachableVenue(s, v) && 0 <= id < |v.m.positions| && v.m.positions[id].liquidity == 0
    ensures Perform(s, v, CollectFeesOf(id)) == Ok(v')
    ensures ReachableVenue(s, v') && OthersStay(v.m.positions, v'.m.positions, id) && Gone(v'.m.positions[id])
    ensures v'.m.pool.rewardLastUpdatedTimestamp == v.m.pool.rewardLastUpdatedTimestamp
  {
    FeesAlwaysPay(s, v, id);
    NextIsReachable(s, v, CollectFeesOf(id));
    v' := Perform(s, v, CollectFeesOf(id)).value;
  }

  ghost predicate AllSucceed(s: Setup, v: Venue, actions: seq<Action>, end: Venue)
    decreases |actions|
  {
    if actions == [] then v == end
    else Perform(s, v, actions[0]).Ok? && AllSucceed(s, Perform(s, v, actions[0]).value, actions[1..], end)
  }

  lemma OneMoreSucceeds(s: Setup, v: Venue, action: Action, v': Venue, actions: seq<Action>, end: Venue)
    requires Perform(s, v, action) == Ok(v') && AllSucceed(s, v', actions, end)
    ensures AllSucceed(s, v, [action] + actions, end)
  {
    assert ([action] + actions)[1..] == actions;
  }

  lemma {:induction false} FirstCanLeave(s: Setup, v: Venue, n: nat, timestamp: u64) returns (actions: seq<Action>, end: Venue)
    requires GridOk(s) && ReachableVenue(s, v) && n <= |v.m.positions|
    requires v.m.pool.rewardLastUpdatedTimestamp <= timestamp
    ensures AllSucceed(s, v, actions, end) && |end.m.positions| == |v.m.positions|
    ensures forall i :: 0 <= i < n ==> Gone(end.m.positions[i])
    ensures forall i :: n <= i < |v.m.positions| ==> end.m.positions[i] == v.m.positions[i]
    decreases n
  {
    if n == 0 {
      actions, end := [], v;
    } else {
      var id, emptied, first := n - 1, v, Withdraw(n - 1, v.m.positions[n - 1].liquidity, 0, 0, timestamp);
      if v.m.positions[id].liquidity > 0 {
        emptied := TakeOut(s, v, id, timestamp);
      }
      var collected := CollectAll(s, emptied, id);
      actions, end := FirstCanLeave(s, collected, n - 1, timestamp);
      OneMoreSucceeds(s, emptied, CollectFeesOf(id), collected, actions, end);
      actions := [CollectFeesOf(id)] + actions;
      if v.m.positions[id].liquidity > 0 {
        OneMoreSucceeds(s, v, first, emptied, actions, end);
        actions := [first] + actions;
      }
    }
  }

  /**
    From every state of every run: one after the other, all owners can take out all their liquidity and
    collect all their fees, and every payment goes through.
  */
  lemma EveryoneCanLeave(s: Setup, v: Venue, timestamp: u64) returns (actions: seq<Action>, end: Venue)
    requires GridOk(s) && ReachableVenue(s, v) && v.m.pool.rewardLastUpdatedTimestamp <= timestamp
    ensures AllSucceed(s, v, actions, end) && |end.m.positions| == |v.m.positions|
    ensures forall i :: 0 <= i < |end.m.positions| ==> Gone(end.m.positions[i])
  {
    actions, end := FirstCanLeave(s, v, |v.m.positions|, timestamp);
  }
}
