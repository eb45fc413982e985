/**
  The pool with its price and the tokens in its vaults: what each instruction moves between the vaults and
  the accounts of its users.
*/
module Vaults {
  import opened Words
  import opened FixedPoint
  import opened State
  import opened LiquidityManager
  import opened Instructions
  import opened Machine
  import opened TokenWorth
  import opened SwapLoop

  datatype Venue = Venue(m: Machine, price: u128, vaultA: u64, vaultB: u64, protocolA: u64, protocolB: u64)

  function Vault(v: Venue, x: Token): u64 {
    if x.A? then v.vaultA else v.vaultB
  }

  function Protocol(v: Venue, x: Token): u64 {
    if x.A? then v.protocolA else v.protocolB
  }

  /** Instructions that move nothing in or out of the two vaults; rewards have vaults of their own. */
  predicate MovesNoTokens(op: Instruction) {
    op.DoOpenPosition? || op.DoInitializeReward? || op.DoUpdateFeesAndRewards? || op.DoCollectReward? || op.DoSetEmissions?
  }

  type Bookkeeping = op: Instruction | MovesNoTokens(op) witness DoOpenPosition(0, 0)

  datatype Action =
    | Keep(op: Bookkeeping)
    | Deposit(id: int, amount: u128, maxA: u64, maxB: u64, fundsA: u64, fundsB: u64, timestamp: u64)
    | Withdraw(id: int, amount: u128, minA: u64, minB: u64, timestamp: u64)
    | CollectFeesOf(id: int)
    | CollectProtocolFees
    | Trade(order: Order, nexts: seq<int>, funds: u64, timestamp: u64)

  function PricesOf(g: Grid, p: Position, price: u128): RangePrices {
    RangePrices(g.priceAt(p.tickLowerIndex), price, g.priceAt(p.tickUpperIndex))
  }

  /** A token account holds at most 64 bits. */
  function PayInto(vault: u64, amount: u64): Result<u64> {
    if vault + amount < TWO_64 then Ok(vault + amount) else Err(InsufficientFunds)
  }

  function PayFrom(vault: u64, amount: int): Result<u64> {
    if 0 <= amount <= vault then Ok(vault - amount) else Err(InsufficientFunds)
  }

  function DepositTerms(g: Grid, v: Venue, action: Action): Terms
    requires action.Deposit? && 0 <= action.id < |v.m.positions|
  {
    Terms(PricesOf(g, v.m.positions[action.id], v.price), action.maxA, action.maxB, action.fundsA, action.fundsB)
  }

  function WithdrawalTerms(g: Grid, v: Venue, action: Action): Terms
    requires action.Withdraw? && 0 <= action.id < |v.m.positions|
  {
    Terms(PricesOf(g, v.m.positions[action.id], v.price), action.minA, action.minB, v.vaultA, v.vaultB)
  }

  /** Tokens come in for a change of the machine, or go out. */
  function TakeTokens(v: Venue, changed: Result<Machine>, tokens: Result<(u64, u64)>): Result<Venue> {
    var m :- changed;
    var (a, b) :- tokens;
    var vaultA :- PayInto(v.vaultA, a);
    var vaultB :- PayInto(v.vaultB, b);
    Ok(v.(m := m, vaultA := vaultA, vaultB := vaultB))
  }

  function GiveTokens(v: Venue, changed: Result<Machine>, tokens: Result<(u64, u64)>): Result<Venue> {
    var m :- changed;
    var (a, b) :- tokens;
    var vaultA :- PayFrom(v.vaultA, a);
    var vaultB :- PayFrom(v.vaultB, b);
    Ok(v.(m := m, vaultA := vaultA, vaultB := vaultB))
  }

  function PerformDeposit(g: Grid, v: Venue, action: Action): Result<Venue>
    requires action.Deposit?
  {
    if action.id < 0 || action.id >= |v.m.positions| then Err(InvalidAccount)
    else
      var terms := DepositTerms(g, v, action);
      var delta :- ConvertToLiquidityDelta(action.amount, true);
      TakeTokens(v, IncreaseLiquidity(v.m, action.id, action.amount, terms, action.timestamp),
                 AcceptDeposit(v.m.pool.tickCurrentIndex, v.m.positions[action.id], terms, delta))
  }

  function PerformWithdrawal(g: Grid, v: Venue, action: Action): Result<Venue>
    requires action.Withdraw?
  {
    if action.id < 0 || action.id >= |v.m.positions| then Err(InvalidAccount)
    else
      var terms := WithdrawalTerms(g, v, action);
      var delta :- ConvertToLiquidityDelta(action.amount, false);
      GiveTokens(v, DecreaseLiquidity(v.m, action.id, action.amount, terms, action.timestamp),
                 AcceptWithdrawal(v.m.pool.tickCurrentIndex, v.m.positions[action.id], terms, delta))
  }

  function PerformCollection(v: Venue, id: int): Result<Venue> {
    var m :- CollectFees(v.m, id, v.vaultA, v.vaultB);
    var vaultA :- PayFrom(v.vaultA, v.m.positions[id].feeOwedA);
    var vaultB :- PayFrom(v.vaultB, v.m.positions[id].feeOwedB);
    Ok(v.(m := m, vaultA := vaultA, vaultB := vaultB))
  }

  function PerformProtocolCollection(v: Venue): Result<Venue> {
    var vaultA :- PayFrom(v.vaultA, v.protocolA);
    var vaultB :- PayFrom(v.vaultB, v.protocolB);
    Ok(v.(vaultA := vaultA, vaultB := vaultB, protocolA := 0, protocolB := 0))
  }

  // ---- Swaps -------------------------------------------------------------------------------------------------

  /** The trader's threshold for the token whose amount was not specified. */
  function CheckThreshold(order: Order, end: Cursor): Result<()> {
    if order.isInput && order.threshold > end.calculated then Err(AmountOutBelowMinimum)
    else if !order.isInput && order.threshold < end.calculated then Err(AmountInAboveMaximum)
    else Ok(())
  }

  /** The loop starts at the pool's price, with rewards brought up to date. */
  function LoopStart(m: Machine, price: u128, order: Order): Cursor {
    Cursor(m.pool, m.ticks, price, order.amount, 0, 0)
  }

  function SwapTokens(v: Venue, order: Order, end: Cursor, funds: u64): Result<(u64, u64)> {
    var paid, out := TakenIn(order, end), GivenOut(order, end);
    if paid < 0 || paid > funds then Err(InsufficientFunds)
    else
      var vaultIn :- PayInto(Vault(v, InToken(order.aToB)), paid);
      var vaultOut :- PayFrom(Vault(v, OutToken(order.aToB)), out);
      Ok((vaultIn, vaultOut))
  }

  function AfterSwap(v: Venue, m: Machine, order: Order, end: Cursor, vaultIn: u64, vaultOut: u64): Venue {
    if order.aToB then
      Venue(m, end.price, vaultIn, vaultOut, WrapAdd64(v.protocolA, end.protocolFee), v.protocolB)
    else
      Venue(m, end.price, vaultOut, vaultIn, v.protocolA, WrapAdd64(v.protocolB, end.protocolFee))
  }

  function PerformSwap(s: Setup, v: Venue, order: Order, nexts: seq<int>, funds: u64, timestamp: u64): Result<Venue> {
    var checked :- CheckOrder(v.price, order);
    var now :- AdvanceTo(v.m, timestamp);
    var (end, legs) :- Loop(s, order, LoopStart(now, v.price, order), nexts);
    var accepted :- CheckThreshold(order, end);
    var m :- Swap(v.m, order.aToB, legs, timestamp);
    var (vaultIn, vaultOut) :- SwapTokens(v, order, end, funds);
    Ok(AfterSwap(v, m, order, end, vaultIn, vaultOut))
  }

  // ---- Runs ----------------------------------------------------------------------------------------------------

  function Perform(s: Setup, v: Venue, action: Action): Result<Venue> {
    match action
    case Keep(op) =>
      var m :- Execute(v.m, op);
      Ok(v.(m := m))
    case Deposit(id, amount, maxA, maxB, fundsA, fundsB, timestamp) => PerformDeposit(s.grid, v, action)
    case Withdraw(id, amount, minA, minB, timestamp) => PerformWithdrawal(s.grid, v, action)
    case CollectFeesOf(id) => PerformCollection(v, id)
    case CollectProtocolFees => PerformProtocolCollection(v)
    case Trade(order, nexts, funds, timestamp) => PerformSwap(s, v, order, nexts, funds, timestamp)
  }

  function AfterAction(s: Setup, v: Venue, action: Action): Venue {
    var r := Perform(s, v, action);
    if r.Ok? then r.value else v
  }

  /** The search answers with the first stop in its direction, within the bounds of ticks. */
  ghost predicate Answers(s: Setup, order: Order, c: Cursor, nexts: seq<int>)
    decreases |nexts|
  {
    nexts != [] && c.remaining > 0 && order.limit != c.price ==>
      && FirstStop(c.ticks, c.pool.tickCurrentIndex, order.aToB, nexts[0])
      && MIN_TICK_INDEX <= nexts[0] <= MAX_TICK_INDEX
      && var next := OneLeg(s, order, c, nexts[0]);
      (next.Ok? ==> Answers(s, order, next.value.0, nexts[1..]))
  }

  ghost predicate Searched(s: Setup, v: Venue, action: Action) {
    action.Trade? && AdvanceTo(v.m, action.timestamp).Ok? ==>
      Answers(s, action.order, LoopStart(AdvanceTo(v.m, action.timestamp).value, v.price, action.order), action.nexts)
  }

  ghost predicate SearchedRun(s: Setup, v: Venue, actions: seq<Action>)
    decreases |actions|
  {
    actions != [] ==> Searched(s, v, actions[0]) && SearchedRun(s, AfterAction(s, v, actions[0]), actions[1..])
  }

  function RunActions(s: Setup, v: Venue, actions: seq<Action>): Venue
    decreases |actions|
  {
    if actions == [] then v else RunActions(s, AfterAction(s, v, actions[0]), actions[1..])
  }

  /** A fresh pool at a price, its vaults empty. */
  function FreshVenue(s: Setup, tickSpacing: u16, protocolFeeRate: ProtocolFeeRate, price: u128): Venue {
    Venue(Genesis(tickSpacing, protocolFeeRate, s.grid.tickAt(price)), price, 0, 0, 0, 0)
  }
}
