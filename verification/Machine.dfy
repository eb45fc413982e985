/**
  The program as a state machine: each instruction handler maps the accounts to the accounts after
  it, or fails and leaves them alone. The log, the settlement marks and the list of credits are the
  naive ledger; no account depends on them.
*/
module Machine {
  import opened Words
  import opened FixedPoint
  import opened State
  import TickManager
  import PoolManager
  import PositionManager
  import opened SwapManager
  import opened Instructions
  import opened Ledger
  import Rounding

  datatype Machine = Machine(
    pool: Pool,
    ticks: Ticks,
    positions: seq<Position>,
    log: Log,            // every growth increment and payment so far
    since: map<int, nat>,  // per position, the length of the log when it was last settled
    credits: Credits)      // every amount a settlement ever credited

  /** A freshly initialized pool. */
  function Genesis(tickSpacing: u16, protocolFeeRate: ProtocolFeeRate, current: int): Machine {
    var idle := RewardInfo(false, 0, 0);
    Machine(Pool(tickSpacing, protocolFeeRate, 0, current, 0, 0, 0, [idle, idle, idle]), map[], [], [], map[], [])
  }

  // ---- Bringing rewards up to date -----------------------------------------------------------------

  /** The ledger entry of one reward for the time since the last update, if it accrues at all. */
  function RewardEvent(pool: Pool, timestamp: u64, i: RewardIndex): Log {
    var last := pool.rewardLastUpdatedTimestamp;
    var info := pool.rewardInfos[i];
    if timestamp <= last || pool.liquidity == 0 || !info.initialized then []
    else
      Rounding.Scale(0, timestamp - last, info.emissionsPerSecondX64);
      [Grew(Reward(i), pool.tickCurrentIndex,
            PoolManager.RewardGrowthDelta(timestamp - last, info.emissionsPerSecondX64, pool.liquidity),
            (timestamp - last) * info.emissionsPerSecondX64)]
  }

  function RewardEvents(pool: Pool, timestamp: u64): Log {
    RewardEvent(pool, timestamp, 0) + RewardEvent(pool, timestamp, 1) + RewardEvent(pool, timestamp, 2)
  }

  function AdvanceTo(m: Machine, timestamp: u64): Result<Machine> {
    var rewards :- PoolManager.NextPoolRewardInfos(m.pool, timestamp);
    Ok(m.(pool := m.pool.(rewardInfos := rewards, rewardLastUpdatedTimestamp := timestamp),
          log := m.log + RewardEvents(m.pool, timestamp)))
  }

  // ---- Instruction handlers --------------------------------------------------------------------------

  function OpenPositionStep(m: Machine, lower: int, upper: int): Result<Machine> {
    var position :- OpenPosition(m.pool.tickSpacing, lower, upper);
    Ok(m.(positions := m.positions + [position], since := m.since[|m.positions| := |m.log|]))
  }

  function InitializeRewardStep(m: Machine, index: int): Result<Machine> {
    var rewards :- InitializeReward(m.pool.rewardInfos, index);
    Ok(m.(pool := m.pool.(rewardInfos := rewards)))
  }

  /** Settles a position and changes its liquidity by a signed amount, zero meaning settle only. */
  function ModifyLiquidity(m: Machine, id: int, delta: i128, timestamp: u64): Result<Machine> {
    if id < 0 || id >= |m.positions| then Err(InvalidAccount)
    else
      var (pool, position, ticks) :- CommitModifyLiquidity(m.pool, m.positions[id], m.ticks, delta, timestamp);
      var log := m.log + RewardEvents(m.pool, timestamp);
      Ok(Machine(pool, ticks, m.positions[id := position], log, m.since[id := |log|],
                 m.credits + SettlementCredits(pool, m.ticks, m.positions[id])))
  }

  /** What settling a position credits of a stream. */
  function CreditDue(pool: Pool, ticks: Ticks, p: Position, k: Stream): u64 {
    var l, u := p.tickLowerIndex, p.tickUpperIndex;
    PositionManager.Credit(p.liquidity, TickManager.InsideOf(pool, TickAt(ticks, l), l, TickAt(ticks, u), u, k),
                           Checkpoint(p, k))
  }

  function SettlementCredits(pool: Pool, ticks: Ticks, p: Position): Credits {
    [Credited(FeeA, CreditDue(pool, ticks, p, FeeA)), Credited(FeeB, CreditDue(pool, ticks, p, FeeB)),
     Credited(Reward(0), CreditDue(pool, ticks, p, Reward(0))),
     Credited(Reward(1), CreditDue(pool, ticks, p, Reward(1))),
     Credited(Reward(2), CreditDue(pool, ticks, p, Reward(2)))]
  }

  function IncreaseLiquidity(m: Machine, id: int, amount: u128, terms: Terms, timestamp: u64): Result<Machine> {
    if amount == 0 then Err(LiquidityZero)
    else
      var delta :- ConvertToLiquidityDelta(amount, true);
      var changed :- ModifyLiquidity(m, id, delta, timestamp);
      var paid :- AcceptDeposit(m.pool.tickCurrentIndex, m.positions[id], terms, delta);
      Ok(changed)
  }

  function DecreaseLiquidity(m: Machine, id: int, amount: u128, terms: Terms, timestamp: u64): Result<Machine> {
    if amount == 0 then Err(LiquidityZero)
    else
      var delta :- ConvertToLiquidityDelta(amount, false);
      var changed :- ModifyLiquidity(m, id, delta, timestamp);
      var paid :- AcceptWithdrawal(m.pool.tickCurrentIndex, m.positions[id], terms, delta);
      Ok(changed)
  }

  /** As far as the accounts go, a deposit is a change by its amount, a withdrawal by the opposite amount. */
  lemma DepositIsChange(m: Machine, id: int, amount: u128, delta: i128, terms: Terms, timestamp: u64)
    requires 0 <= id < |m.positions| && 0 < amount && ConvertToLiquidityDelta(amount, true) == Ok(delta)
    ensures IncreaseLiquidity(m, id, amount, terms, timestamp).Ok? <==>
      && ModifyLiquidity(m, id, delta, timestamp).Ok?
      && AcceptDeposit(m.pool.tickCurrentIndex, m.positions[id], terms, delta).Ok?
    ensures IncreaseLiquidity(m, id, amount, terms, timestamp).Ok? ==>
      IncreaseLiquidity(m, id, amount, terms, timestamp) == ModifyLiquidity(m, id, delta, timestamp)
  {
  }

  /** A deposit that succeeds is of a position and a positive amount. */
  lemma DepositOf(m: Machine, id: int, amount: u128, terms: Terms, timestamp: u64) returns (delta: i128)
    requires IncreaseLiquidity(m, id, amount, terms, timestamp).Ok?
    ensures 0 <= id < |m.positions| && 0 < delta == amount
    ensures ModifyLiquidity(m, id, delta, timestamp) == IncreaseLiquidity(m, id, amount, terms, timestamp)
    ensures AcceptDeposit(m.pool.tickCurrentIndex, m.positions[id], terms, delta).Ok?
  {
    delta := amount;
  }

  lemma WithdrawalIsChange(m: Machine, id: int, amount: u128, delta: i128, terms: Terms, timestamp: u64)
    requires 0 <= id < |m.positions| && 0 < amount && ConvertToLiquidityDelta(amount, false) == Ok(delta)
    ensures DecreaseLiquidity(m, id, amount, terms, timestamp).Ok? <==>
      && ModifyLiquidity(m, id, delta, timestamp).Ok?
      && AcceptWithdrawal(m.pool.tickCurrentIndex, m.positions[id], terms, delta).Ok?
    ensures DecreaseLiquidity(m, id, amount, terms, timestamp).Ok? ==>
      DecreaseLiquidity(m, id, amount, terms, timestamp) == ModifyLiquidity(m, id, delta, timestamp)
  {
  }

  function UpdateFeesAndRewards(m: Machine, id: int, timestamp: u64): Result<Machine> {
    ModifyLiquidity(m, id, 0, timestamp)
  }

  function CollectReward(m: Machine, id: int, index: int, vaultAmount: u64): Result<Machine> {
    if id < 0 || id >= |m.positions| then Err(InvalidAccount)
    else
      var (position, transfer) :- CollectRewardFrom(m.positions[id], index, vaultAmount);
      Ok(m.(positions := m.positions[id := position], log := m.log + [Paid(Reward(index), transfer)]))
  }

  function CollectFees(m: Machine, id: int, vaultA: u64, vaultB: u64): Result<Machine> {
    if id < 0 || id >= |m.positions| then Err(InvalidAccount)
    else
      var before := m.positions[id];
      var position :- CollectFeesFrom(before, vaultA, vaultB);
      Ok(m.(positions := m.positions[id := position],
            log := m.log + [Paid(FeeA, before.feeOwedA)] + [Paid(FeeB, before.feeOwedB)]))
  }

  function SetRewardEmissions(m: Machine, index: int, emissionsPerSecondX64: u128, vaultAmount: u64, timestamp: u64):
    Result<Machine>
  {
    var pool :- ChangeEmissions(m.pool, index, emissionsPerSecondX64, vaultAmount, timestamp);
    Ok(m.(pool := pool, log := m.log + RewardEvents(m.pool, timestamp)))
  }

  // ---- Swaps --------------------------------------------------------------------------------------------

  /** The ledger entry for the fee of a leg. */
  function FeeEvent(pool: Pool, aToB: bool, feeAmount: u64): Event {
    var fee := LiquidityFee(feeAmount, pool.protocolFeeRate);
    Grew(FeeStream(aToB), pool.tickCurrentIndex, FeeGrowthDelta(fee, pool.liquidity), fee * TWO_64)
  }

  /** The ledger entries of the legs that ran. */
  function FeeEvents(pool: Pool, ticks: Ticks, aToB: bool, legs: seq<Leg>): Log
    decreases |legs|
  {
    if legs == [] then []
    else
      var moved := MoveTick(AddFeeGrowth(pool, aToB, legs[0].feeAmount), ticks, aToB, legs[0]);
      [FeeEvent(pool, aToB, legs[0].feeAmount)] +
      if moved.Ok? then FeeEvents(moved.value.0, moved.value.1, aToB, legs[1..]) else []
  }

  function Swap(m: Machine, aToB: bool, legs: seq<Leg>, timestamp: u64): Result<Machine> {
    var (pool, ticks) :- SwapUpdate(m.pool, m.ticks, aToB, legs, timestamp);
    var advanced :- AdvanceTo(m, timestamp);
    Ok(advanced.(pool := pool, ticks := ticks,
                 log := advanced.log + FeeEvents(advanced.pool, m.ticks, aToB, legs)))
  }

  /** No initialized tick lies strictly between the current tick and the one the search returned. */
  ghost predicate FirstStop(ticks: Ticks, current: int, aToB: bool, next: int) {
    if aToB then
      && next <= current
      && forall t {:trigger TickAt(ticks, t)} :: next < t <= current ==> !TickAt(ticks, t).initialized
    else
      && current < next
      && forall t {:trigger TickAt(ticks, t)} :: current < t < next ==> !TickAt(ticks, t).initialized
  }

  /** The search stops at the first initialized tick on the way, and the price does not pass it. */
  ghost predicate FollowsSearch(pool: Pool, ticks: Ticks, aToB: bool, leg: Leg) {
    && FirstStop(ticks, pool.tickCurrentIndex, aToB, leg.nextTick)
    && (!leg.reachesNextTick ==>
          if aToB then leg.nextTick <= leg.stopsAt <= pool.tickCurrentIndex
          else pool.tickCurrentIndex <= leg.stopsAt < leg.nextTick)
  }

  ghost predicate LegsFollowSearch(pool: Pool, ticks: Ticks, aToB: bool, legs: seq<Leg>)
    decreases |legs|
  {
    legs != [] ==>
      && FollowsSearch(pool, ticks, aToB, legs[0])
      && var moved := MoveTick(AddFeeGrowth(pool, aToB, legs[0].feeAmount), ticks, aToB, legs[0]);
      (moved.Ok? ==> LegsFollowSearch(moved.value.0, moved.value.1, aToB, legs[1..]))
  }

  /** Leaving a tick to the left negates its net amount, which wraps if that is the least value. */
  predicate NegatesNet(ticks: Ticks, aToB: bool, leg: Leg) {
    aToB && leg.reachesNextTick && TickAt(ticks, leg.nextTick).initialized ==>
      TickAt(ticks, leg.nextTick).liquidityNet != -TWO_127
  }

  predicate LegsNegateNet(pool: Pool, ticks: Ticks, aToB: bool, legs: seq<Leg>)
    decreases |legs|
  {
    legs != [] ==>
      && NegatesNet(ticks, aToB, legs[0])
      && var moved := MoveTick(AddFeeGrowth(pool, aToB, legs[0].feeAmount), ticks, aToB, legs[0]);
      (moved.Ok? ==> LegsNegateNet(moved.value.0, moved.value.1, aToB, legs[1..]))
  }

  // ---- Runs -----------------------------------------------------------------------------------------------

  datatype Instruction =
    | DoOpenPosition(lower: int, upper: int)
    | DoInitializeReward(index: int)
    | DoIncrease(id: int, amount: u128, terms: Terms, timestamp: u64)
    | DoDecrease(id: int, amount: u128, terms: Terms, timestamp: u64)
    | DoUpdateFeesAndRewards(id: int, timestamp: u64)
    | DoCollectReward(id: int, index: int, vaultAmount: u64)
    | DoCollectFees(id: int, vaultA: u64, vaultB: u64)
    | DoSetEmissions(index: int, emissionsPerSecondX64: u128, vaultAmount: u64, timestamp: u64)
    | DoSwap(aToB: bool, legs: seq<Leg>, timestamp: u64)

  function Execute(m: Machine, op: Instruction): Result<Machine> {
    match op
    case DoOpenPosition(lower, upper) => OpenPositionStep(m, lower, upper)
    case DoInitializeReward(index) => InitializeRewardStep(m, index)
    case DoIncrease(id, amount, terms, timestamp) => IncreaseLiquidity(m, id, amount, terms, timestamp)
    case DoDecrease(id, amount, terms, timestamp) => DecreaseLiquidity(m, id, amount, terms, timestamp)
    case DoUpdateFeesAndRewards(id, timestamp) => UpdateFeesAndRewards(m, id, timestamp)
    case DoCollectReward(id, index, vaultAmount) => CollectReward(m, id, index, vaultAmount)
    case DoCollectFees(id, vaultA, vaultB) => CollectFees(m, id, vaultA, vaultB)
    case DoSetEmissions(index, rate, vaultAmount, timestamp) => SetRewardEmissions(m, index, rate, vaultAmount, timestamp)
    case DoSwap(aToB, legs, timestamp) => Swap(m, aToB, legs, timestamp)
  }

  /** A failed instruction changes nothing. */
  function After(m: Machine, op: Instruction): Machine {
    var r := Execute(m, op);
    if r.Ok? then r.value else m
  }

  /** The ledger entries a successful instruction makes. */
  function NewEvents(m: Machine, op: Instruction): Log {
    match op
    case DoIncrease(id, amount, terms, timestamp) => RewardEvents(m.pool, timestamp)
    case DoDecrease(id, amount, terms, timestamp) => RewardEvents(m.pool, timestamp)
    case DoUpdateFeesAndRewards(id, timestamp) => RewardEvents(m.pool, timestamp)
    case DoSetEmissions(index, rate, vaultAmount, timestamp) => RewardEvents(m.pool, timestamp)
    case DoCollectReward(id, index, vaultAmount) =>
      if 0 <= id < |m.positions| && 0 <= index < NUM_REWARDS then
        [Paid(Reward(index), CalculateCollectReward(m.positions[id].rewardInfos[index].amountOwed, vaultAmount).0)]
      else []
    case DoCollectFees(id, vaultA, vaultB) =>
      if 0 <= id < |m.positions| then [Paid(FeeA, m.positions[id].feeOwedA), Paid(FeeB, m.positions[id].feeOwedB)] else []
    case DoSwap(aToB, legs, timestamp) =>
      var advanced := AdvanceTo(m, timestamp);
      RewardEvents(m.pool, timestamp) +
      if advanced.Ok? then FeeEvents(advanced.value.pool, m.ticks, aToB, legs) else []
    case _ => []
  }

  lemma LogOfSwap(m: Machine, aToB: bool, legs: seq<Leg>, timestamp: u64)
    requires Swap(m, aToB, legs, timestamp).Ok?
    ensures Swap(m, aToB, legs, timestamp).value.log == m.log + NewEvents(m, DoSwap(aToB, legs, timestamp))
  {
    var now := AdvanceTo(m, timestamp).value;
    var fees := FeeEvents(now.pool, m.ticks, aToB, legs);
    assert m.log + RewardEvents(m.pool, timestamp) + fees == m.log + (RewardEvents(m.pool, timestamp) + fees);
  }

  lemma LogOfFeePayment(m: Machine, id: int, vaultA: u64, vaultB: u64)
    requires CollectFees(m, id, vaultA, vaultB).Ok?
    ensures CollectFees(m, id, vaultA, vaultB).value.log == m.log + NewEvents(m, DoCollectFees(id, vaultA, vaultB))
  {
    var a, b := Paid(FeeA, m.positions[id].feeOwedA), Paid(FeeB, m.positions[id].feeOwedB);
    assert m.log + [a] + [b] == m.log + [a, b];
  }

  /** The log only ever grows, by exactly these entries. */
  lemma LogGrows(m: Machine, op: Instruction)
    ensures Execute(m, op).Ok? ==> After(m, op).log == m.log + NewEvents(m, op)
    ensures Execute(m, op).Err? ==> After(m, op) == m
  {
    if Execute(m, op).Ok? {
      match op
      case DoSwap(aToB, legs, timestamp) => LogOfSwap(m, aToB, legs, timestamp);
      case DoCollectFees(id, vaultA, vaultB) => LogOfFeePayment(m, id, vaultA, vaultB);
      case DoOpenPosition(lower, upper) => assert m.log + [] == m.log;
      case DoInitializeReward(index) => assert m.log + [] == m.log;
      case DoCollectReward(id, index, vaultAmount) =>
      case DoIncrease(id, amount, terms, timestamp) =>
      case DoDecrease(id, amount, terms, timestamp) =>
      case DoUpdateFeesAndRewards(id, timestamp) =>
      case DoSetEmissions(index, rate, vaultAmount, timestamp) =>
    }
  }

  /** What the search over tick arrays and the price arithmetic guarantee about an instruction. */
  ghost predicate FollowsPrices(m: Machine, op: Instruction) {
    op.DoSwap? && AdvanceTo(m, op.timestamp).Ok? ==>
      LegsFollowSearch(AdvanceTo(m, op.timestamp).value.pool, m.ticks, op.aToB, op.legs)
  }

  /** The same, and no net amount is negated that has no negative. */
  ghost predicate Possible(m: Machine, op: Instruction) {
    && FollowsPrices(m, op)
    && (op.DoSwap? && AdvanceTo(m, op.timestamp).Ok? ==>
          LegsNegateNet(AdvanceTo(m, op.timestamp).value.pool, m.ticks, op.aToB, op.legs))
  }

  function Run(m: Machine, ops: seq<Instruction>): Machine
    decreases |ops|
  {
    if ops == [] then m else Run(After(m, ops[0]), ops[1..])
  }

  ghost predicate PossibleRun(m: Machine, ops: seq<Instruction>)
    decreases |ops|
  {
    ops != [] ==> Possible(m, ops[0]) && PossibleRun(After(m, ops[0]), ops[1..])
  }

  ghost predicate Reachable(m: Machine) {
    exists tickSpacing, protocolFeeRate, current, ops ::
      PossibleRun(Genesis(tickSpacing, protocolFeeRate, current), ops) &&
      m == Run(Genesis(tickSpacing, protocolFeeRate, current), ops)
  }
}
