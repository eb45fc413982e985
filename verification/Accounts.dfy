/** The accounts as mutable objects, and the handlers that update them in place. */
module Accounts {
  import opened Words
  import FixedPoint
  import opened State
  import PoolManager
  import LiquidityManager
  import opened SwapManager
  import opened SwapMath
  import opened SwapLoop
  import opened Instructions

  class PoolAccount {
    const tickSpacing: u16
    const protocolFeeRate: ProtocolFeeRate
    var liquidity: u128
    var tickCurrentIndex: int
    var feeGrowthGlobalA: u128
    var feeGrowthGlobalB: u128
    var rewardLastUpdatedTimestamp: u64
    var rewardInfos: RewardInfos
    var sqrtPrice: u128
    var protocolFeeOwedA: u64
    var protocolFeeOwedB: u64

    /** The price and the protocol's fees, which only swaps change. */
    function Purse(): (u128, u64, u64)
      reads this
    {
      (sqrtPrice, protocolFeeOwedA, protocolFeeOwedB)
    }

    /** The rest of the account as a value. */
    function View(): Pool
      reads this
    {
      Pool(tickSpacing, protocolFeeRate, liquidity, tickCurrentIndex, feeGrowthGlobalA, feeGrowthGlobalB,
           rewardLastUpdatedTimestamp, rewardInfos)
    }

    constructor (tickSpacing: u16, protocolFeeRate: ProtocolFeeRate, current: int, price: u128)
      ensures Purse() == (price, 0, 0)
      ensures View() == Pool(tickSpacing, protocolFeeRate, 0, current, 0, 0, 0,
                             [RewardInfo(false, 0, 0), RewardInfo(false, 0, 0), RewardInfo(false, 0, 0)])
    {
      this.tickSpacing, this.protocolFeeRate := tickSpacing, protocolFeeRate;
      liquidity, tickCurrentIndex := 0, current;
      feeGrowthGlobalA, feeGrowthGlobalB, rewardLastUpdatedTimestamp := 0, 0, 0;
      rewardInfos := [RewardInfo(false, 0, 0), RewardInfo(false, 0, 0), RewardInfo(false, 0, 0)];
      sqrtPrice, protocolFeeOwedA, protocolFeeOwedB := price, 0, 0;
    }

    method UpdateRewards(rewards: RewardInfos, timestamp: u64)
      modifies this
      ensures Purse() == old(Purse())
      ensures View() == old(View()).(rewardInfos := rewards, rewardLastUpdatedTimestamp := timestamp)
    {
      rewardLastUpdatedTimestamp := timestamp;
      rewardInfos := rewards;
    }

    method UpdateRewardsAndLiquidity(rewards: RewardInfos, newLiquidity: u128, timestamp: u64)
      modifies this
      ensures Purse() == old(Purse())
      ensures View() == old(View()).(rewardInfos := rewards, rewardLastUpdatedTimestamp := timestamp,
                                     liquidity := newLiquidity)
    {
      UpdateRewards(rewards, timestamp);
      liquidity := newLiquidity;
    }

    method UpdateEmissions(index: int, rewards: RewardInfos, timestamp: u64, rate: u128) returns (r: Result<()>)
      modifies this
      ensures Purse() == old(Purse())
      ensures r == if 0 <= index < NUM_REWARDS then Ok(()) else Err(InvalidRewardIndex)
      ensures r.Err? ==> View() == old(View())
      ensures r.Ok? ==> View() == old(View()).(rewardLastUpdatedTimestamp := timestamp,
        rewardInfos := rewards[index := rewards[index].(emissionsPerSecondX64 := rate)])
    {
      if index < 0 || index >= NUM_REWARDS {
        return Err(InvalidRewardIndex);
      }
      UpdateRewards(rewards, timestamp);
      rewardInfos := rewardInfos[index := rewardInfos[index].(emissionsPerSecondX64 := rate)];
      return Ok(());
    }

    /** Rewards are initialized in index order: the lowest uninitialized one, or none. */
    method InitializeRewardAt(index: int) returns (r: Result<()>)
      modifies this
      ensures Purse() == old(Purse())
      ensures r.Ok? <==> InitializeReward(old(rewardInfos), index).Ok?
      ensures r.Err? ==> View() == old(View()) && r.error == InvalidRewardIndex
      ensures r.Ok? ==> View() == old(View()).(rewardInfos := InitializeReward(old(rewardInfos), index).value)
    {
      if index < 0 || index >= NUM_REWARDS {
        return Err(InvalidRewardIndex);
      }
      var lowest := 0;
      while lowest < NUM_REWARDS && rewardInfos[lowest].initialized
        invariant 0 <= lowest <= NUM_REWARDS
        invariant forall j :: 0 <= j < lowest ==> rewardInfos[j].initialized
      {
        lowest := lowest + 1;
      }
      if lowest == NUM_REWARDS || lowest != index {
        return Err(InvalidRewardIndex);
      }
      rewardInfos := rewardInfos[index := rewardInfos[index].(initialized := true)];
      return Ok(());
    }

    method UpdateAfterSwap(newLiquidity: u128, tickIndex: int, newPrice: u128, feeGrowth: u128, rewards: RewardInfos,
                           protocolFee: u64, isTokenFeeInA: bool, timestamp: u64)
      modifies this
      ensures View() == Pool(tickSpacing, protocolFeeRate, newLiquidity, tickIndex,
        if isTokenFeeInA then feeGrowth else old(feeGrowthGlobalA),
        if isTokenFeeInA then old(feeGrowthGlobalB) else feeGrowth, timestamp, rewards)
      ensures Purse() == PurseAfter(old(Purse()), newPrice, protocolFee, isTokenFeeInA)
    {
      tickCurrentIndex := tickIndex;
      sqrtPrice := newPrice;
      liquidity := newLiquidity;
      rewardInfos := rewards;
      rewardLastUpdatedTimestamp := timestamp;
      if isTokenFeeInA {
        feeGrowthGlobalA := feeGrowth;
        protocolFeeOwedA := WrapAdd64(protocolFeeOwedA, protocolFee);
      } else {
        feeGrowthGlobalB := feeGrowth;
        protocolFeeOwedB := WrapAdd64(protocolFeeOwedB, protocolFee);
      }
    }
  }

  /** The protocol's share is added to what it is owed of the incoming token. */
  function PurseAfter(purse: (u128, u64, u64), price: u128, protocolFee: u64, inA: bool): (u128, u64, u64) {
    if inA then (price, WrapAdd64(purse.1, protocolFee), purse.2) else (price, purse.1, WrapAdd64(purse.2, protocolFee))
  }

  class PositionAccount {
    const tickLowerIndex: int
    const tickUpperIndex: int
    var liquidity: u128
    var feeGrowthCheckpointA: u128
    var feeOwedA: u64
    var feeGrowthCheckpointB: u128
    var feeOwedB: u64
    var rewardInfos: PositionRewards

    function View(): Position
      reads this
    {
      Position(tickLowerIndex, tickUpperIndex, liquidity, feeGrowthCheckpointA, feeOwedA,
               feeGrowthCheckpointB, feeOwedB, rewardInfos)
    }

    constructor (blank: Position)
      ensures View() == blank
    {
      tickLowerIndex, tickUpperIndex, liquidity := blank.tickLowerIndex, blank.tickUpperIndex, blank.liquidity;
      feeGrowthCheckpointA, feeOwedA := blank.feeGrowthCheckpointA, blank.feeOwedA;
      feeGrowthCheckpointB, feeOwedB := blank.feeGrowthCheckpointB, blank.feeOwedB;
      rewardInfos := blank.rewardInfos;
    }

    method Update(update: Position)
      requires update.tickLowerIndex == tickLowerIndex && update.tickUpperIndex == tickUpperIndex
      modifies this
      ensures View() == update
    {
      liquidity := update.liquidity;
      feeGrowthCheckpointA, feeGrowthCheckpointB := update.feeGrowthCheckpointA, update.feeGrowthCheckpointB;
      feeOwedA, feeOwedB := update.feeOwedA, update.feeOwedB;
      rewardInfos := update.rewardInfos;
    }

    method ResetFeesOwed()
      modifies this
      ensures View() == old(View()).(feeOwedA := 0, feeOwedB := 0)
    {
      feeOwedA, feeOwedB := 0, 0;
    }

    method UpdateRewardOwed(index: RewardIndex, amountOwed: u64)
      modifies this
      ensures View() == old(View()).(rewardInfos :=
        old(rewardInfos)[index := old(rewardInfos)[index].(amountOwed := amountOwed)])
    {
      rewardInfos := rewardInfos[index := rewardInfos[index].(amountOwed := amountOwed)];
    }
  }

  /** The tick arrays an instruction has loaded. */
  class TickAccounts {
    var ticks: Ticks

    constructor ()
      ensures ticks == map[]
    {
      ticks := map[];
    }

    method UpdateTick(index: int, update: Tick)
      modifies this
      ensures ticks == old(ticks)[index := update]
    {
      ticks := ticks[index := update];
    }

    method Restore(before: Ticks)
      modifies this
      ensures ticks == before
    {
      ticks := before;
    }
  }

  // ---- Handlers --------------------------------------------------------------------------------------------

  method ModifyLiquidity(pool: PoolAccount, position: PositionAccount, arrays: TickAccounts, delta: i128, timestamp: u64)
    returns (r: Result<()>)
    modifies pool, position, arrays
    ensures pool.Purse() == old(pool.Purse())
    ensures
      var outcome := CommitModifyLiquidity(old(pool.View()), old(position.View()), old(arrays.ticks), delta, timestamp);
      && (outcome.Ok? ==> r == Ok(()) && (pool.View(), position.View(), arrays.ticks) == outcome.value)
      && (outcome.Err? ==> r == Err(outcome.error) && pool.View() == old(pool.View())
                           && position.View() == old(position.View()) && arrays.ticks == old(arrays.ticks))
  {
    var lower := TickAt(arrays.ticks, position.tickLowerIndex);
    var upper := TickAt(arrays.ticks, position.tickUpperIndex);
    var update := LiquidityManager.CalculateModifyLiquidity(pool.View(), position.View(), lower, upper, delta, timestamp);
    if update.Err? {
      return Err(update.error);
    }
    position.Update(update.value.position);
    arrays.UpdateTick(position.tickLowerIndex, update.value.tickLower);
    arrays.UpdateTick(position.tickUpperIndex, update.value.tickUpper);
    pool.UpdateRewardsAndLiquidity(update.value.rewardInfos, update.value.poolLiquidity, timestamp);
    return Ok(());
  }

  /** Settles without loading the tick arrays for writing, which a zero change leaves as they are. */
  method UpdateFeesAndRewards(pool: PoolAccount, position: PositionAccount, arrays: TickAccounts, timestamp: u64)
    returns (r: Result<()>)
    modifies pool, position
    ensures pool.Purse() == old(pool.Purse())
    ensures
      var outcome := CommitModifyLiquidity(old(pool.View()), old(position.View()), arrays.ticks, 0, timestamp);
      && (outcome.Ok? ==> r == Ok(()) && (pool.View(), position.View()) == (outcome.value.0, outcome.value.1)
                          && forall t :: TickAt(arrays.ticks, t) == TickAt(outcome.value.2, t))
      && (outcome.Err? ==> r == Err(outcome.error) && pool.View() == old(pool.View())
                           && position.View() == old(position.View()))
  {
    var lower := TickAt(arrays.ticks, position.tickLowerIndex);
    var upper := TickAt(arrays.ticks, position.tickUpperIndex);
    var update := LiquidityManager.CalculateModifyLiquidity(pool.View(), position.View(), lower, upper, 0, timestamp);
    if update.Err? {
      return Err(update.error);
    }
    pool.UpdateRewards(update.value.rewardInfos, timestamp);
    position.Update(update.value.position);
    return Ok(());
  }

  method SetRewardEmissions(pool: PoolAccount, index: int, rate: u128, vaultAmount: u64, timestamp: u64)
    returns (r: Result<()>)
    modifies pool
    ensures pool.Purse() == old(pool.Purse())
    ensures
      var outcome := ChangeEmissions(old(pool.View()), index, rate, vaultAmount, timestamp);
      && (outcome.Ok? ==> r == Ok(()) && pool.View() == outcome.value)
      && (outcome.Err? ==> r == Err(outcome.error) && pool.View() == old(pool.View()))
  {
    var emissionsPerDay := FixedPoint.CheckedMulShiftRight(DAY_IN_SECONDS, rate);
    if emissionsPerDay.Err? {
      return Err(emissionsPerDay.error);
    }
    if vaultAmount < emissionsPerDay.value {
      return Err(RewardVaultAmountInsufficient);
    }
    var rewards := PoolManager.ComputePoolRewardInfos(pool.View(), timestamp);
    if rewards.Err? {
      return Err(rewards.error);
    }
    r := pool.UpdateEmissions(index, rewards.value, timestamp, rate);
  }

  /** Returns the amount to transfer out of the vault. */
  method CollectReward(position: PositionAccount, index: int, vaultAmount: u64) returns (r: Result<u64>)
    modifies position
    ensures
      var outcome := CollectRewardFrom(old(position.View()), index, vaultAmount);
      && (outcome.Ok? ==> (position.View(), r) == (outcome.value.0, Ok(outcome.value.1)))
      && (outcome.Err? ==> r == Err(outcome.error) && position.View() == old(position.View()))
    ensures r.Ok? ==> r.value <= vaultAmount
  {
    if index < 0 || index >= NUM_REWARDS {
      return Err(ArithmeticOverflow);
    }
    var (transfer, left) := CalculateCollectReward(position.rewardInfos[index].amountOwed, vaultAmount);
    position.UpdateRewardOwed(index, left);
    return Ok(transfer);
  }

  /** Returns the amounts to transfer out of the vaults; a transfer beyond a vault undoes the reset. */
  method CollectFees(position: PositionAccount, vaultA: u64, vaultB: u64) returns (r: Result<(u64, u64)>)
    modifies position
    ensures
      var outcome := CollectFeesFrom(old(position.View()), vaultA, vaultB);
      && (outcome.Ok? ==> position.View() == outcome.value && r == Ok((old(position.feeOwedA), old(position.feeOwedB))))
      && (outcome.Err? ==> r == Err(outcome.error) && position.View() == old(position.View()))
  {
    var feeOwedA, feeOwedB := position.feeOwedA, position.feeOwedB;
    var before := position.View();
    position.ResetFeesOwed();
    if feeOwedA > vaultA || feeOwedB > vaultB {
      position.Update(before);
      return Err(InsufficientFunds);
    }
    return Ok((feeOwedA, feeOwedB));
  }

  // ---- Swaps ---------------------------------------------------------------------------------------------------

  /** The ticks as the loop leaves them, up to the iteration that fails. */
  ghost function TicksWritten(s: Setup, order: Order, c: Cursor, nexts: seq<int>): Ticks
    decreases |nexts|
  {
    if c.remaining == 0 || order.limit == c.price || nexts == [] then c.ticks
    else
      var next := OneLeg(s, order, c, nexts[0]);
      if next.Ok? then TicksWritten(s, order, next.value.0, nexts[1..]) else c.ticks
  }

  /** A swap as the runtime carries it out: after an error the accounts are what they were. */
  method SwapOrNothing(s: Setup, pool: PoolAccount, arrays: TickAccounts, order: Order, nexts: seq<int>, timestamp: u64)
    returns (r: Result<(u64, u64)>)
    modifies pool, arrays
    ensures
      var outcome := SwapEnd(s, old(pool.View()), old(pool.sqrtPrice), old(arrays.ticks), order, nexts, timestamp);
      && (outcome.Ok? ==>
            && r == Ok((outcome.value.remaining, outcome.value.calculated))
            && (pool.View(), arrays.ticks) == (outcome.value.pool, outcome.value.ticks)
            && pool.Purse() == PurseAfter(old(pool.Purse()), outcome.value.price, outcome.value.protocolFee, order.aToB))
      && (outcome.Err? ==> r == Err(outcome.error) && pool.View() == old(pool.View()) && pool.Purse() == old(pool.Purse())
                           && arrays.ticks == old(arrays.ticks))
  {
    var before := arrays.ticks;
    r := Swap(s, pool, arrays, order, nexts, timestamp);
    if r.Err? {
      arrays.Restore(before);
    }
  }

  /**
    The swap loop on local copies of the pool's running values; ticks are written as they are crossed, and stay
    written if a later iteration fails. Returns what remains of the order's amount and the amount of the other
    token.
  */
  method Swap(s: Setup, pool: PoolAccount, arrays: TickAccounts, order: Order, nexts: seq<int>, timestamp: u64)
    returns (r: Result<(u64, u64)>)
    modifies pool, arrays
    ensures
      var outcome := SwapEnd(s, old(pool.View()), old(pool.sqrtPrice), old(arrays.ticks), order, nexts, timestamp);
      && (outcome.Ok? ==>
            && r == Ok((outcome.value.remaining, outcome.value.calculated))
            && (pool.View(), arrays.ticks) == (outcome.value.pool, outcome.value.ticks)
            && pool.Purse() == PurseAfter(old(pool.Purse()), outcome.value.price, outcome.value.protocolFee, order.aToB))
      && (outcome.Err? ==> r == Err(outcome.error) && pool.View() == old(pool.View()) && pool.Purse() == old(pool.Purse()))
    ensures arrays.ticks == SwapWrites(s, old(pool.View()), old(pool.sqrtPrice), old(arrays.ticks), order, nexts, timestamp)
  {
    var checked := CheckOrder(pool.sqrtPrice, order);
    if checked.Err? {
      return Err(checked.error);
    }
    var rewards := PoolManager.ComputePoolRewardInfos(pool.View(), timestamp);
    if rewards.Err? {
      return Err(rewards.error);
    }
    var running := Timed(pool.View(), rewards.value, timestamp);
    var l := Locals(pool.tickCurrentIndex, pool.liquidity, if order.aToB then pool.feeGrowthGlobalA else pool.feeGrowthGlobalB,
                    pool.sqrtPrice, order.amount, 0, 0);
    ghost var start := CursorOf(running, order.aToB, l, arrays.ticks);
    var i := 0;
    while l.remaining > 0 && order.limit != l.price
      invariant 0 <= i <= |nexts| && pool.View() == old(pool.View()) && pool.Purse() == old(pool.Purse())
      invariant Continues(s, order, nexts, start, CursorOf(running, order.aToB, l, arrays.ticks), i)
      decreases |nexts| - i
    {
      Continued(s, order, nexts, start, CursorOf(running, order.aToB, l, arrays.ticks), i);
      if i == |nexts| {
        return Err(TickArraySequenceInvalidIndex);
      }
      var iterated := Iterate(s, arrays, running, order, nexts[i], l);
      if iterated.Err? {
        return Err(iterated.error);
      }
      l := iterated.value;
      i := i + 1;
    }
    pool.UpdateAfterSwap(l.liquidity, l.current, l.price, l.feeGrowth, rewards.value, l.protocolFee, order.aToB, timestamp);
    return Ok((l.remaining, l.calculated));
  }

  /** The loop has the same outcome from its start as from a later point. */
  ghost predicate Continues(s: Setup, order: Order, nexts: seq<int>, start: Cursor, c: Cursor, i: nat)
    requires i <= |nexts|
  {
    && EndOf(Loop(s, order, c, nexts[i..])) == EndOf(Loop(s, order, start, nexts))
    && TicksWritten(s, order, c, nexts[i..]) == TicksWritten(s, order, start, nexts)
  }

  lemma Continued(s: Setup, order: Order, nexts: seq<int>, start: Cursor, c: Cursor, i: nat)
    requires i <= |nexts| && Continues(s, order, nexts, start, c, i) && c.remaining > 0 && order.limit != c.price
    ensures i == |nexts| ==>
      EndOf(Loop(s, order, start, nexts)) == Err(TickArraySequenceInvalidIndex) && TicksWritten(s, order, start, nexts) == c.ticks
    ensures i < |nexts| ==>
      var one := OneLeg(s, order, c, nexts[i]);
      && (one.Ok? ==> Continues(s, order, nexts, start, one.value.0, i + 1))
      && (one.Err? ==> EndOf(Loop(s, order, start, nexts)) == Err(one.error) && TicksWritten(s, order, start, nexts) == c.ticks)
  {
    if i < |nexts| {
      assert nexts[i..][1..] == nexts[i + 1..];
    }
  }

  /** The ticks a swap leaves behind when it stops, whether or not it fails. */
  ghost function SwapWrites(s: Setup, pool: Pool, price: u128, ticks: Ticks, order: Order, nexts: seq<int>, timestamp: u64): Ticks {
    var rewards := PoolManager.NextPoolRewardInfos(pool, timestamp);
    if CheckOrder(price, order).Err? || rewards.Err? then ticks
    else TicksWritten(s, order, Cursor(Timed(pool, rewards.value, timestamp), ticks, price, order.amount, 0, 0), nexts)
  }

  /** The variables of the swap loop. */
  datatype Locals = Locals(
    current: int, liquidity: u128, feeGrowth: u128, price: u128, remaining: u64, calculated: u64, protocolFee: u64)

  /** The loop as its specification sees it. */
  ghost function CursorOf(pool: Pool, aToB: bool, l: Locals, ticks: Ticks): Cursor {
    Cursor(Running(pool, aToB, l.current, l.liquidity, l.feeGrowth), ticks, l.price, l.remaining, l.calculated, l.protocolFee)
  }

  /** One iteration of the loop. */
  method Iterate(s: Setup, arrays: TickAccounts, pool: Pool, order: Order, next: int, l: Locals) returns (r: Result<Locals>)
    modifies arrays
    ensures
      var one := OneLeg(s, order, CursorOf(pool, order.aToB, l, old(arrays.ticks)), next);
      && (one.Ok? ==> r.Ok? && one.value.0 == CursorOf(pool, order.aToB, r.value, arrays.ticks))
      && (one.Err? ==> r == Err(one.error) && arrays.ticks == old(arrays.ticks))
  {
    var step := ComputeSwap(l.remaining, s.feeRate, l.liquidity, l.price, Target(s, order, next), order.isInput, order.aToB);
    if step.Err? {
      return Err(step.error);
    }
    var settled := Settle(order, l.remaining, l.calculated, step.value);
    if settled.Err? {
      return Err(settled.error);
    }
    var fee := LiquidityFee(step.value.feeAmount, pool.protocolFeeRate);
    var protocolFee := WrapAdd64(l.protocolFee, step.value.feeAmount - fee);
    var feeGrowth := WrapAdd(l.feeGrowth, FeeGrowthDelta(fee, l.liquidity));
    ghost var grown := Running(pool, order.aToB, l.current, l.liquidity, feeGrowth);
    assert grown == AddFeeGrowth(Running(pool, order.aToB, l.current, l.liquidity, l.feeGrowth), order.aToB, step.value.feeAmount);
    var leg := Leg(step.value.feeAmount, next, step.value.nextPrice == s.grid.priceAt(next),
                   if step.value.nextPrice == l.price then l.current else s.grid.tickAt(step.value.nextPrice));
    var moved := ReachTick(arrays, order.aToB, leg, l.liquidity, if order.aToB then feeGrowth else pool.feeGrowthGlobalA,
                           if order.aToB then pool.feeGrowthGlobalB else feeGrowth, pool.rewardInfos, grown);
    if moved.Err? {
      return Err(moved.error);
    }
    return Ok(Locals(moved.value.0, moved.value.1, feeGrowth, step.value.nextPrice,
                     settled.value.0, settled.value.1, protocolFee));
  }

  /** The end of an iteration: crosses the tick that was reached, or comes to rest. */
  method ReachTick(arrays: TickAccounts, aToB: bool, leg: Leg, liquidity: u128, growthA: u128, growthB: u128,
                   rewards: RewardInfos, ghost pool: Pool)
    returns (r: Result<(int, u128)>)
    requires (pool.liquidity, pool.feeGrowthGlobalA, pool.feeGrowthGlobalB) == (liquidity, growthA, growthB)
    requires pool.rewardInfos == rewards
    modifies arrays
    ensures
      var moved := MoveTick(pool, old(arrays.ticks), aToB, leg);
      && (moved.Ok? ==> r.Ok? && arrays.ticks == moved.value.1
                        && moved.value.0 == pool.(tickCurrentIndex := r.value.0, liquidity := r.value.1))
      && (moved.Err? ==> r == Err(moved.error) && arrays.ticks == old(arrays.ticks))
  {
    if !leg.reachesNextTick {
      return Ok((leg.stopsAt, liquidity));
    }
    var next: u128 := liquidity;
    var tick := TickAt(arrays.ticks, leg.nextTick);
    if tick.initialized {
      var update := CalculateUpdate(tick, aToB, liquidity, growthA, growthB, rewards);
      if update.Err? {
        return Err(update.error);
      }
      next := update.value.1;
      arrays.UpdateTick(leg.nextTick, update.value.0);
    }
    return Ok((if aToB then leg.nextTick - 1 else leg.nextTick, next));
  }

  /** The pool as the loop sees it through its local copies. */
  ghost function Running(pool: Pool, aToB: bool, current: int, liquidity: u128, feeGrowth: u128): Pool {
    pool.(tickCurrentIndex := current, liquidity := liquidity,
          feeGrowthGlobalA := if aToB then feeGrowth else pool.feeGrowthGlobalA,
          feeGrowthGlobalB := if aToB then pool.feeGrowthGlobalB else feeGrowth)
  }
}
