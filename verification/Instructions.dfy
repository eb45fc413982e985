/** What each instruction handler does to the accounts it is given, on values. */
module Instructions {
  import opened Words
  import FixedPoint
  import opened State
  import opened PoolManager
  import opened LiquidityManager

  /** The accounts of a pool, a position and the ticks after a liquidity change; any error leaves all alone. */
  function CommitModifyLiquidity(pool: Pool, position: Position, ticks: Ticks, delta: i128, timestamp: u64):
    Result<(Pool, Position, Ticks)>
  {
    var l, u := position.tickLowerIndex, position.tickUpperIndex;
    var update :- CalculateModifyLiquidity(pool, position, TickAt(ticks, l), TickAt(ticks, u), delta, timestamp);
    Ok((pool.(rewardInfos := update.rewardInfos, rewardLastUpdatedTimestamp := timestamp,
              liquidity := update.poolLiquidity),
        update.position,
        ticks[l := update.tickLower][u := update.tickUpper]))
  }

  /**
    What a liquidity change is subject to besides the accounts: the prices at the time, the most or
    least the owner accepts of each token, and what the paying token accounts hold.
  */
  datatype Terms = Terms(prices: RangePrices, limitA: u64, limitB: u64, availableA: u64, availableB: u64)

  /** The amounts a deposit pays in; it fails beyond the owner's maxima or means. */
  function AcceptDeposit(current: int, position: Position, terms: Terms, delta: i128): Result<(u64, u64)> {
    var (a, b) :- CalculateLiquidityTokenDeltas(current, terms.prices, position, delta);
    if a > terms.limitA || b > terms.limitB then Err(TokenMaxExceeded)
    else Transfer(a, b, terms)
  }

  /** The amounts a withdrawal pays out; it fails below the owner's minima or beyond the vaults. */
  function AcceptWithdrawal(current: int, position: Position, terms: Terms, delta: i128): Result<(u64, u64)> {
    var (a, b) :- CalculateLiquidityTokenDeltas(current, terms.prices, position, delta);
    if a < terms.limitA || b < terms.limitB then Err(TokenMinSubceeded)
    else Transfer(a, b, terms)
  }

  function Transfer(a: u64, b: u64, terms: Terms): Result<(u64, u64)> {
    if a > terms.availableA || b > terms.availableB then Err(InsufficientFunds) else Ok((a, b))
  }

  /** The program pays at most what the vault holds and keeps the rest owed. */
  function CalculateCollectReward(amountOwed: u64, vaultAmount: u64): (u64, u64) {
    if amountOwed > vaultAmount then (vaultAmount, amountOwed - vaultAmount) else (amountOwed, 0)
  }

  /** The position after collecting a reward, and the amount transferred; an index out of bounds panics. */
  function CollectRewardFrom(position: Position, index: int, vaultAmount: u64): Result<(Position, u64)> {
    if index < 0 || index >= NUM_REWARDS then Err(ArithmeticOverflow)
    else
      var reward := position.rewardInfos[index];
      var (transfer, left) := CalculateCollectReward(reward.amountOwed, vaultAmount);
      Ok((position.(rewardInfos := position.rewardInfos[index := reward.(amountOwed := left)]), transfer))
  }

  /** Fees are paid in full, or the transfer fails and with it the instruction. */
  function CollectFeesFrom(position: Position, vaultA: u64, vaultB: u64): Result<Position> {
    if position.feeOwedA > vaultA || position.feeOwedB > vaultB then Err(InsufficientFunds)
    else Ok(position.(feeOwedA := 0, feeOwedB := 0))
  }

  const DAY_IN_SECONDS: u128 := 86400

  /** Settles at the old rate, then changes the rate; the vault must cover a day of the new one. */
  function ChangeEmissions(pool: Pool, index: int, emissionsPerSecondX64: u128, vaultAmount: u64, timestamp: u64):
    Result<Pool>
  {
    var emissionsPerDay :- FixedPoint.CheckedMulShiftRight(DAY_IN_SECONDS, emissionsPerSecondX64);
    if vaultAmount < emissionsPerDay then Err(RewardVaultAmountInsufficient)
    else
      var rewards :- NextPoolRewardInfos(pool, timestamp);
      if index < 0 || index >= NUM_REWARDS then Err(InvalidRewardIndex)
      else Ok(pool.(
        rewardInfos := rewards[index := rewards[index].(emissionsPerSecondX64 := emissionsPerSecondX64)],
        rewardLastUpdatedTimestamp := timestamp))
  }

  /** What is paid and what stays owed add up, and nothing stays owed that the vault could pay. */
  lemma CollectionConserves(position: Position, index: RewardIndex, vaultAmount: u64)
    ensures
      var (after, paid) := CollectRewardFrom(position, index, vaultAmount).value;
      && Owed(after, Reward(index)) + paid == Owed(position, Reward(index)) && paid <= vaultAmount
      && (Owed(after, Reward(index)) > 0 ==> paid == vaultAmount)
      && forall k :: k != Reward(index) ==> Owed(after, k) == Owed(position, k)
  {
  }

  /** A new rate is accepted exactly when the vault covers a day of it, to the fraction of a token. */
  lemma EmissionsChangeIff(pool: Pool, index: int, rate: u128, vaultAmount: u64, timestamp: u64)
    ensures ChangeEmissions(pool, index, rate, vaultAmount, timestamp).Ok? <==>
      && 0 <= index < NUM_REWARDS && pool.rewardLastUpdatedTimestamp <= timestamp
      && DAY_IN_SECONDS * rate < TWO_64 * (vaultAmount + 1)
  {
    var product := DAY_IN_SECONDS * rate;
    if rate > 0 && product < TWO_128 {
      FixedPoint.ShiftFits(product);
    }
  }

  /** The time up to the change is paid at the old rate, the time after it at the new one. */
  lemma OldRateUntilNow(pool: Pool, index: RewardIndex, rate: u128, vaultAmount: u64, now: u64, later: u64)
    requires ChangeEmissions(pool, index, rate, vaultAmount, now).Ok? && now <= later
    requires pool.liquidity > 0 && pool.rewardInfos[index].initialized
    ensures
      var changed := ChangeEmissions(pool, index, rate, vaultAmount, now).value;
      var before := RewardGrowthDelta(now - pool.rewardLastUpdatedTimestamp, pool.rewardInfos[index].emissionsPerSecondX64,
                                      pool.liquidity);
      var after := RewardGrowthDelta(later - now, rate, pool.liquidity);
      && NextPoolRewardInfos(changed, later).Ok?
      && NextPoolRewardInfos(changed, later).value[index].growthGlobalX64
           == WrapAdd(WrapAdd(pool.rewardInfos[index].growthGlobalX64, before), after)
  {
    NoTimeNoGrowth(pool.rewardInfos[index].emissionsPerSecondX64, pool.liquidity);
    NoTimeNoGrowth(rate, pool.liquidity);
  }
}
