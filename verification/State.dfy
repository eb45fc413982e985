/** The accounts of a pool (state/pool.rs, state/tick.rs, state/position.rs) as values. */
module State {
  import opened Words

  const NUM_REWARDS: int := 3
  const MIN_TICK_INDEX: int := -443636
  const MAX_TICK_INDEX: int := 443636

  type RewardIndex = i: int | 0 <= i < NUM_REWARDS

  /** A reward counts as initialized once its mint is set; mint, vault and authority are not modelled. */
  datatype RewardInfo = RewardInfo(initialized: bool, emissionsPerSecondX64: u128, growthGlobalX64: u128)

  type RewardInfos = s: seq<RewardInfo> | |s| == NUM_REWARDS
    witness [RewardInfo(false, 0, 0), RewardInfo(false, 0, 0), RewardInfo(false, 0, 0)]

  type Growths = s: seq<u128> | |s| == NUM_REWARDS witness [0, 0, 0]

  datatype Pool = Pool(
    tickSpacing: u16,
    protocolFeeRate: ProtocolFeeRate,
    liquidity: u128,
    tickCurrentIndex: int,
    feeGrowthGlobalA: u128,
    feeGrowthGlobalB: u128,
    rewardLastUpdatedTimestamp: u64,
    rewardInfos: RewardInfos)

  /** Protocol share of the swap fee in basis points; the program rejects more than 2500. */
  type ProtocolFeeRate = x: int | 0 <= x <= 2500

  datatype Tick = Tick(
    initialized: bool,
    liquidityNet: i128,
    liquidityGross: u128,
    feeGrowthOutsideA: u128,
    feeGrowthOutsideB: u128,
    rewardGrowthsOutside: Growths)

  const DEFAULT_TICK: Tick := Tick(false, 0, 0, 0, 0, [0, 0, 0])

  type Ticks = map<int, Tick>

  /** A tick that was never written is all zero. */
  function TickAt(ticks: Ticks, index: int): Tick {
    if index in ticks then ticks[index] else DEFAULT_TICK
  }

  datatype PositionReward = PositionReward(growthInsideCheckpoint: u128, amountOwed: u64)

  type PositionRewards = s: seq<PositionReward> | |s| == NUM_REWARDS
    witness [PositionReward(0, 0), PositionReward(0, 0), PositionReward(0, 0)]

  datatype Position = Position(
    tickLowerIndex: int,
    tickUpperIndex: int,
    liquidity: u128,
    feeGrowthCheckpointA: u128,
    feeOwedA: u64,
    feeGrowthCheckpointB: u128,
    feeOwedB: u64,
    rewardInfos: PositionRewards)

  predicate IsUsableTick(index: int, tickSpacing: u16)
    requires tickSpacing > 0
  {
    MIN_TICK_INDEX <= index <= MAX_TICK_INDEX && index % tickSpacing == 0
  }

  /** A fresh position account; all counters and checkpoints start at zero. */
  function OpenPosition(tickSpacing: u16, lower: int, upper: int): Result<Position> {
    if tickSpacing == 0 then Err(ArithmeticOverflow)
    else if !IsUsableTick(lower, tickSpacing) || !IsUsableTick(upper, tickSpacing) || lower >= upper then
      Err(InvalidTickIndex)
    else
      Ok(Position(lower, upper, 0, 0, 0, 0, 0, [PositionReward(0, 0), PositionReward(0, 0), PositionReward(0, 0)]))
  }

  /** Rewards are initialized in index order. */
  function InitializeReward(rewards: RewardInfos, index: int): Result<RewardInfos> {
    if index < 0 || index >= NUM_REWARDS then Err(InvalidRewardIndex)
    else if rewards[index].initialized || exists j :: 0 <= j < index && !rewards[j].initialized then
      Err(InvalidRewardIndex)
    else Ok(rewards[index := rewards[index].(initialized := true)])
  }

  // ---- The five growth streams, seen uniformly -------------------------------------------------

  /** Everything liquidity earns: swap fees in either token and up to three rewards. */
  datatype Stream = FeeA | FeeB | Reward(index: RewardIndex)

  function Growth(pool: Pool, k: Stream): u128 {
    match k
    case FeeA => pool.feeGrowthGlobalA
    case FeeB => pool.feeGrowthGlobalB
    case Reward(i) => pool.rewardInfos[i].growthGlobalX64
  }

  predicate Active(pool: Pool, k: Stream) {
    k.Reward? ==> pool.rewardInfos[k.index].initialized
  }

  function Outside(tick: Tick, k: Stream): u128 {
    match k
    case FeeA => tick.feeGrowthOutsideA
    case FeeB => tick.feeGrowthOutsideB
    case Reward(i) => tick.rewardGrowthsOutside[i]
  }

  function Checkpoint(position: Position, k: Stream): u128 {
    match k
    case FeeA => position.feeGrowthCheckpointA
    case FeeB => position.feeGrowthCheckpointB
    case Reward(i) => position.rewardInfos[i].growthInsideCheckpoint
  }

  function Owed(position: Position, k: Stream): u64 {
    match k
    case FeeA => position.feeOwedA
    case FeeB => position.feeOwedB
    case Reward(i) => position.rewardInfos[i].amountOwed
  }
}
