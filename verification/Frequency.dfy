/** What settling a position, or accruing rewards, in several steps costs compared with one. */
module Frequency {
  import opened Words
  import opened FixedPoint
  import opened State
  import opened PoolManager
  import opened PositionManager
  import Rounding

  /** With part of a product credited in n steps, each short by less than a unit, n - 1 units are missing at most. */
  lemma QuotientBounds(product: nat, d: int, credits: int, n: int)
    requires 0 < d && d * credits <= product < d * (credits + n)
    ensures product / d - (n - 1) <= credits <= product / d
  {
    Rounding.FloorIsGreatest(product, d, credits);
    Rounding.FloorIsGreatest(product, d, credits + n);
  }

  // ---- Settlements ---------------------------------------------------------------------------------------

  /** Growth inside of a position's range, of every stream. */
  datatype Inside = Inside(a: u128, b: u128, rewards: Growths)

  function InsideIn(x: Inside, k: Stream): u128 {
    match k
    case FeeA => x.a
    case FeeB => x.b
    case Reward(i) => x.rewards[i]
  }

  function Settle(p: Position, x: Inside): Position {
    NextPositionModifyLiquidityUpdate(p, 0, x.a, x.b, x.rewards).value
  }

  function SettleAll(p: Position, xs: seq<Inside>): Position
    decreases |xs|
  {
    if xs == [] then p else SettleAll(Settle(p, xs[0]), xs[1..])
  }

  /** What a position gained, by a counter of 64 bits that wraps. */
  function Gained(p: Position, p': Position, k: Stream): u64 {
    WrapSub64(Owed(p', k), Owed(p, k))
  }

  /** Growth from one settlement to the next, added up without wrapping. */
  function GrowthOver(checkpoint: u128, xs: seq<Inside>, k: Stream): nat
    decreases |xs|
  {
    if xs == [] then 0
    else WrapSub(InsideIn(xs[0], k), checkpoint) + GrowthOver(InsideIn(xs[0], k), xs[1..], k)
  }

  ghost function CreditsOver(liquidity: u128, checkpoint: u128, xs: seq<Inside>, k: Stream): nat
    decreases |xs|
  {
    if xs == [] then 0
    else Credit(liquidity, InsideIn(xs[0], k), checkpoint) + CreditsOver(liquidity, InsideIn(xs[0], k), xs[1..], k)
  }

  lemma SettleParts(p: Position, x: Inside, k: Stream)
    ensures
      var p' := Settle(p, x);
      && p'.liquidity == p.liquidity && Checkpoint(p', k) == InsideIn(x, k)
      && Owed(p', k) == WrapAdd64(Owed(p, k), Credit(p.liquidity, InsideIn(x, k), Checkpoint(p, k)))
  {
  }

  lemma CreditOfStep(liquidity: u128, inside: u128, checkpoint: u128)
    requires liquidity * WrapSub(inside, checkpoint) < TWO_128
    ensures
      var credit, product := Credit(liquidity, inside, checkpoint), liquidity * WrapSub(inside, checkpoint);
      TWO_64 * credit <= product < TWO_64 * credit + TWO_64
  {
    MulShiftIsExact(liquidity, WrapSub(inside, checkpoint), false);
  }

  lemma {:induction false} CreditsAddUp(liquidity: u128, checkpoint: u128, xs: seq<Inside>, k: Stream)
    requires liquidity * GrowthOver(checkpoint, xs, k) < TWO_128
    ensures
      var credits, product := CreditsOver(liquidity, checkpoint, xs, k), liquidity * GrowthOver(checkpoint, xs, k);
      && TWO_64 * credits <= product
      && (xs != [] ==> product < TWO_64 * (credits + |xs|))
    decreases |xs|
  {
    if xs == [] {
    } else {
      var inside := InsideIn(xs[0], k);
      var first, later := WrapSub(inside, checkpoint), GrowthOver(inside, xs[1..], k);
      assert liquidity * (first + later) == liquidity * first + liquidity * later;
      Rounding.Scale(0, liquidity, first);
      Rounding.Scale(0, liquidity, later);
      CreditOfStep(liquidity, inside, checkpoint);
      CreditsAddUp(liquidity, inside, xs[1..], k);
    }
  }

  lemma {:induction false} SettleAllParts(p: Position, xs: seq<Inside>, k: Stream)
    requires CreditsOver(p.liquidity, Checkpoint(p, k), xs, k) < TWO_64
    ensures
      var p' := SettleAll(p, xs);
      && p'.liquidity == p.liquidity
      && (xs != [] ==> Checkpoint(p', k) == InsideIn(xs[|xs| - 1], k))
      && Owed(p', k) == WrapAdd64(Owed(p, k), CreditsOver(p.liquidity, Checkpoint(p, k), xs, k))
    decreases |xs|
  {
    if xs == [] {
    } else {
      SettleParts(p, xs[0], k);
      SettleAllParts(Settle(p, xs[0]), xs[1..], k);
    }
  }

  lemma {:induction false} GrowthTelescopes(checkpoint: u128, xs: seq<Inside>, k: Stream)
    requires xs != []
    ensures Congruent(WrapSub(InsideIn(xs[|xs| - 1], k), checkpoint), GrowthOver(checkpoint, xs, k))
    decreases |xs|
  {
    var inside, last := InsideIn(xs[0], k), InsideIn(xs[|xs| - 1], k);
    var first := WrapSub(inside, checkpoint);
    CongruentReflexive(first);
    if |xs| == 1 {
      assert GrowthOver(inside, xs[1..], k) == 0;
    } else {
      GrowthTelescopes(inside, xs[1..], k);
      CongruentSum(first, first, WrapSub(last, inside), GrowthOver(inside, xs[1..], k));
      WrappedStepsAdd(checkpoint, inside, last);
      CongruentTransitive(WrapSub(last, checkpoint), first + WrapSub(last, inside), GrowthOver(checkpoint, xs, k));
    }
  }

  lemma WrappedStepsAdd(a: u128, b: u128, c: u128)
    ensures Congruent(WrapSub(c, a), WrapSub(b, a) + WrapSub(c, b))
  {
    var turns := (if a <= c then 0 else 1) - (if a <= b then 0 else 1) - (if b <= c then 0 else 1);
    assert WrapSub(c, a) - (WrapSub(b, a) + WrapSub(c, b)) == Turns(turns);
  }

  /** Settled once, a position gains the floor of its liquidity times what the growth since amounts to. */
  lemma SingleSettlement(p: Position, x: Inside, k: Stream, grown: nat)
    requires Congruent(WrapSub(InsideIn(x, k), Checkpoint(p, k)), grown) && p.liquidity * grown < TWO_128
    ensures Gained(p, Settle(p, x), k) == p.liquidity * grown / TWO_64
    ensures Checkpoint(Settle(p, x), k) == InsideIn(x, k) && Settle(p, x).liquidity == p.liquidity
  {
    var exact := (InsideIn(x, k) as int) - Checkpoint(p, k);
    SettleParts(p, x, k);
    WrapSubCongruent(InsideIn(x, k), Checkpoint(p, k));
    CongruentReflexive(exact);
    CongruentTransitive(WrapSub(InsideIn(x, k), Checkpoint(p, k)), exact, exact);
    CongruentTransitive(exact, WrapSub(InsideIn(x, k), Checkpoint(p, k)), grown);
    CreditIsFloor(p.liquidity, InsideIn(x, k), Checkpoint(p, k), grown);
  }

  /**
    Settling a position of constant liquidity k times gains at most k - 1 units less than settling it once
    at the end, and never more, in every stream whose whole product fits 128 bits.
  */
  lemma FrequentSettlementCosts(p: Position, xs: seq<Inside>, k: Stream)
    requires xs != [] && p.liquidity * GrowthOver(Checkpoint(p, k), xs, k) < TWO_128
    ensures
      var many, once := SettleAll(p, xs), Settle(p, xs[|xs| - 1]);
      && Gained(p, once, k) == p.liquidity * GrowthOver(Checkpoint(p, k), xs, k) / TWO_64
      && Gained(p, once, k) - (|xs| - 1) <= Gained(p, many, k) <= Gained(p, once, k)
      && Checkpoint(many, k) == Checkpoint(once, k) && many.liquidity == once.liquidity
  {
    var grown := GrowthOver(Checkpoint(p, k), xs, k);
    var credits := CreditsOver(p.liquidity, Checkpoint(p, k), xs, k);
    CreditsAddUp(p.liquidity, Checkpoint(p, k), xs, k);
    SettleAllParts(p, xs, k);
    GrowthTelescopes(Checkpoint(p, k), xs, k);
    SingleSettlement(p, xs[|xs| - 1], k, grown);
    Rounding.Scale(0, p.liquidity, grown);
    QuotientBounds(p.liquidity * grown, TWO_64, credits, |xs|);
  }

  // ---- Accruals ------------------------------------------------------------------------------------------

  /** The pool after bringing its rewards up to date at each of these times. */
  function AccrueAll(pool: Pool, times: seq<u64>): Result<Pool>
    decreases |times|
  {
    if times == [] then Ok(pool)
    else
      var rewards :- NextPoolRewardInfos(pool, times[0]);
      AccrueAll(pool.(rewardInfos := rewards, rewardLastUpdatedTimestamp := times[0]), times[1..])
  }

  predicate Ascending(from: u64, times: seq<u64>)
    decreases |times|
  {
    times != [] ==> from <= times[0] && Ascending(times[0], times[1..])
  }

  lemma {:induction false} AscendingToLast(from: u64, times: seq<u64>)
    requires Ascending(from, times) && times != []
    ensures from <= times[0] <= times[|times| - 1]
    decreases |times|
  {
    if |times| > 1 {
      AscendingToLast(times[0], times[1..]);
    }
  }

  function RewardGained(pool: Pool, pool': Pool, i: RewardIndex): u128 {
    WrapSub(pool'.rewardInfos[i].growthGlobalX64, pool.rewardInfos[i].growthGlobalX64)
  }

  ghost function DeltasOver(from: u64, times: seq<u64>, rate: u128, liquidity: u128): nat
    requires Ascending(from, times)
    decreases |times|
  {
    if times == [] then 0
    else RewardGrowthDelta(times[0] - from, rate, liquidity) + DeltasOver(times[0], times[1..], rate, liquidity)
  }

  lemma DeltaOfStep(seconds: u64, rate: u128, liquidity: u128)
    requires liquidity > 0 && seconds * rate < TWO_128
    ensures
      var delta, product := RewardGrowthDelta(seconds, rate, liquidity), seconds * rate;
      liquidity * delta <= product < liquidity * delta + liquidity
  {
    MulDivIsExact(seconds, rate, liquidity, false);
  }

  lemma {:induction false} DeltasAddUp(from: u64, times: seq<u64>, rate: u128, liquidity: u128)
    requires times != [] && Ascending(from, times) && liquidity > 0 && (times[|times| - 1] - from) * rate < TWO_128
    ensures
      var deltas, product := DeltasOver(from, times, rate, liquidity), (times[|times| - 1] - from) * rate;
      liquidity * deltas <= product < liquidity * (deltas + |times|)
    decreases |times|
  {
    var next, last := times[0], times[|times| - 1];
    AscendingToLast(from, times);
    Rounding.Scale(0, next - from, rate);
    Rounding.Scale(0, last - next, rate);
    assert (last - from) * rate == (next - from) * rate + (last - next) * rate;
    DeltaOfStep(next - from, rate, liquidity);
    var first := RewardGrowthDelta(next - from, rate, liquidity);
    if |times| == 1 {
      assert times[1..] == [];
    } else {
      DeltasAddUp(next, times[1..], rate, liquidity);
      FloorsAdd(liquidity, (next - from) * rate, first, (last - next) * rate,
                DeltasOver(next, times[1..], rate, liquidity), |times| - 1);
    }
  }

  lemma FloorsAdd(d: int, p: int, f: int, q: int, g: int, n: nat)
    requires 0 < d && d * f <= p < d * f + d && d * g <= q < d * (g + n)
    ensures d * (f + g) <= p + q < d * (f + g + (n + 1))
  {
    assert d * (f + g) == d * f + d * g;
    assert d * (f + g + (n + 1)) == d * f + d + d * (g + n);
  }

  lemma {:induction false} AccrueAllParts(pool: Pool, times: seq<u64>, i: RewardIndex)
    requires Ascending(pool.rewardLastUpdatedTimestamp, times) && pool.liquidity > 0 && pool.rewardInfos[i].initialized
    requires DeltasOver(pool.rewardLastUpdatedTimestamp, times, pool.rewardInfos[i].emissionsPerSecondX64,
                        pool.liquidity) < TWO_128
    ensures
      var info := pool.rewardInfos[i];
      var deltas := DeltasOver(pool.rewardLastUpdatedTimestamp, times, info.emissionsPerSecondX64, pool.liquidity);
      && AccrueAll(pool, times).Ok?
      && AccrueAll(pool, times).value.rewardInfos[i].growthGlobalX64 == WrapAdd(info.growthGlobalX64, deltas)
    decreases |times|
  {
    if times == [] {
    } else {
      StepParts(pool, times[0], i);
      var next := pool.(rewardInfos := NextPoolRewardInfos(pool, times[0]).value, rewardLastUpdatedTimestamp := times[0]);
      AccrueAllParts(next, times[1..], i);
    }
  }

  lemma StepParts(pool: Pool, timestamp: u64, i: RewardIndex)
    requires pool.rewardLastUpdatedTimestamp <= timestamp && pool.liquidity > 0 && pool.rewardInfos[i].initialized
    ensures
      var info := pool.rewardInfos[i];
      NextPoolRewardInfos(pool, timestamp).Ok? &&
      NextPoolRewardInfos(pool, timestamp).value[i] == info.(growthGlobalX64 := WrapAdd(info.growthGlobalX64,
        RewardGrowthDelta(timestamp - pool.rewardLastUpdatedTimestamp, info.emissionsPerSecondX64, pool.liquidity)))
  {
    if timestamp == pool.rewardLastUpdatedTimestamp {
      NoTimeNoGrowth(pool.rewardInfos[i].emissionsPerSecondX64, pool.liquidity);
    }
  }

  /** What a reward emits from the pool's last update until a later time, times 2^64. */
  function EmittedUntil(pool: Pool, timestamp: u64, i: RewardIndex): int {
    (timestamp - pool.rewardLastUpdatedTimestamp) * pool.rewardInfos[i].emissionsPerSecondX64
  }

  lemma DeltasWithin(from: u64, times: seq<u64>, rate: u128, liquidity: u128, product: int)
    requires times != [] && Ascending(from, times) && liquidity > 0
    requires product == (times[|times| - 1] - from) * rate < TWO_128
    ensures DeltasOver(from, times, rate, liquidity) < TWO_128
    ensures product / liquidity - (|times| - 1) <= DeltasOver(from, times, rate, liquidity) <= product / liquidity
  {
    AscendingToLast(from, times);
    Rounding.Scale(0, times[|times| - 1] - from, rate);
    DeltasAddUp(from, times, rate, liquidity);
    QuotientBounds(product, liquidity, DeltasOver(from, times, rate, liquidity), |times|);
    DivisionShrinks(product, liquidity);
  }

  lemma AccrualGain(pool: Pool, times: seq<u64>, i: RewardIndex, product: int)
    requires times != [] && Ascending(pool.rewardLastUpdatedTimestamp, times)
    requires pool.liquidity > 0 && pool.rewardInfos[i].initialized
    requires product == EmittedUntil(pool, times[|times| - 1], i) < TWO_128
    ensures
      var many := AccrueAll(pool, times);
      && many.Ok?
      && product / pool.liquidity - (|times| - 1) <= RewardGained(pool, many.value, i) <= product / pool.liquidity
  {
    DeltasWithin(pool.rewardLastUpdatedTimestamp, times, pool.rewardInfos[i].emissionsPerSecondX64, pool.liquidity, product);
    AccrueAllParts(pool, times, i);
  }

  /**
    Bringing a reward up to date k times at a fixed rate and liquidity gains less than k units of growth
    less than doing it once at the end, and never more, if the product for the whole time fits 128 bits.
  */
  lemma FrequentAccrualCosts(pool: Pool, times: seq<u64>, i: RewardIndex)
    requires times != [] && Ascending(pool.rewardLastUpdatedTimestamp, times)
    requires pool.liquidity > 0 && pool.rewardInfos[i].initialized
    requires EmittedUntil(pool, times[|times| - 1], i) < TWO_128
    ensures
      var last := times[|times| - 1];
      var many, once := AccrueAll(pool, times), AccrueAll(pool, [last]);
      && many.Ok? && once.Ok?
      && RewardGained(pool, once.value, i) == EmittedUntil(pool, last, i) / pool.liquidity
      && RewardGained(pool, once.value, i) - (|times| - 1) <= RewardGained(pool, many.value, i)
           <= RewardGained(pool, once.value, i)
  {
    var last := times[|times| - 1];
    AscendingToLast(pool.rewardLastUpdatedTimestamp, times);
    AccrualGain(pool, times, i, EmittedUntil(pool, last, i));
    AccrualGain(pool, [last], i, EmittedUntil(pool, last, i));
  }
}
