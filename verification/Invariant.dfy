/** What every instruction keeps: the state invariant and its preservation by each elementary change. */
module Invariant {
  import opened Words
  import opened State
  import TickManager
  import opened Ledger
  import opened Machine
  import opened Sums
  import opened Books

  ghost predicate WellFormed(m: Machine) {
    && ValidRanges(m.positions)
    && (forall i :: 0 <= i < |m.positions| ==> i in m.since && m.since[i] <= |m.log|)
  }

  /** An uninitialized reward has left no trace anywhere. */
  ghost predicate Dormant(m: Machine, k: Stream) {
    !Active(m.pool, k) ==>
      Growth(m.pool, k) == 0 && forall t :: Outside(TickAt(m.ticks, t), k) == 0
  }

  function Below(m: Machine, k: Stream, t: int): u128 {
    TickManager.AttributedBelow(m.pool, TickAt(m.ticks, t), t, k)
  }

  /** Growth of a stream earned in a position's range since its last settlement, by the ledger. */
  ghost function EarnedSince(m: Machine, i: int, k: Stream): nat {
    if 0 <= i < |m.positions| && i in m.since && m.since[i] <= |m.log| then
      Earned(m.log[m.since[i]..], k, m.positions[i].tickLowerIndex, m.positions[i].tickUpperIndex)
    else 0
  }

  /** The accumulators of a position that can earn agree with the ledger modulo 2^128. */
  ghost predicate Agrees(m: Machine, i: int, k: Stream)
    requires 0 <= i < |m.positions|
  {
    var p := m.positions[i];
    p.liquidity > 0 ==>
      Congruent(Below(m, k, p.tickUpperIndex) - Below(m, k, p.tickLowerIndex) - Checkpoint(p, k), EarnedSince(m, i, k))
  }

  /** What a position may still be credited of a stream at its next settlement, times 2^64. */
  ghost function ClaimOf(m: Machine, k: Stream): int -> int {
    i => if 0 <= i < |m.positions| then m.positions[i].liquidity * EarnedSince(m, i, k) else 0
  }

  /** Everything ever credited, and everything that may still be, has been funded. */
  ghost predicate Funded(m: Machine, k: Stream) {
    SumTo(|m.positions|, ClaimOf(m, k)) + TWO_64 * CreditedTotal(m.credits, k) <= BudgetX64(m.log, k)
  }

  ghost function OwedOf(m: Machine, k: Stream): int -> int {
    i => if 0 <= i < |m.positions| then Owed(m.positions[i], k) else 0
  }

  /** Everything positions are still owed of a stream. */
  ghost function TotalOwed(m: Machine, k: Stream): int {
    SumTo(|m.positions|, OwedOf(m, k))
  }

  /** Everything paid and still owed has been credited. */
  ghost predicate Covered(m: Machine, k: Stream) {
    PaidOut(m.log, k) + TotalOwed(m, k) <= CreditedTotal(m.credits, k)
  }

  ghost predicate Solvent(m: Machine, k: Stream) {
    Funded(m, k) && Covered(m, k)
  }

  ghost predicate StreamInvariant(m: Machine, k: Stream) {
    && Dormant(m, k)
    && (forall i :: 0 <= i < |m.positions| ==> Agrees(m, i, k))
    && Solvent(m, k)
  }

  ghost predicate Inv(m: Machine) {
    && WellFormed(m)
    && BooksBalance(m.positions, m.ticks, m.pool)
    && (forall k :: StreamInvariant(m, k))
  }

  // ---- Growth ----------------------------------------------------------------------------------------

  function AddGrowth(pool: Pool, k: Stream, delta: u128): Pool {
    match k
    case FeeA => pool.(feeGrowthGlobalA := WrapAdd(pool.feeGrowthGlobalA, delta))
    case FeeB => pool.(feeGrowthGlobalB := WrapAdd(pool.feeGrowthGlobalB, delta))
    case Reward(i) => pool.(rewardInfos := pool.rewardInfos[
        i := pool.rewardInfos[i].(growthGlobalX64 := WrapAdd(pool.rewardInfos[i].growthGlobalX64, delta))])
  }

  /** One growth increment at the current tick, in the accounts and in the ledger. */
  function Grow(m: Machine, k: Stream, delta: u128, budgetX64: nat): Machine {
    m.(pool := AddGrowth(m.pool, k, delta), log := m.log + [Grew(k, m.pool.tickCurrentIndex, delta, budgetX64)])
  }

  lemma EarnedAfterGrow(m: Machine, k: Stream, delta: u128, budgetX64: nat, i: int, j: Stream)
    requires WellFormed(m) && 0 <= i < |m.positions|
    ensures
      var p := m.positions[i];
      EarnedSince(Grow(m, k, delta, budgetX64), i, j) == EarnedSince(m, i, j) +
        (if j == k && p.tickLowerIndex <= m.pool.tickCurrentIndex < p.tickUpperIndex then delta else 0)
  {
    AppendSince(m.log, m.since[i], Grew(k, m.pool.tickCurrentIndex, delta, budgetX64), j,
                m.positions[i].tickLowerIndex, m.positions[i].tickUpperIndex);
  }

  /** Growth is attributed below a tick exactly when the current tick is below it. */
  lemma BelowAfterGrow(m: Machine, k: Stream, delta: u128, budgetX64: nat, t: int)
    requires Active(m.pool, k) && TickAt(m.ticks, t).initialized
    ensures Congruent(Below(Grow(m, k, delta, budgetX64), k, t),
                      Below(m, k, t) + if m.pool.tickCurrentIndex < t then delta else 0)
  {
    var g, o := Growth(m.pool, k), Outside(TickAt(m.ticks, t), k);
    if m.pool.tickCurrentIndex < t {
      WrappedDifferenceShifts(g, o, delta);
    } else {
      CongruentReflexive(o);
    }
  }

  lemma WrappedDifferenceShifts(g: u128, o: u128, delta: u128)
    ensures Congruent(WrapSub(WrapAdd(g, delta), o), WrapSub(g, o) + delta)
  {
    var turns := (if g + delta < TWO_128 then 0 else -1) + (if o <= WrapAdd(g, delta) then 0 else 1) - (if o <= g then 0 else 1);
    assert WrapSub(WrapAdd(g, delta), o) - (WrapSub(g, o) + delta) == Turns(turns);
  }

  lemma BelowOfOtherStreams(m: Machine, k: Stream, delta: u128, budgetX64: nat, j: Stream, t: int)
    requires j != k
    ensures Below(Grow(m, k, delta, budgetX64), j, t) == Below(m, j, t)
  {
  }

  /** Growth counts for a range when it lies below its upper but not below its lower tick. */
  lemma GrowthCountsInside(below: int, below': int, above: int, above': int, checkpoint: int,
                           earned: int, low: int, high: int)
    requires Congruent(above - below - checkpoint, earned)
    requires Congruent(below', below + low) && Congruent(above', above + high)
    ensures Congruent(above' - below' - checkpoint, earned + high - low)
  {
    CongruentSum(above', above + high, below', below + low);
    CongruentReflexive(high - low);
    CongruentSum(above - below - checkpoint, earned, high - low, high - low);
    CongruentReflexive(checkpoint);
    CongruentSum(above' - below', above + high - (below + low), checkpoint, checkpoint);
    CongruentTransitive(above' - below' - checkpoint, above + high - (below + low) - checkpoint, earned + (high - low));
  }

  lemma GrownStreamKeepsAgreement(m: Machine, m': Machine, k: Stream, delta: u128, budgetX64: nat, i: int)
    requires WellFormed(m) && (forall t :: TickBooks(m.positions, m.ticks, t)) && Active(m.pool, k)
    requires m' == Grow(m, k, delta, budgetX64) && 0 <= i < |m.positions| && m.positions[i].liquidity > 0
    requires Agrees(m, i, k)
    ensures Agrees(m', i, k)
  {
    var p := m.positions[i];
    var l, u, c := p.tickLowerIndex, p.tickUpperIndex, m.pool.tickCurrentIndex;
    LiquidityKeepsTicks(m.positions, m.ticks, i, l);
    LiquidityKeepsTicks(m.positions, m.ticks, i, u);
    BelowAfterGrow(m, k, delta, budgetX64, l);
    BelowAfterGrow(m, k, delta, budgetX64, u);
    GrowthCountsInside(Below(m, k, l), Below(m', k, l), Below(m, k, u), Below(m', k, u), Checkpoint(p, k),
                       EarnedSince(m, i, k), if c < l then delta else 0, if c < u then delta else 0);
    EarnedAfterGrow(m, k, delta, budgetX64, i, k);
  }

  lemma GrowKeepsAgreement(m: Machine, k: Stream, delta: u128, budgetX64: nat, i: int, j: Stream)
    requires WellFormed(m) && (forall t :: TickBooks(m.positions, m.ticks, t)) && Active(m.pool, k)
    requires 0 <= i < |m.positions| && Agrees(m, i, j)
    ensures Agrees(Grow(m, k, delta, budgetX64), i, j)
  {
    var p := m.positions[i];
    var m' := Grow(m, k, delta, budgetX64);
    if p.liquidity > 0 && j == k {
      GrownStreamKeepsAgreement(m, m', k, delta, budgetX64, i);
    } else if p.liquidity > 0 {
      EarnedAfterGrow(m, k, delta, budgetX64, i, j);
      BelowOfOtherStreams(m, k, delta, budgetX64, j, p.tickLowerIndex);
      BelowOfOtherStreams(m, k, delta, budgetX64, j, p.tickUpperIndex);
    }
  }

  lemma ClaimAfterGrow(m: Machine, k: Stream, delta: u128, budgetX64: nat, j: Stream, i: int)
    requires WellFormed(m) && 0 <= i < |m.positions|
    ensures ClaimOf(Grow(m, k, delta, budgetX64), j)(i) == ClaimOf(m, j)(i) +
      (if j == k then delta else 0) * ActiveOf(m.positions, m.pool.tickCurrentIndex)(i)
  {
    EarnedAfterGrow(m, k, delta, budgetX64, i, j);
    var p := m.positions[i];
    var more := if j == k && p.tickLowerIndex <= m.pool.tickCurrentIndex < p.tickUpperIndex then delta else 0;
    assert p.liquidity * (EarnedSince(m, i, j) + more) == p.liquidity * EarnedSince(m, i, j) + p.liquidity * more;
  }

  /** The claims grow by delta per unit of liquidity in range. */
  lemma ClaimsAfterGrow(m: Machine, k: Stream, delta: u128, budgetX64: nat, j: Stream)
    requires WellFormed(m)
    ensures SumTo(|m.positions|, ClaimOf(Grow(m, k, delta, budgetX64), j)) == SumTo(|m.positions|, ClaimOf(m, j)) +
      (if j == k then delta * ActiveAt(m.positions, m.pool.tickCurrentIndex) else 0)
  {
    var m' := Grow(m, k, delta, budgetX64);
    var n := |m.positions|;
    var step := if j == k then delta else 0;
    var active := ActiveOf(m.positions, m.pool.tickCurrentIndex);
    var extra := (i: int) => step * active(i);
    forall i | 0 <= i < n
      ensures ClaimOf(m', j)(i) == ClaimOf(m, j)(i) + extra(i)
    {
      ClaimAfterGrow(m, k, delta, budgetX64, j, i);
    }
    SumScaled(n, step, active, extra);
    SumPlus(n, ClaimOf(m, j), extra, ClaimOf(m', j));
  }

  /** The new budget covers the new claims. */
  lemma GrowKeepsSolvency(m: Machine, k: Stream, delta: u128, budgetX64: nat, j: Stream)
    requires WellFormed(m) && m.pool.liquidity == ActiveAt(m.positions, m.pool.tickCurrentIndex)
    requires m.pool.liquidity * delta <= budgetX64
    requires Solvent(m, j)
    ensures Solvent(Grow(m, k, delta, budgetX64), j)
  {
    ClaimsAfterGrow(m, k, delta, budgetX64, j);
    Append(m.log, Grew(k, m.pool.tickCurrentIndex, delta, budgetX64), j, 0, 0);
    SumAgrees(|m.positions|, OwedOf(m, j), OwedOf(Grow(m, k, delta, budgetX64), j));
  }

  lemma GrowKeepsInv(m: Machine, k: Stream, delta: u128, budgetX64: nat)
    requires Inv(m) && Active(m.pool, k) && m.pool.liquidity * delta <= budgetX64
    ensures Inv(Grow(m, k, delta, budgetX64))
  {
    var m' := Grow(m, k, delta, budgetX64);
    forall j
      ensures StreamInvariant(m', j)
    {
      assert StreamInvariant(m, j);
      forall i | 0 <= i < |m'.positions|
        ensures Agrees(m', i, j)
      {
        GrowKeepsAgreement(m, k, delta, budgetX64, i, j);
      }
      GrowKeepsSolvency(m, k, delta, budgetX64, j);
    }
    BooksIgnoreGrowth(m.positions, m.ticks, m.pool, m'.pool);
  }

  lemma BooksIgnoreGrowth(ps: Positions, ticks: Ticks, pool: Pool, pool': Pool)
    requires BooksBalance(ps, ticks, pool)
    requires pool'.liquidity == pool.liquidity && pool'.tickCurrentIndex == pool.tickCurrentIndex
    ensures BooksBalance(ps, ticks, pool')
  {
  }
}
