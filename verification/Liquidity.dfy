/** Changing a position's liquidity, zero included, keeps the invariant. */
module Liquidity {
  import opened Words
  import FixedPoint
  import opened State
  import opened TickManager
  import PoolManager
  import opened PositionManager
  import LiquidityManager
  import opened Ledger
  import opened Machine
  import Sums
  import opened Books
  import opened Invariant
  import Steps

  // ---- Reduction to the current time -------------------------------------------------------------------

  /** Once rewards are up to date, updating them again does nothing. */
  lemma AdvanceTwice(m: Machine, timestamp: u64)
    requires AdvanceTo(m, timestamp).Ok?
    ensures
      var now := AdvanceTo(m, timestamp).value;
      && PoolManager.NextPoolRewardInfos(now.pool, timestamp) == Ok(now.pool.rewardInfos)
      && RewardEvents(now.pool, timestamp) == []
      && AdvanceTo(now, timestamp) == Ok(now)
  {
    var now := AdvanceTo(m, timestamp).value;
    assert now.log + [] == now.log;
  }

  /** A liquidity change is the same as bringing rewards up to date first and changing it then. */
  lemma ModifyFactors(m: Machine, id: int, delta: i128, timestamp: u64)
    requires AdvanceTo(m, timestamp).Ok?
    ensures ModifyLiquidity(m, id, delta, timestamp)
         == ModifyLiquidity(AdvanceTo(m, timestamp).value, id, delta, timestamp)
  {
    AdvanceTwice(m, timestamp);
    var now := AdvanceTo(m, timestamp).value;
    if 0 <= id < |m.positions| {
      var position := m.positions[id];
      var lower, upper := TickAt(m.ticks, position.tickLowerIndex), TickAt(m.ticks, position.tickUpperIndex);
      assert LiquidityManager.CalculateModifyLiquidity(m.pool, position, lower, upper, delta, timestamp)
          == LiquidityManager.CalculateModifyLiquidity(now.pool, position, lower, upper, delta, timestamp);
      assert now.log + RewardEvents(now.pool, timestamp) == m.log + RewardEvents(m.pool, timestamp);
    }
  }

  // ---- The update of one position, at the current time ------------------------------------------------------

  /** What a successful change does, part by part. */
  ghost predicate Changes(m: Machine, m': Machine, id: int, delta: i128) {
    && 0 <= id < |m.positions| == |m'.positions|
    && ChangesAccounts(m, m', id, delta)
    && ChangesPosition(m, m', id, delta)
  }

  /** The pool and the two ticks change, and nothing else but one position and the ledger. */
  ghost predicate ChangesAccounts(m: Machine, m': Machine, id: int, delta: i128)
    requires 0 <= id < |m.positions| == |m'.positions|
  {
    var p := m.positions[id];
    var l, u := p.tickLowerIndex, p.tickUpperIndex;
    && m' == m.(pool := m.pool.(liquidity := m'.pool.liquidity), ticks := m'.ticks,
                positions := m.positions[id := m'.positions[id]], since := m.since[id := |m.log|], credits := m'.credits)
    && PoolManager.NextPoolLiquidity(m.pool, u, l, delta) == Ok(m'.pool.liquidity)
    && TickChange(m, l, delta, false) == Ok(TickAt(m'.ticks, l))
    && TickChange(m, u, delta, true) == Ok(TickAt(m'.ticks, u))
    && (forall t :: t != l && t != u ==> TickAt(m'.ticks, t) == TickAt(m.ticks, t))
  }

  /** The position's liquidity changes, its checkpoints move, and it is owed what it is credited. */
  ghost predicate ChangesPosition(m: Machine, m': Machine, id: int, delta: i128)
    requires 0 <= id < |m.positions| == |m'.positions|
  {
    var p, p' := m.positions[id], m'.positions[id];
    var l, u := p.tickLowerIndex, p.tickUpperIndex;
    && FixedPoint.AddLiquidityDelta(p.liquidity, delta) == Ok(p'.liquidity)
    && p'.tickLowerIndex == l && p'.tickUpperIndex == u
    && (forall k :: Checkpoint(p', k) == RangeGrowth(m, l, u, k))
    && (forall k :: Owed(p', k)
                 == WrapAdd64(Owed(p, k), Credit(p.liquidity, RangeGrowth(m, l, u, k), Checkpoint(p, k))))
  }

  /** What the position is credited is put on record. */
  ghost predicate RecordsCredits(m: Machine, m': Machine, id: int)
    requires 0 <= id < |m.positions|
  {
    m'.credits == m.credits + SettlementCredits(m.pool, m.ticks, m.positions[id])
  }

  lemma ModifyAccounts(m: Machine, id: int, delta: i128, timestamp: u64)
    requires 0 <= id < |m.positions| && m.pool.rewardLastUpdatedTimestamp == timestamp
    requires m.positions[id].tickLowerIndex < m.positions[id].tickUpperIndex
    requires ModifyLiquidity(m, id, delta, timestamp).Ok?
    ensures ChangesAccounts(m, ModifyLiquidity(m, id, delta, timestamp).value, id, delta)
  {
    assert RewardEvents(m.pool, timestamp) == [];
    assert m.log + [] == m.log;
  }

  lemma ModifyPosition(m: Machine, id: int, delta: i128, timestamp: u64)
    requires 0 <= id < |m.positions| && m.pool.rewardLastUpdatedTimestamp == timestamp
    requires ModifyLiquidity(m, id, delta, timestamp).Ok?
    ensures ChangesPosition(m, ModifyLiquidity(m, id, delta, timestamp).value, id, delta)
  {
    var p, p' := m.positions[id], ModifyLiquidity(m, id, delta, timestamp).value.positions[id];
    var l, u := p.tickLowerIndex, p.tickUpperIndex;
    var pool, lower, upper := m.pool, TickAt(m.ticks, l), TickAt(m.ticks, u);
    var (a, b) := NextFeeGrowthsInside(pool.tickCurrentIndex, lower, l, upper, u,
                                       pool.feeGrowthGlobalA, pool.feeGrowthGlobalB);
    var rewards := NextRewardGrowthsInside(pool.tickCurrentIndex, lower, l, upper, u, pool.rewardInfos);
    forall k
      ensures Checkpoint(p', k) == RangeGrowth(m, l, u, k)
      ensures Owed(p', k) == WrapAdd64(Owed(p, k), Credit(p.liquidity, RangeGrowth(m, l, u, k), Checkpoint(p, k)))
    {
      SettledStream(p, delta, a, b, rewards, k);
    }
  }

  /** A settlement moves the checkpoint of a stream to the growth inside, and owes the credit. */
  lemma SettledStream(p: Position, delta: i128, a: u128, b: u128, rewards: Growths, k: Stream)
    requires NextPositionModifyLiquidityUpdate(p, delta, a, b, rewards).Ok?
    ensures
      var p' := NextPositionModifyLiquidityUpdate(p, delta, a, b, rewards).value;
      var inside := match k case FeeA => a case FeeB => b case Reward(i) => rewards[i];
      Checkpoint(p', k) == inside && Owed(p', k) == WrapAdd64(Owed(p, k), Credit(p.liquidity, inside, Checkpoint(p, k)))
  {
  }

  lemma ModifyParts(m: Machine, id: int, delta: i128, timestamp: u64)
    requires 0 <= id < |m.positions| && m.pool.rewardLastUpdatedTimestamp == timestamp
    requires m.positions[id].tickLowerIndex < m.positions[id].tickUpperIndex
    requires ModifyLiquidity(m, id, delta, timestamp).Ok?
    ensures Changes(m, ModifyLiquidity(m, id, delta, timestamp).value, id, delta)
    ensures RecordsCredits(m, ModifyLiquidity(m, id, delta, timestamp).value, id)
  {
    ModifyAccounts(m, id, delta, timestamp);
    ModifyPosition(m, id, delta, timestamp);
  }

  function TickChange(m: Machine, t: int, delta: i128, isUpper: bool): Result<Tick> {
    NextTickModifyLiquidityUpdate(TickAt(m.ticks, t), t, m.pool.tickCurrentIndex, m.pool.feeGrowthGlobalA,
                                  m.pool.feeGrowthGlobalB, m.pool.rewardInfos, delta, isUpper)
  }

  /** Growth inside a range as the program computes it. */
  function RangeGrowth(m: Machine, l: int, u: int, k: Stream): u128 {
    InsideOf(m.pool, TickAt(m.ticks, l), l, TickAt(m.ticks, u), u, k)
  }

  lemma RangeGrowthIsDifference(m: Machine, l: int, u: int, k: Stream)
    ensures RangeGrowth(m, l, u, k) == WrapSub(Below(m, k, u), Below(m, k, l))
    ensures Congruent(RangeGrowth(m, l, u, k), Below(m, k, u) - Below(m, k, l))
  {
    InsideIsDifference(m.pool, TickAt(m.ticks, l), l, TickAt(m.ticks, u), u, k);
    WrapSubCongruent(Below(m, k, u), Below(m, k, l));
  }

  // ---- Books -------------------------------------------------------------------------------------------------

  /** A tick whose last liquidity leaves is cleared without computing its net amount, which is zero anyway. */
  lemma TickBooksAfterChange(ps: Positions, ps': Positions, m: Machine, t: int, delta: i128, isUpper: bool)
    requires TickBooks(ps, m.ticks, t) && TickChange(m, t, delta, isUpper).Ok?
    requires GrossAt(ps', t) == GrossAt(ps, t) + delta
    requires NetAt(ps', t) == NetAt(ps, t) + if isUpper then -(delta as int) else delta
    ensures
      var tick := TickChange(m, t, delta, isUpper).value;
      && tick.liquidityGross == GrossAt(ps', t)
      && tick.liquidityNet == NetAt(ps', t)
      && (tick.initialized <==> tick.liquidityGross > 0)
  {
    NetBoundedByGross(ps', t);
  }

  lemma ChangeKeepsTickBooks(m: Machine, m': Machine, id: int, delta: i128, t: int)
    requires Changes(m, m', id, delta) && TickBooks(m.positions, m.ticks, t)
    requires m.positions[id].tickLowerIndex < m.positions[id].tickUpperIndex
    ensures TickBooks(m'.positions, m'.ticks, t)
  {
    SumsAfterUpdate(m.positions, id, m'.positions[id], t);
    if t == m.positions[id].tickLowerIndex {
      TickBooksAfterChange(m.positions, m'.positions, m, t, delta, false);
    } else if t == m.positions[id].tickUpperIndex {
      TickBooksAfterChange(m.positions, m'.positions, m, t, delta, true);
    }
  }

  lemma ChangeKeepsBooks(m: Machine, m': Machine, id: int, delta: i128)
    requires WellFormed(m) && BooksBalance(m.positions, m.ticks, m.pool) && Changes(m, m', id, delta)
    ensures BooksBalance(m'.positions, m'.ticks, m'.pool)
  {
    forall t
      ensures TickBooks(m'.positions, m'.ticks, t)
    {
      ChangeKeepsTickBooks(m, m', id, delta, t);
    }
    SumsAfterUpdate(m.positions, id, m'.positions[id], m.pool.tickCurrentIndex);
  }

  // ---- Streams -------------------------------------------------------------------------------------------------

  /** A tick that is not cleared attributes growth as before. */
  lemma ChangedTickKeepsBelow(m: Machine, m': Machine, t: int, delta: i128, isUpper: bool, k: Stream)
    requires TickBooks(m.positions, m.ticks, t)
    requires TickChange(m, t, delta, isUpper) == Ok(TickAt(m'.ticks, t))
    requires TickAt(m.ticks, t).initialized ==> TickAt(m'.ticks, t).initialized
    requires m'.pool == m.pool.(liquidity := m'.pool.liquidity)
    ensures Below(m', k, t) == Below(m, k, t)
  {
    ModifyKeepsAttribution(m.pool, TickAt(m.ticks, t), t, delta, isUpper, k);
  }

  lemma BelowUnlessCleared(m: Machine, m': Machine, id: int, delta: i128, t: int, k: Stream)
    requires TickBooks(m.positions, m.ticks, t) && Changes(m, m', id, delta)
    requires TickAt(m.ticks, t).initialized ==> TickAt(m'.ticks, t).initialized
    ensures Below(m', k, t) == Below(m, k, t)
  {
    if t == m.positions[id].tickLowerIndex {
      ChangedTickKeepsBelow(m, m', t, delta, false, k);
    } else if t == m.positions[id].tickUpperIndex {
      ChangedTickKeepsBelow(m, m', t, delta, true, k);
    }
  }

  /** The ticks of a position with liquidity afterwards attribute growth as before. */
  lemma ChangeKeepsBelow(m: Machine, m': Machine, id: int, delta: i128, i: int, t: int, k: Stream)
    requires TickBooks(m.positions, m.ticks, t) && TickBooks(m'.positions, m'.ticks, t)
    requires Changes(m, m', id, delta) && 0 <= i < |m'.positions|
    requires EndsAt(m'.positions[i], t) > 0
    ensures Below(m', k, t) == Below(m, k, t)
  {
    LiquidityKeepsTicks(m'.positions, m'.ticks, i, t);
    BelowUnlessCleared(m, m', id, delta, t, k);
  }

  /** A settled position starts over with nothing earned. */
  lemma NothingEarnedYet(m: Machine, m': Machine, id: int, delta: i128, k: Stream)
    requires Changes(m, m', id, delta)
    ensures EarnedSince(m', id, k) == 0
  {
    assert m'.log[m'.since[id]..] == [];
  }

  /** The settled position agrees by starting over, the others because nothing moved. */
  lemma ChangeKeepsAgreement(m: Machine, m': Machine, id: int, delta: i128, i: int, k: Stream)
    requires WellFormed(m) && Changes(m, m', id, delta)
    requires forall t :: TickBooks(m.positions, m.ticks, t)
    requires forall t :: TickBooks(m'.positions, m'.ticks, t)
    requires 0 <= i < |m.positions| && Agrees(m, i, k)
    ensures Agrees(m', i, k)
  {
    var p := m'.positions[i];
    if p.liquidity > 0 {
      ChangeKeepsBelow(m, m', id, delta, i, p.tickLowerIndex, k);
      ChangeKeepsBelow(m, m', id, delta, i, p.tickUpperIndex, k);
      if i == id {
        SettledAgrees(m, m', id, delta, k);
      }
    }
  }

  lemma SettledAgrees(m: Machine, m': Machine, id: int, delta: i128, k: Stream)
    requires Changes(m, m', id, delta)
    requires Below(m', k, m.positions[id].tickLowerIndex) == Below(m, k, m.positions[id].tickLowerIndex)
    requires Below(m', k, m.positions[id].tickUpperIndex) == Below(m, k, m.positions[id].tickUpperIndex)
    ensures Agrees(m', id, k)
  {
    var l, u := m.positions[id].tickLowerIndex, m.positions[id].tickUpperIndex;
    RangeGrowthIsDifference(m, l, u, k);
    NothingEarnedYet(m, m', id, delta, k);
    ResetAgrees(RangeGrowth(m, l, u, k), Below(m, k, u) - Below(m, k, l));
  }

  lemma ResetAgrees(a: int, b: int)
    requires Congruent(a, b)
    ensures Congruent(b - a, 0)
  {
    CongruentReflexive(b);
    CongruentSum(b, b, a, b);
  }

  lemma SettlementMeetsLedger(m: Machine, id: int, k: Stream)
    requires 0 <= id < |m.positions| && Agrees(m, id, k) && m.positions[id].liquidity > 0
    ensures
      var p := m.positions[id];
      Congruent(RangeGrowth(m, p.tickLowerIndex, p.tickUpperIndex, k) - Checkpoint(p, k), EarnedSince(m, id, k))
  {
    var p := m.positions[id];
    var l, u := p.tickLowerIndex, p.tickUpperIndex;
    RangeGrowthIsDifference(m, l, u, k);
    CongruentReflexive(Checkpoint(p, k));
    CongruentSum(RangeGrowth(m, l, u, k), Below(m, k, u) - Below(m, k, l), Checkpoint(p, k), Checkpoint(p, k));
    CongruentTransitive(RangeGrowth(m, l, u, k) - Checkpoint(p, k), Below(m, k, u) - Below(m, k, l) - Checkpoint(p, k),
                        EarnedSince(m, id, k));
  }

  /** A settlement turns a claim on growth into a credit worth no more, and its floor when it fits. */
  lemma CreditMeetsClaim(m: Machine, id: int, k: Stream)
    requires 0 <= id < |m.positions| && Agrees(m, id, k)
    ensures
      var p, earned := m.positions[id], EarnedSince(m, id, k);
      var credit := CreditDue(m.pool, m.ticks, p, k);
      && TWO_64 * credit <= p.liquidity * earned
      && (p.liquidity * earned < TWO_128 ==> credit == p.liquidity * earned / TWO_64)
  {
    var p := m.positions[id];
    if p.liquidity > 0 {
      SettlementMeetsLedger(m, id, k);
      CreditIsFloor(p.liquidity, RangeGrowth(m, p.tickLowerIndex, p.tickUpperIndex, k), Checkpoint(p, k),
                    EarnedSince(m, id, k));
    }
  }

  /** A settlement is credited once, in every stream. */
  lemma SettlementIsCredited(m: Machine, m': Machine, id: int, k: Stream)
    requires 0 <= id < |m.positions| && RecordsCredits(m, m', id)
    ensures CreditedTotal(m'.credits, k) == CreditedTotal(m.credits, k) + CreditDue(m.pool, m.ticks, m.positions[id], k)
  {
    var c := SettlementCredits(m.pool, m.ticks, m.positions[id]);
    assert m'.credits == m.credits + [c[0]] + [c[1]] + [c[2]] + [c[3]] + [c[4]];
    AppendCredit(m.credits, c[0], k);
    AppendCredit(m.credits + [c[0]], c[1], k);
    AppendCredit(m.credits + [c[0]] + [c[1]], c[2], k);
    AppendCredit(m.credits + [c[0]] + [c[1]] + [c[2]], c[3], k);
    AppendCredit(m.credits + [c[0]] + [c[1]] + [c[2]] + [c[3]], c[4], k);
  }

  /** The credit comes out of the claim. */
  lemma ChangeKeepsFunded(m: Machine, m': Machine, id: int, delta: i128, k: Stream)
    requires Changes(m, m', id, delta) && RecordsCredits(m, m', id) && Agrees(m, id, k) && Funded(m, k)
    ensures Funded(m', k)
  {
    CreditMeetsClaim(m, id, k);
    NothingEarnedYet(m, m', id, delta, k);
    SettlementIsCredited(m, m', id, k);
    Sums.SumPoint(|m.positions|, id, ClaimOf(m, k), ClaimOf(m', k));
  }

  /** The amount owed grows by the credit, or loses 2^64 on the way. */
  lemma ChangeKeepsCovered(m: Machine, m': Machine, id: int, delta: i128, k: Stream)
    requires Changes(m, m', id, delta) && RecordsCredits(m, m', id) && Covered(m, k)
    ensures Covered(m', k)
  {
    SettlementIsCredited(m, m', id, k);
    Sums.SumPoint(|m.positions|, id, OwedOf(m, k), OwedOf(m', k));
  }

  lemma ChangeKeepsDormancy(m: Machine, m': Machine, id: int, delta: i128, k: Stream)
    requires Changes(m, m', id, delta) && Dormant(m, k)
    ensures Dormant(m', k)
  {
    if !Active(m.pool, k) {
      forall t
        ensures Outside(TickAt(m'.ticks, t), k) == 0
      {
        assert Outside(TickAt(m.ticks, t), k) == 0;
      }
    }
  }

  lemma ChangeKeepsInv(m: Machine, m': Machine, id: int, delta: i128)
    requires Inv(m) && Changes(m, m', id, delta) && RecordsCredits(m, m', id)
    ensures Inv(m')
  {
    ChangeKeepsBooks(m, m', id, delta);
    forall k
      ensures StreamInvariant(m', k)
    {
      assert StreamInvariant(m, k);
      forall i | 0 <= i < |m'.positions|
        ensures Agrees(m', i, k)
      {
        ChangeKeepsAgreement(m, m', id, delta, i, k);
      }
      ChangeKeepsFunded(m, m', id, delta, k);
      ChangeKeepsCovered(m, m', id, delta, k);
      ChangeKeepsDormancy(m, m', id, delta, k);
    }
  }

  lemma ModifyKeepsInv(m: Machine, id: int, delta: i128, timestamp: u64)
    requires Inv(m)
    ensures ModifyLiquidity(m, id, delta, timestamp).Ok? ==> Inv(ModifyLiquidity(m, id, delta, timestamp).value)
  {
    if ModifyLiquidity(m, id, delta, timestamp).Ok? {
      Steps.AdvanceKeepsInv(m, timestamp);
      ModifyFactors(m, id, delta, timestamp);
      var now := AdvanceTo(m, timestamp).value;
      ModifyParts(now, id, delta, timestamp);
      ChangeKeepsInv(now, ModifyLiquidity(now, id, delta, timestamp).value, id, delta);
    }
  }
}
