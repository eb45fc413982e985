/** The remaining instructions keep the invariant, and so does every possible run. */
module Runs {
  import opened Words
  import FixedPoint
  import opened State
  import Instructions
  import opened Ledger
  import opened Machine
  import opened Sums
  import opened Books
  import opened Invariant
  import Steps
  import Liquidity

  // ---- The remaining instructions ------------------------------------------------------------------------

  /** A new position has no liquidity and is owed nothing. */
  ghost predicate Opens(m: Machine, m': Machine, p: Position) {
    && m' == m.(positions := m.positions + [p], since := m.since[|m.positions| := |m.log|])
    && p.liquidity == 0
    && MIN_TICK_INDEX <= p.tickLowerIndex < p.tickUpperIndex <= MAX_TICK_INDEX
    && forall k :: Owed(p, k) == 0
  }

  lemma OpenKeepsSolvency(m: Machine, m': Machine, p: Position, k: Stream)
    requires Opens(m, m', p) && Solvent(m, k)
    ensures Solvent(m', k)
  {
    SumAgrees(|m.positions|, ClaimOf(m, k), ClaimOf(m', k));
    SumAgrees(|m.positions|, OwedOf(m, k), OwedOf(m', k));
  }

  lemma OpenKeepsStream(m: Machine, m': Machine, p: Position, k: Stream)
    requires Opens(m, m', p) && StreamInvariant(m, k)
    ensures StreamInvariant(m', k)
  {
    forall i | 0 <= i < |m.positions|
      ensures Agrees(m', i, k)
    {
      assert Agrees(m, i, k);
    }
    OpenKeepsSolvency(m, m', p, k);
  }

  lemma OpenKeepsBooks(m: Machine, m': Machine, p: Position)
    requires Opens(m, m', p) && BooksBalance(m.positions, m.ticks, m.pool)
    ensures BooksBalance(m'.positions, m'.ticks, m'.pool)
  {
    forall t
      ensures TickBooks(m'.positions, m'.ticks, t)
    {
      assert TickBooks(m.positions, m.ticks, t);
      SumsAfterOpen(m.positions, p, t);
    }
    SumsAfterOpen(m.positions, p, m.pool.tickCurrentIndex);
  }

  lemma OpenKeepsInv(m: Machine, lower: int, upper: int)
    requires Inv(m) && OpenPositionStep(m, lower, upper).Ok?
    ensures Inv(OpenPositionStep(m, lower, upper).value)
  {
    var m' := OpenPositionStep(m, lower, upper).value;
    var p := OpenPosition(m.pool.tickSpacing, lower, upper).value;
    OpenKeepsBooks(m, m', p);
    forall k
      ensures StreamInvariant(m', k)
    {
      assert StreamInvariant(m, k);
      OpenKeepsStream(m, m', p, k);
    }
  }

  lemma InitializeRewardKeepsInv(m: Machine, index: int)
    requires Inv(m) && InitializeRewardStep(m, index).Ok?
    ensures Inv(InitializeRewardStep(m, index).value)
  {
    var m' := InitializeRewardStep(m, index).value;
    forall k
      ensures StreamInvariant(m', k)
    {
      assert StreamInvariant(m, k);
      forall t
        ensures Below(m', k, t) == Below(m, k, t)
      {
        assert Active(m.pool, k) || Outside(TickAt(m.ticks, t), k) == 0;
      }
      forall i | 0 <= i < |m'.positions|
        ensures Agrees(m', i, k)
      {
        assert Agrees(m, i, k);
      }
      SumAgrees(|m.positions|, ClaimOf(m, k), ClaimOf(m', k));
      SumAgrees(|m.positions|, OwedOf(m, k), OwedOf(m', k));
    }
    BooksIgnoreGrowth(m.positions, m.ticks, m.pool, m'.pool);
  }

  /** A payment: one position is owed less of one stream, and the log says so. */
  ghost predicate Pays(m: Machine, m': Machine, id: int, k: Stream, amount: nat) {
    && 0 <= id < |m.positions| == |m'.positions|
    && var p, p' := m.positions[id], m'.positions[id];
    && m' == m.(positions := m.positions[id := p'], log := m.log + [Paid(k, amount)])
    && p'.tickLowerIndex == p.tickLowerIndex && p'.tickUpperIndex == p.tickUpperIndex && p'.liquidity == p.liquidity
    && (forall j :: Checkpoint(p', j) == Checkpoint(p, j))
    && (forall j :: Owed(p', j) + (if j == k then amount else 0) == Owed(p, j))
  }

  lemma EarnedAfterPayment(m: Machine, m': Machine, id: int, k: Stream, amount: nat, i: int, j: Stream)
    requires WellFormed(m) && Pays(m, m', id, k, amount) && 0 <= i < |m.positions|
    ensures EarnedSince(m', i, j) == EarnedSince(m, i, j)
  {
    AppendSince(m.log, m.since[i], Paid(k, amount), j, m.positions[i].tickLowerIndex, m.positions[i].tickUpperIndex);
  }

  lemma PaymentKeepsFunded(m: Machine, m': Machine, id: int, k: Stream, amount: nat, j: Stream)
    requires WellFormed(m) && Pays(m, m', id, k, amount) && Funded(m, j)
    ensures Funded(m', j)
  {
    forall i | 0 <= i < |m.positions|
      ensures ClaimOf(m', j)(i) == ClaimOf(m, j)(i)
    {
      EarnedAfterPayment(m, m', id, k, amount, i, j);
    }
    SumAgrees(|m.positions|, ClaimOf(m, j), ClaimOf(m', j));
    Append(m.log, Paid(k, amount), j, 0, 0);
  }

  lemma PaymentKeepsCovered(m: Machine, m': Machine, id: int, k: Stream, amount: nat, j: Stream)
    requires Pays(m, m', id, k, amount) && Covered(m, j)
    ensures Covered(m', j)
  {
    SumPoint(|m.positions|, id, OwedOf(m, j), OwedOf(m', j));
    Append(m.log, Paid(k, amount), j, 0, 0);
  }

  lemma PaymentKeepsInv(m: Machine, m': Machine, id: int, k: Stream, amount: nat)
    requires Inv(m) && Pays(m, m', id, k, amount)
    ensures Inv(m')
  {
    forall t
      ensures TickBooks(m'.positions, m'.ticks, t)
    {
      assert TickBooks(m.positions, m.ticks, t);
      SumsAfterUpdate(m.positions, id, m'.positions[id], t);
    }
    SumsAfterUpdate(m.positions, id, m'.positions[id], m.pool.tickCurrentIndex);
    forall j
      ensures StreamInvariant(m', j)
    {
      assert StreamInvariant(m, j);
      forall i | 0 <= i < |m'.positions|
        ensures Agrees(m', i, j)
      {
        assert Agrees(m, i, j);
        EarnedAfterPayment(m, m', id, k, amount, i, j);
      }
      PaymentKeepsFunded(m, m', id, k, amount, j);
      PaymentKeepsCovered(m, m', id, k, amount, j);
    }
  }

  lemma CollectRewardKeepsInv(m: Machine, id: int, index: int, vaultAmount: u64)
    requires Inv(m) && CollectReward(m, id, index, vaultAmount).Ok?
    ensures Inv(CollectReward(m, id, index, vaultAmount).value)
  {
    var m' := CollectReward(m, id, index, vaultAmount).value;
    var (transfer, left) := Instructions.CalculateCollectReward(m.positions[id].rewardInfos[index].amountOwed, vaultAmount);
    PaymentKeepsInv(m, m', id, Reward(index), transfer);
  }

  lemma CollectFeesKeepsInv(m: Machine, id: int, vaultA: u64, vaultB: u64)
    requires Inv(m) && CollectFees(m, id, vaultA, vaultB).Ok?
    ensures Inv(CollectFees(m, id, vaultA, vaultB).value)
  {
    var p := m.positions[id];
    var half := m.(positions := m.positions[id := p.(feeOwedA := 0)], log := m.log + [Paid(FeeA, p.feeOwedA)]);
    PaymentKeepsInv(m, half, id, FeeA, p.feeOwedA);
    var m' := CollectFees(m, id, vaultA, vaultB).value;
    assert m'.positions == half.positions[id := m'.positions[id]];
    PaymentKeepsInv(half, m', id, FeeB, p.feeOwedB);
  }

  lemma SetEmissionsKeepsInv(m: Machine, index: int, rate: u128, vaultAmount: u64, timestamp: u64)
    requires Inv(m) && SetRewardEmissions(m, index, rate, vaultAmount, timestamp).Ok?
    ensures Inv(SetRewardEmissions(m, index, rate, vaultAmount, timestamp).value)
  {
    Steps.AdvanceKeepsInv(m, timestamp);
    Steps.SettingsKeepInv(AdvanceTo(m, timestamp).value, SetRewardEmissions(m, index, rate, vaultAmount, timestamp).value);
  }

  // ---- Runs -----------------------------------------------------------------------------------------------

  lemma InstructionKeepsInv(m: Machine, op: Instruction)
    requires Inv(m) && Possible(m, op)
    ensures Inv(After(m, op))
  {
    if Execute(m, op).Ok? {
      match op
      case DoOpenPosition(lower, upper) => OpenKeepsInv(m, lower, upper);
      case DoInitializeReward(index) => InitializeRewardKeepsInv(m, index);
      case DoIncrease(id, amount, terms, timestamp) =>
        Liquidity.ModifyKeepsInv(m, id, FixedPoint.ConvertToLiquidityDelta(amount, true).value, timestamp);
      case DoDecrease(id, amount, terms, timestamp) =>
        Liquidity.ModifyKeepsInv(m, id, FixedPoint.ConvertToLiquidityDelta(amount, false).value, timestamp);
      case DoUpdateFeesAndRewards(id, timestamp) => Liquidity.ModifyKeepsInv(m, id, 0, timestamp);
      case DoCollectReward(id, index, vaultAmount) => CollectRewardKeepsInv(m, id, index, vaultAmount);
      case DoCollectFees(id, vaultA, vaultB) => CollectFeesKeepsInv(m, id, vaultA, vaultB);
      case DoSetEmissions(index, rate, vaultAmount, timestamp) =>
        SetEmissionsKeepsInv(m, index, rate, vaultAmount, timestamp);
      case DoSwap(aToB, legs, timestamp) => Steps.SwapKeepsInv(m, aToB, legs, timestamp);
    }
  }

  lemma GenesisHasInv(tickSpacing: u16, protocolFeeRate: ProtocolFeeRate, current: int)
    ensures Inv(Genesis(tickSpacing, protocolFeeRate, current))
  {
    var m := Genesis(tickSpacing, protocolFeeRate, current);
    forall t
      ensures TickBooks(m.positions, m.ticks, t)
    {
    }
  }

  lemma {:induction false} RunKeepsInv(m: Machine, ops: seq<Instruction>)
    requires Inv(m) && PossibleRun(m, ops)
    ensures Inv(Run(m, ops))
    decreases |ops|
  {
    if ops == [] {
    } else {
      InstructionKeepsInv(m, ops[0]);
      RunKeepsInv(After(m, ops[0]), ops[1..]);
    }
  }

  lemma ReachableHasInv(m: Machine)
    requires Reachable(m)
    ensures Inv(m)
  {
    var tickSpacing, protocolFeeRate, current, ops :|
      PossibleRun(Genesis(tickSpacing, protocolFeeRate, current), ops) &&
      m == Run(Genesis(tickSpacing, protocolFeeRate, current), ops);
    GenesisHasInv(tickSpacing, protocolFeeRate, current);
    RunKeepsInv(Genesis(tickSpacing, protocolFeeRate, current), ops);
  }

  lemma {:induction false} RunOneMore(m: Machine, ops: seq<Instruction>, op: Instruction)
    requires PossibleRun(m, ops) && Possible(Run(m, ops), op)
    ensures PossibleRun(m, ops + [op]) && Run(m, ops + [op]) == After(Run(m, ops), op)
    decreases |ops|
  {
    if ops == [] {
      assert ops + [op] == [op] && [op][1..] == [];
    } else {
      RunOneMore(After(m, ops[0]), ops[1..], op);
      assert (ops + [op])[1..] == ops[1..] + [op];
    }
  }

  lemma NextIsReachable(m: Machine, op: Instruction)
    requires Reachable(m) && Possible(m, op)
    ensures Reachable(After(m, op))
  {
    var tickSpacing, protocolFeeRate, current, ops :|
      PossibleRun(Genesis(tickSpacing, protocolFeeRate, current), ops) &&
      m == Run(Genesis(tickSpacing, protocolFeeRate, current), ops);
    RunOneMore(Genesis(tickSpacing, protocolFeeRate, current), ops, op);
  }
}
