/** The search for the next initialized tick over a sequence of tick arrays (state/tick.rs, util/swap_tick_sequence.rs). */
module TickSearch {
  import opened Words
  import opened FixedPoint
  import opened State
  import opened SwapManager
  import opened Machine
  import opened Books
  import Sums
  import Runs
  import Rounding

  const TICK_ARRAY_SIZE: int := 88

  type Flags = s: seq<bool> | |s| == TICK_ARRAY_SIZE witness seq(TICK_ARRAY_SIZE, o => false)

  /** A tick array, reduced to which of its ticks are initialized. */
  datatype TickArray = TickArray(startTickIndex: int, initialized: Flags)

  predicate InSearchRange(arr: TickArray, tickIndex: int, spacing: u16, shifted: bool) {
    var shift := if shifted then spacing else 0;
    arr.startTickIndex - shift <= tickIndex < arr.startTickIndex + TICK_ARRAY_SIZE * spacing - shift
  }

  /** The array shows the ticks it covers as they are, and only multiples of the spacing are ever initialized. */
  ghost predicate Mirrors(arr: TickArray, ticks: Ticks, spacing: u16)
    requires spacing > 0
  {
    && arr.startTickIndex % spacing == 0
    && (forall o {:trigger arr.initialized[o]} :: 0 <= o < TICK_ARRAY_SIZE ==>
          arr.initialized[o] == TickAt(ticks, TickOf(arr, o, spacing)).initialized)
    && (forall t {:trigger TickAt(ticks, t)} :: TickAt(ticks, t).initialized ==> t % spacing == 0)
  }

  function TickOf(arr: TickArray, offset: int, spacing: u16): int {
    arr.startTickIndex + offset * spacing
  }

  ghost predicate NoneFrom(ticks: Ticks, from: int, before: int) {
    forall t {:trigger TickAt(ticks, t)} :: from <= t < before ==> !TickAt(ticks, t).initialized
  }

  /** A multiple of the spacing inside the array sits at its own offset. */
  lemma TickHasOffset(arr: TickArray, t: int, spacing: u16) returns (o: int)
    requires spacing > 0 && arr.startTickIndex % spacing == 0 && t % spacing == 0
    ensures o == (t - arr.startTickIndex) / spacing && TickOf(arr, o, spacing) == t
  {
    o := (t - arr.startTickIndex) / spacing;
    var s := arr.startTickIndex;
    assert t == spacing * (t / spacing) && s == spacing * (s / spacing);
    assert t - s == spacing * (t / spacing - s / spacing);
    QuotientOfMultiple(t / spacing - s / spacing, spacing);
  }

  lemma QuotientOfMultiple(q: int, d: int)
    requires d > 0
    ensures d * q / d == q
  {
    var x := d * q / d;
    Rounding.FloorWithin(d * q, d);
    if x < q {
      Rounding.Scale(x + 1, q, d);
    } else if q < x {
      Rounding.Scale(q + 1, x, d);
    }
  }

  /** Offsets are in the order of the ticks. */
  lemma OffsetOrder(arr: TickArray, a: int, b: int, spacing: u16)
    requires spacing > 0
    ensures a < b <==> TickOf(arr, a, spacing) < TickOf(arr, b, spacing)
  {
    if a < b {
      Rounding.Scale(a + 1, b, spacing);
    } else {
      Rounding.Scale(b, a, spacing);
    }
  }

  lemma FloorOffset(arr: TickArray, tickIndex: int, spacing: u16) returns (o: int)
    requires spacing > 0
    ensures o == (tickIndex - arr.startTickIndex) / spacing
    ensures TickOf(arr, o, spacing) <= tickIndex < TickOf(arr, o + 1, spacing)
  {
    o := (tickIndex - arr.startTickIndex) / spacing;
    var x := tickIndex - arr.startTickIndex;
    assert x == spacing * o + x % spacing;
    assert (o + 1) * spacing == o * spacing + spacing;
  }

  /** Scans one array: to the left including the current offset, to the right excluding it. */
  method NextInitTickIndex(arr: TickArray, tickIndex: int, spacing: u16, aToB: bool, ghost ticks: Ticks)
    returns (r: Result<Option<int>>)
    requires spacing > 0 ==> Mirrors(arr, ticks, spacing)
    ensures r.Err? <==> !InSearchRange(arr, tickIndex, spacing, !aToB) || spacing == 0
    ensures r.Ok? && r.value.Some? ==> TickAt(ticks, r.value.value).initialized
    ensures r.Ok? && r.value.Some? && aToB ==>
      r.value.value <= tickIndex && NoneFrom(ticks, r.value.value + 1, tickIndex + 1)
    ensures r.Ok? && r.value.Some? && !aToB ==>
      tickIndex < r.value.value && NoneFrom(ticks, tickIndex + 1, r.value.value)
    ensures r == Ok(None) && aToB ==> NoneFrom(ticks, arr.startTickIndex, tickIndex + 1)
    ensures r == Ok(None) && !aToB ==>
      NoneFrom(ticks, tickIndex + 1, arr.startTickIndex + TICK_ARRAY_SIZE * spacing)
  {
    if !InSearchRange(arr, tickIndex, spacing, !aToB) {
      return Err(InvalidTickArraySequence);
    }
    if spacing == 0 {
      return Err(InvalidTickSpacing);
    }
    var offset := (tickIndex - arr.startTickIndex) / spacing;
    ghost var o := FloorOffset(arr, tickIndex, spacing);
    OffsetBounds(arr, tickIndex, spacing, aToB);
    if !aToB {
      offset := offset + 1;
    }
    ghost var first := offset;
    while 0 <= offset < TICK_ARRAY_SIZE
      invariant -1 <= offset <= TICK_ARRAY_SIZE
      invariant if aToB then offset <= first < TICK_ARRAY_SIZE else 0 <= first <= offset
      invariant Unset(arr, if aToB then offset + 1 else first, if aToB then first + 1 else offset)
      decreases if aToB then offset + 1 else TICK_ARRAY_SIZE - offset
    {
      if arr.initialized[offset] {
        ScanCovers(arr, tickIndex, spacing, aToB, ticks, offset);
        OffsetOrder(arr, o, offset, spacing);
        OffsetOrder(arr, o + 1, offset, spacing);
        OffsetOrder(arr, offset, o, spacing);
        return Ok(Some(TickOf(arr, offset, spacing)));
      }
      offset := if aToB then offset - 1 else offset + 1;
    }
    ScanCovers(arr, tickIndex, spacing, aToB, ticks, offset);
    return Ok(None);
  }

  lemma OffsetBounds(arr: TickArray, tickIndex: int, spacing: u16, aToB: bool)
    requires spacing > 0 && InSearchRange(arr, tickIndex, spacing, !aToB)
    ensures
      var o := (tickIndex - arr.startTickIndex) / spacing;
      if aToB then 0 <= o < TICK_ARRAY_SIZE else 0 <= o + 1 < TICK_ARRAY_SIZE
  {
    var o := FloorOffset(arr, tickIndex, spacing);
    var last := TICK_ARRAY_SIZE - (if aToB then 0 else 1);
    OffsetOrder(arr, o, last, spacing);
    OffsetOrder(arr, if aToB then -1 else -2, o, spacing);
  }

  ghost predicate Unset(arr: TickArray, from: int, before: int) {
    forall o :: 0 <= o < TICK_ARRAY_SIZE && from <= o < before ==> !arr.initialized[o]
  }

  /** Offsets without initialized ticks mean ticks that are not initialized. */
  lemma ScanCovers(arr: TickArray, tickIndex: int, spacing: u16, aToB: bool, ticks: Ticks, offset: int)
    requires spacing > 0 && Mirrors(arr, ticks, spacing) && InSearchRange(arr, tickIndex, spacing, !aToB)
    requires -1 <= offset <= TICK_ARRAY_SIZE
    requires
      var at := (tickIndex - arr.startTickIndex) / spacing;
      if aToB then Unset(arr, offset + 1, at + 1) else Unset(arr, at + 1, offset)
    ensures aToB && offset >= 0 ==> NoneFrom(ticks, TickOf(arr, offset, spacing) + 1, tickIndex + 1)
    ensures aToB && offset == -1 ==> NoneFrom(ticks, arr.startTickIndex, tickIndex + 1)
    ensures !aToB ==> NoneFrom(ticks, tickIndex + 1, TickOf(arr, offset, spacing))
  {
    OffsetBounds(arr, tickIndex, spacing, aToB);
    forall t {:trigger TickAt(ticks, t)} | t % spacing == 0 &&
      if aToB then arr.startTickIndex <= t <= tickIndex && TickOf(arr, offset, spacing) < t
      else tickIndex < t < TickOf(arr, offset, spacing)
      ensures !TickAt(ticks, t).initialized
    {
      ScannedTick(arr, tickIndex, spacing, aToB, ticks, offset, t);
    }
    if aToB && offset >= 0 {
      OffsetOrder(arr, -1, offset, spacing);
    }
  }

  lemma ScannedTick(arr: TickArray, tickIndex: int, spacing: u16, aToB: bool, ticks: Ticks, offset: int, t: int)
    requires spacing > 0 && Mirrors(arr, ticks, spacing) && -1 <= offset <= TICK_ARRAY_SIZE && t % spacing == 0
    requires
      var at := (tickIndex - arr.startTickIndex) / spacing;
      if aToB then
        && Unset(arr, offset + 1, at + 1) && at < TICK_ARRAY_SIZE
        && arr.startTickIndex <= t <= tickIndex && TickOf(arr, offset, spacing) < t
      else
        && Unset(arr, at + 1, offset) && 0 <= at + 1
        && tickIndex < t < TickOf(arr, offset, spacing)
    ensures !TickAt(ticks, t).initialized
  {
    var at := FloorOffset(arr, tickIndex, spacing);
    var o := TickHasOffset(arr, t, spacing);
    OffsetOrder(arr, offset, o, spacing);
    OffsetOrder(arr, o, offset, spacing);
    OffsetOrder(arr, at, o, spacing);
    OffsetOrder(arr, o, at + 1, spacing);
    OffsetOrder(arr, o, 0, spacing);
    assert arr.initialized[o] == TickAt(ticks, TickOf(arr, o, spacing)).initialized;
  }

  // ---- Over the arrays a swap brings along ------------------------------------------------------------------

  predicate IsMinTickArray(arr: TickArray) {
    arr.startTickIndex <= MIN_TICK_INDEX
  }

  predicate IsMaxTickArray(arr: TickArray, spacing: u16) {
    arr.startTickIndex + TICK_ARRAY_SIZE * spacing > MAX_TICK_INDEX
  }

  /**
    Whatever arrays the caller supplies, in whatever order: when the search succeeds, the tick it
    returns, initialized or the edge of what it could see, is the first stop of the swap.
  */
  method NextInitializedTickIndex(
      arrays: seq<TickArray>, tickIndex: int, spacing: u16, aToB: bool, startArray: nat, ghost ticks: Ticks)
    returns (r: Result<(nat, int)>)
    requires spacing > 0 ==> forall i :: 0 <= i < |arrays| ==> Mirrors(arrays[i], ticks, spacing)
    requires if aToB then MIN_TICK_INDEX <= tickIndex <= MAX_TICK_INDEX else MIN_TICK_INDEX - 1 <= tickIndex < MAX_TICK_INDEX
    ensures r.Ok? ==> TickAt(ticks, r.value.1).initialized || MIN_TICK_INDEX <= r.value.1 <= MAX_TICK_INDEX
    ensures r.Ok? ==> startArray <= r.value.0 < |arrays| && FirstStop(ticks, tickIndex, aToB, r.value.1)
    ensures startArray >= |arrays| ==> r == Err(TickArraySequenceInvalidIndex)
  {
    var searchIndex, arrayIndex := tickIndex, startArray;
    while arrayIndex < |arrays|
      invariant startArray <= arrayIndex <= |arrays| || arrayIndex == startArray
      invariant if aToB then searchIndex <= tickIndex && NoneFrom(ticks, searchIndex + 1, tickIndex + 1)
                else tickIndex <= searchIndex && NoneFrom(ticks, tickIndex + 1, searchIndex + 1)
    {
      var arr := arrays[arrayIndex];
      var next := NextInitTickIndex(arr, searchIndex, spacing, aToB, ticks);
      if next.Err? {
        return Err(next.error);
      }
      if next.value.Some? {
        return Ok((arrayIndex, next.value.value));
      }
      if aToB && IsMinTickArray(arr) {
        return Ok((arrayIndex, MIN_TICK_INDEX));
      } else if !aToB && IsMaxTickArray(arr, spacing) {
        return Ok((arrayIndex, MAX_TICK_INDEX));
      }
      var edge := if aToB then arr.startTickIndex else arr.startTickIndex + TICK_ARRAY_SIZE * spacing - 1;
      if arrayIndex + 1 == |arrays| {
        return Ok((arrayIndex, edge));
      }
      searchIndex := if aToB then edge - 1 else edge;
      arrayIndex := arrayIndex + 1;
    }
    return Err(TickArraySequenceInvalidIndex);
  }

  // ---- Initialized ticks are usable, so arrays can mirror them ------------------------------------------------

  ghost predicate UsableRange(p: Position, spacing: u16) {
    spacing > 0 && IsUsableTick(p.tickLowerIndex, spacing) && IsUsableTick(p.tickUpperIndex, spacing)
  }

  ghost predicate UsableRanges(m: Machine, spacing: u16) {
    m.pool.tickSpacing == spacing && forall i :: 0 <= i < |m.positions| ==> UsableRange(m.positions[i], spacing)
  }

  lemma {:induction false} LegsKeepSpacing(pool: Pool, ticks: Ticks, aToB: bool, legs: seq<Leg>)
    requires SwapLegs(pool, ticks, aToB, legs).Ok?
    ensures SwapLegs(pool, ticks, aToB, legs).value.0.tickSpacing == pool.tickSpacing
    decreases |legs|
  {
    if legs == [] {
    } else {
      var moved := MoveTick(AddFeeGrowth(pool, aToB, legs[0].feeAmount), ticks, aToB, legs[0]).value;
      LegsKeepSpacing(moved.0, moved.1, aToB, legs[1..]);
    }
  }

  lemma ModifyKeepsRanges(m: Machine, id: int, delta: i128, timestamp: u64, spacing: u16)
    requires UsableRanges(m, spacing) && ModifyLiquidity(m, id, delta, timestamp).Ok?
    ensures UsableRanges(ModifyLiquidity(m, id, delta, timestamp).value, spacing)
  {
  }

  lemma InstructionKeepsRanges(m: Machine, op: Instruction, spacing: u16)
    requires UsableRanges(m, spacing)
    ensures UsableRanges(After(m, op), spacing)
  {
    if Execute(m, op).Ok? {
      match op
      case DoIncrease(id, amount, terms, timestamp) =>
        ModifyKeepsRanges(m, id, ConvertToLiquidityDelta(amount, true).value, timestamp, spacing);
      case DoDecrease(id, amount, terms, timestamp) =>
        ModifyKeepsRanges(m, id, ConvertToLiquidityDelta(amount, false).value, timestamp, spacing);
      case DoUpdateFeesAndRewards(id, timestamp) => ModifyKeepsRanges(m, id, 0, timestamp, spacing);
      case DoSwap(aToB, legs, timestamp) => LegsKeepSpacing(AdvanceTo(m, timestamp).value.pool, m.ticks, aToB, legs);
      case _ =>
    }
  }

  lemma {:induction false} RunKeepsRanges(m: Machine, ops: seq<Instruction>, spacing: u16)
    requires UsableRanges(m, spacing)
    ensures UsableRanges(Run(m, ops), spacing)
    decreases |ops|
  {
    if ops == [] {
    } else {
      InstructionKeepsRanges(m, ops[0], spacing);
      RunKeepsRanges(After(m, ops[0]), ops[1..], spacing);
    }
  }

  /** A tick no position ends at has no gross liquidity. */
  lemma InitializedTickIsAnEnd(ps: Positions, ticks: Ticks, t: int)
    requires TickBooks(ps, ticks, t) && TickAt(ticks, t).initialized
    ensures exists i :: 0 <= i < |ps| && (ps[i].tickLowerIndex == t || ps[i].tickUpperIndex == t)
  {
    if forall i :: 0 <= i < |ps| ==> ps[i].tickLowerIndex != t && ps[i].tickUpperIndex != t {
      Sums.SumIsZero(|ps|, GrossOf(ps, t));
    }
  }

  /** In every reachable state only usable ticks are initialized. */
  lemma InitializedTicksAreUsable(m: Machine, t: int)
    requires Reachable(m) && TickAt(m.ticks, t).initialized
    ensures m.pool.tickSpacing > 0 && IsUsableTick(t, m.pool.tickSpacing)
  {
    var tickSpacing, protocolFeeRate, current, ops :|
      PossibleRun(Genesis(tickSpacing, protocolFeeRate, current), ops) &&
      m == Run(Genesis(tickSpacing, protocolFeeRate, current), ops);
    RunKeepsRanges(Genesis(tickSpacing, protocolFeeRate, current), ops, tickSpacing);
    Runs.ReachableHasInv(m);
    assert TickBooks(m.positions, m.ticks, t);
    InitializedTickIsAnEnd(m.positions, m.ticks, t);
  }
}
