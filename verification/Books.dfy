/**
  The liquidity books: every tick's gross and net amount, and the pool's active liquidity, are sums
  over the positions.
*/
module Books {
  import opened State
  import opened Sums

  type Positions = seq<Position>

  function EndsAt(p: Position, t: int): nat {
    (if p.tickLowerIndex == t then p.liquidity else 0) + (if p.tickUpperIndex == t then p.liquidity else 0)
  }

  function EntersAt(p: Position, t: int): int {
    (if p.tickLowerIndex == t then p.liquidity else 0) - (if p.tickUpperIndex == t then p.liquidity else 0)
  }

  function ActiveIn(p: Position, current: int): nat {
    if p.tickLowerIndex <= current < p.tickUpperIndex then p.liquidity else 0
  }

  ghost function GrossOf(ps: Positions, t: int): int -> int {
    i => if 0 <= i < |ps| then EndsAt(ps[i], t) else 0
  }

  ghost function NetOf(ps: Positions, t: int): int -> int {
    i => if 0 <= i < |ps| then EntersAt(ps[i], t) else 0
  }

  ghost function ActiveOf(ps: Positions, current: int): int -> int {
    i => if 0 <= i < |ps| then ActiveIn(ps[i], current) else 0
  }

  /** Liquidity of all positions ending at a tick. */
  ghost function GrossAt(ps: Positions, t: int): int { SumTo(|ps|, GrossOf(ps, t)) }

  /** Liquidity entering minus liquidity leaving when the price moves up across a tick. */
  ghost function NetAt(ps: Positions, t: int): int { SumTo(|ps|, NetOf(ps, t)) }

  /** Liquidity of all positions in range. */
  ghost function ActiveAt(ps: Positions, current: int): int { SumTo(|ps|, ActiveOf(ps, current)) }

  ghost predicate TickBooks(ps: Positions, ticks: Ticks, t: int) {
    var tick := TickAt(ticks, t);
    && tick.liquidityGross == GrossAt(ps, t)
    && tick.liquidityNet == NetAt(ps, t)
    && (tick.initialized <==> tick.liquidityGross > 0)
  }

  ghost predicate BooksBalance(ps: Positions, ticks: Ticks, pool: Pool) {
    && (forall t :: TickBooks(ps, ticks, t))
    && pool.liquidity == ActiveAt(ps, pool.tickCurrentIndex)
  }

  ghost predicate ValidRanges(ps: Positions) {
    forall i :: 0 <= i < |ps| ==>
      MIN_TICK_INDEX <= ps[i].tickLowerIndex < ps[i].tickUpperIndex <= MAX_TICK_INDEX
  }

  // ---- Facts about the sums ----------------------------------------------------------------------------

  lemma NetBoundedByGross(ps: Positions, t: int)
    ensures -GrossAt(ps, t) <= NetAt(ps, t) <= GrossAt(ps, t)
  {
    SumBounds(|ps|, NetOf(ps, t), GrossOf(ps, t));
    var minus := (i: int) => -1 * GrossOf(ps, t)(i);
    SumScaled(|ps|, -1, GrossOf(ps, t), minus);
    SumBounds(|ps|, minus, NetOf(ps, t));
  }

  /** A position with liquidity keeps both its ticks initialized. */
  lemma LiquidityKeepsTicks(ps: Positions, ticks: Ticks, i: int, t: int)
    requires 0 <= i < |ps|
    requires TickBooks(ps, ticks, t)
    ensures EndsAt(ps[i], t) <= TickAt(ticks, t).liquidityGross
    ensures EndsAt(ps[i], t) > 0 ==> TickAt(ticks, t).initialized
  {
    SumAtLeast(|ps|, i, GrossOf(ps, t));
  }

  /** Replacing one position by itself with a changed liquidity. */
  lemma SumsAfterUpdate(ps: Positions, id: int, p: Position, t: int)
    requires 0 <= id < |ps|
    requires p.tickLowerIndex == ps[id].tickLowerIndex && p.tickUpperIndex == ps[id].tickUpperIndex
    ensures GrossAt(ps[id := p], t) == GrossAt(ps, t) - EndsAt(ps[id], t) + EndsAt(p, t)
    ensures NetAt(ps[id := p], t) == NetAt(ps, t) - EntersAt(ps[id], t) + EntersAt(p, t)
    ensures ActiveAt(ps[id := p], t) == ActiveAt(ps, t) - ActiveIn(ps[id], t) + ActiveIn(p, t)
  {
    SumPoint(|ps|, id, GrossOf(ps, t), GrossOf(ps[id := p], t));
    SumPoint(|ps|, id, NetOf(ps, t), NetOf(ps[id := p], t));
    SumPoint(|ps|, id, ActiveOf(ps, t), ActiveOf(ps[id := p], t));
  }

  lemma SumsAfterOpen(ps: Positions, p: Position, t: int)
    requires p.liquidity == 0
    ensures GrossAt(ps + [p], t) == GrossAt(ps, t)
    ensures NetAt(ps + [p], t) == NetAt(ps, t)
    ensures ActiveAt(ps + [p], t) == ActiveAt(ps, t)
  {
    SumAgrees(|ps|, GrossOf(ps, t), GrossOf(ps + [p], t));
    SumAgrees(|ps|, NetOf(ps, t), NetOf(ps + [p], t));
    SumAgrees(|ps|, ActiveOf(ps, t), ActiveOf(ps + [p], t));
  }

  ghost predicate NoneInitialized(ticks: Ticks, after: int, upTo: int, except: int) {
    forall t {:trigger TickAt(ticks, t)} :: after < t <= upTo && t != except ==> !TickAt(ticks, t).initialized
  }

  /** Moving from a up to b over a single initialized tick adds exactly that tick's net liquidity. */
  lemma ActiveAcrossTick(ps: Positions, ticks: Ticks, a: int, tick: int, b: int)
    requires forall t :: TickBooks(ps, ticks, t)
    requires ValidRanges(ps)
    requires a < tick <= b && NoneInitialized(ticks, a, b, tick)
    ensures ActiveAt(ps, b) == ActiveAt(ps, a) + NetAt(ps, tick)
  {
    forall i | 0 <= i < |ps|
      ensures ActiveOf(ps, b)(i) == ActiveOf(ps, a)(i) + NetOf(ps, tick)(i)
    {
      if ps[i].liquidity > 0 {
        EndpointsStayOut(ps, ticks, i, a, tick, b);
      }
    }
    SumPlus(|ps|, ActiveOf(ps, a), NetOf(ps, tick), ActiveOf(ps, b));
  }

  lemma EndpointsStayOut(ps: Positions, ticks: Ticks, i: int, a: int, tick: int, b: int)
    requires forall t :: TickBooks(ps, ticks, t)
    requires 0 <= i < |ps| && NoneInitialized(ticks, a, b, tick)
    requires ps[i].liquidity > 0
    ensures var l := ps[i].tickLowerIndex; !(a < l <= b) || l == tick
    ensures var u := ps[i].tickUpperIndex; !(a < u <= b) || u == tick
  {
    var l, u := ps[i].tickLowerIndex, ps[i].tickUpperIndex;
    assert TickBooks(ps, ticks, l) && TickBooks(ps, ticks, u);
    LiquidityKeepsTicks(ps, ticks, i, l);
    LiquidityKeepsTicks(ps, ticks, i, u);
  }

  /** Moving between initialized ticks changes nothing. */
  lemma ActiveBetweenTicks(ps: Positions, ticks: Ticks, a: int, b: int)
    requires forall t :: TickBooks(ps, ticks, t)
    requires a <= b && NoneInitialized(ticks, a, b, a)
    ensures ActiveAt(ps, b) == ActiveAt(ps, a)
  {
    forall i | 0 <= i < |ps|
      ensures ActiveOf(ps, b)(i) == ActiveOf(ps, a)(i)
    {
      if ps[i].liquidity > 0 {
        EndpointsStayOut(ps, ticks, i, a, a, b);
      }
    }
    SumAgrees(|ps|, ActiveOf(ps, a), ActiveOf(ps, b));
  }

  // ---- Sums over ticks -----------------------------------------------------------------------------------

  /** Sum of the net liquidity of every tick up to and including t. */
  ghost function NetUpTo(ticks: Ticks, t: int): int
    decreases t - MIN_TICK_INDEX + 1
  {
    if t < MIN_TICK_INDEX then 0 else NetUpTo(ticks, t - 1) + TickAt(ticks, t).liquidityNet
  }

  /** The prefix sums of the net liquidities are the liquidity in range, at every price. */
  lemma {:induction false} NetsAddUpToActive(ps: Positions, ticks: Ticks, t: int)
    requires forall x :: TickBooks(ps, ticks, x)
    requires ValidRanges(ps)
    ensures NetUpTo(ticks, t) == ActiveAt(ps, t)
    decreases t - MIN_TICK_INDEX + 1
  {
    if t < MIN_TICK_INDEX {
      SumIsZero(|ps|, ActiveOf(ps, t));
    } else {
      NetsAddUpToActive(ps, ticks, t - 1);
      ActiveAcrossTick(ps, ticks, t - 1, t, t);
      assert TickBooks(ps, ticks, t);
    }
  }

  predicate NetWithinGross(tick: Tick) {
    tick.liquidityNet <= tick.liquidityGross && 0 <= tick.liquidityNet + tick.liquidityGross
  }

  /** Books that balance make the nets up to the current tick the pool's liquidity and all of them zero. */
  lemma BalancedBooks(ps: Positions, ticks: Ticks, pool: Pool)
    requires BooksBalance(ps, ticks, pool) && ValidRanges(ps)
    ensures NetUpTo(ticks, pool.tickCurrentIndex) == pool.liquidity == ActiveAt(ps, pool.tickCurrentIndex)
    ensures NetUpTo(ticks, MAX_TICK_INDEX) == 0
    ensures forall t :: NetWithinGross(TickAt(ticks, t))
  {
    NetsAddUpToActive(ps, ticks, pool.tickCurrentIndex);
    NetsAddUpToActive(ps, ticks, MAX_TICK_INDEX);
    SumIsZero(|ps|, ActiveOf(ps, MAX_TICK_INDEX));
    forall t
      ensures NetWithinGross(TickAt(ticks, t))
    {
      assert TickBooks(ps, ticks, t);
      NetBoundedByGross(ps, t);
    }
  }
}
