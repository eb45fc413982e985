/** What positions are worth in tokens, exactly: the amounts the program rounds. */
module TokenWorth {
  import opened Words
  import opened State
  import opened SwapMath
  import opened Sums
  import opened Books
  import Rounding

  // ---- Prices of ticks -------------------------------------------------------------------------------------

  /** The square-root price of a tick and the tick of a price (math/tick_math.rs), as given functions. */
  datatype Grid = Grid(priceAt: int -> u128, tickAt: u128 -> int)

  /** Prices grow with ticks, between the bounds of both, and the tick of a price is the last one not above it. */
  ghost predicate Monotone(g: Grid) {
    && g.priceAt(MIN_TICK_INDEX) == MIN_SQRT_PRICE && g.priceAt(MAX_TICK_INDEX) == MAX_SQRT_PRICE
    && (forall s, t :: MIN_TICK_INDEX <= s < t <= MAX_TICK_INDEX ==> g.priceAt(s) < g.priceAt(t))
    && forall p :: MIN_SQRT_PRICE <= p <= MAX_SQRT_PRICE ==>
         && MIN_TICK_INDEX <= g.tickAt(p) <= MAX_TICK_INDEX && g.priceAt(g.tickAt(p)) <= p
         && (g.tickAt(p) < MAX_TICK_INDEX ==> p < g.priceAt(g.tickAt(p) + 1))
  }

  /** The price of a tick, with the ends of the word for ticks out of bounds. */
  ghost function Edge(g: Grid, t: int): int {
    if t < MIN_TICK_INDEX then 0 else if t > MAX_TICK_INDEX then TWO_128 else g.priceAt(t)
  }

  lemma EdgesGrow(g: Grid, s: int, t: int)
    requires Monotone(g) && s <= t
    ensures Edge(g, s) <= Edge(g, t)
    ensures MIN_TICK_INDEX <= s < t <= MAX_TICK_INDEX ==> MIN_SQRT_PRICE <= Edge(g, s) < Edge(g, t) <= MAX_SQRT_PRICE
    ensures MIN_TICK_INDEX <= s <= MAX_TICK_INDEX ==> MIN_SQRT_PRICE <= Edge(g, s) <= MAX_SQRT_PRICE
  {
  }

  /** The price belongs to the current tick, or has come down to the upper end of it. */
  ghost predicate Located(g: Grid, price: u128, current: int) {
    MIN_SQRT_PRICE <= price <= MAX_SQRT_PRICE && Edge(g, current) <= price <= Edge(g, current + 1)
  }

  // ---- Tokens between two prices -----------------------------------------------------------------------------

  datatype Token = A | B

  function Reciprocal(price: int): real {
    if price <= 0 then 0.0 else TWO_128 as real / price as real
  }

  /** What a unit of liquidity exchanges between two prices, times 2^64. */
  function Span(x: Token, from: int, to: int): real {
    if x.A? then Reciprocal(from) - Reciprocal(to) else (to - from) as real
  }

  lemma ReciprocalFalls(p: int, q: int)
    requires 0 < p <= q
    ensures Reciprocal(q) <= Reciprocal(p)
    ensures Span(A, p, q) * (p * q) as real == TWO_128 as real * (q - p) as real
  {
    var r, s := Reciprocal(p), Reciprocal(q);
    assert r * p as real == TWO_128 as real && s * q as real == TWO_128 as real;
    assert (p * q) as real == p as real * q as real;
    assert (r - s) * (p as real * q as real) == (r * p as real) * q as real - (s * q as real) * p as real;
    assert (r - s) * (p as real * q as real) == TWO_128 as real * (q - p) as real;
    if r < s {
      MulPositive(s - r, p as real * q as real);
    }
  }

  lemma MulPositive(a: real, b: real)
    requires 0.0 < a && 0.0 < b
    ensures 0.0 < a * b
  {
  }

  lemma CancelReal(a: real, b: real, p: real)
    requires p > 0.0
    ensures a * p <= b * p ==> a <= b
  {
    if b < a {
      MulPositive(a - b, p);
      assert (a - b) * p == a * p - b * p;
    }
  }

  // ---- Multiples ----------------------------------------------------------------------------------------------

  /** A real taken a number of times: what so many units of liquidity come to. */
  ghost function Times(n: int, c: real): real {
    if n <= 0 then 0.0 else Times(n - 1, c) + c
  }

  lemma {:induction false} TimesIsProduct(n: nat, c: real)
    ensures Times(n, c) == n as real * c
  {
    if n == 0 {
      assert n as real == 0.0;
    } else {
      TimesIsProduct(n - 1, c);
      assert (n - 1) as real == n as real - 1.0;
      assert (n as real - 1.0) * c == n as real * c - c;
    }
  }

  lemma {:induction false} TimesIsLinear(n: nat, a: real, b: real)
    ensures Times(n, a + b) == Times(n, a) + Times(n, b)
    ensures Times(n, -a) == -Times(n, a)
  {
    if n > 0 {
      TimesIsLinear(n - 1, a, b);
    }
  }

  lemma {:induction false} TimesAdds(m: nat, n: nat, c: real)
    ensures Times(m + n, c) == Times(m, c) + Times(n, c)
  {
    if n > 0 {
      TimesAdds(m, n - 1, c);
    }
  }

  lemma {:induction false} TimesIsMonotone(n: nat, a: real, b: real)
    requires a <= b
    ensures Times(n, a) <= Times(n, b)
  {
    if n > 0 {
      TimesIsMonotone(n - 1, a, b);
    }
  }

  lemma {:induction false} TimesIsPositive(m: nat, n: nat, c: real)
    requires m <= n && 0.0 <= c
    ensures 0.0 <= Times(m, c) <= Times(n, c)
  {
    if n > 0 {
      TimesIsPositive(if m < n then m else m - 1, n - 1, c);
    }
  }

  lemma SpanIsPositive(x: Token, from: int, to: int)
    requires 0 < from <= to
    ensures 0.0 <= Span(x, from, to)
  {
    ReciprocalFalls(from, to);
  }

  // ---- Sums of reals --------------------------------------------------------------------------------------------

  ghost function RealSum(n: nat, f: int -> real): real {
    if n == 0 then 0.0 else RealSum(n - 1, f) + f(n - 1)
  }

  lemma {:induction false} RealSumAgrees(n: nat, f: int -> real, g: int -> real)
    requires forall i :: 0 <= i < n ==> f(i) == g(i)
    ensures RealSum(n, f) == RealSum(n, g)
  {
    if n > 0 {
      RealSumAgrees(n - 1, f, g);
    }
  }

  lemma {:induction false} RealSumPoint(n: nat, j: int, f: int -> real, g: int -> real)
    requires 0 <= j < n
    requires forall i :: 0 <= i < n && i != j ==> f(i) == g(i)
    ensures RealSum(n, g) == RealSum(n, f) - f(j) + g(j)
  {
    if j == n - 1 {
      RealSumAgrees(n - 1, f, g);
    } else {
      RealSumPoint(n - 1, j, f, g);
    }
  }

  /** Adding to every summand a multiple of a real. */
  lemma {:induction false} RealSumShifted(n: nat, f: int -> real, c: real, k: int -> int, g: int -> real)
    requires forall i :: 0 <= i < n ==> 0 <= k(i) && g(i) == f(i) + Times(k(i), c)
    ensures 0 <= SumTo(n, k) && RealSum(n, g) == RealSum(n, f) + Times(SumTo(n, k), c)
  {
    if n > 0 {
      RealSumShifted(n - 1, f, c, k, g);
      TimesAdds(SumTo(n - 1, k), k(n - 1), c);
    }
  }

  lemma {:induction false} RealSumNonNegative(n: nat, f: int -> real)
    requires forall i :: 0 <= i < n ==> 0.0 <= f(i)
    ensures 0.0 <= RealSum(n, f)
  {
    if n > 0 {
      RealSumNonNegative(n - 1, f);
    }
  }

  lemma {:induction false} RealSumAtLeast(n: nat, j: int, f: int -> real)
    requires 0 <= j < n
    requires forall i :: 0 <= i < n ==> 0.0 <= f(i)
    ensures f(j) <= RealSum(n, f)
  {
    RealSumNonNegative(n - 1, f);
    if j < n - 1 {
      RealSumAtLeast(n - 1, j, f);
    }
  }

  // ---- Worth of positions ----------------------------------------------------------------------------------------

  function Clamp(price: int, low: int, high: int): int {
    if price < low then low else if price > high then high else price
  }

  /** What a unit of liquidity in a range is worth at a price, times 2^64. */
  ghost function Held(x: Token, g: Grid, p: Position, price: int): real {
    var low, high := Edge(g, p.tickLowerIndex), Edge(g, p.tickUpperIndex);
    var at := Clamp(price, low, high);
    if x.A? then Span(A, at, high) else Span(B, low, at)
  }

  ghost function PerUnit(x: Token, g: Grid, price: int): Position -> real {
    (p: Position) => Held(x, g, p, price)
  }

  ghost function SharesOf(ps: Positions, held: Position -> real): int -> real {
    i => if 0 <= i < |ps| then Times(ps[i].liquidity, held(ps[i])) else 0.0
  }

  ghost function Total(ps: Positions, held: Position -> real): real {
    RealSum(|ps|, SharesOf(ps, held))
  }

  /** What all positions are worth in a token, times 2^64. */
  ghost function Worth(x: Token, g: Grid, ps: Positions, price: int): real {
    Total(ps, PerUnit(x, g, price))
  }

  lemma HeldIsPositive(x: Token, g: Grid, p: Position, price: int)
    requires Monotone(g) && MIN_TICK_INDEX <= p.tickLowerIndex < p.tickUpperIndex <= MAX_TICK_INDEX
    ensures 0.0 <= Held(x, g, p, price)
  {
    var low, high := Edge(g, p.tickLowerIndex), Edge(g, p.tickUpperIndex);
    EdgesGrow(g, p.tickLowerIndex, p.tickUpperIndex);
    SpanIsPositive(A, Clamp(price, low, high), high);
    SpanIsPositive(B, low, Clamp(price, low, high));
  }

  lemma EachIsPartOfTotal(ps: Positions, held: Position -> real)
    requires forall i :: 0 <= i < |ps| ==> 0.0 <= held(ps[i])
    ensures 0.0 <= Total(ps, held)
    ensures forall i :: 0 <= i < |ps| ==> Times(ps[i].liquidity, held(ps[i])) <= Total(ps, held)
  {
    var f := SharesOf(ps, held);
    forall i | 0 <= i < |ps|
      ensures 0.0 <= f(i)
    {
      TimesIsPositive(0, ps[i].liquidity, held(ps[i]));
    }
    RealSumNonNegative(|ps|, f);
    forall i | 0 <= i < |ps|
      ensures Times(ps[i].liquidity, held(ps[i])) <= RealSum(|ps|, f)
    {
      RealSumAtLeast(|ps|, i, f);
    }
  }

  lemma WorthIsPositive(x: Token, g: Grid, ps: Positions, price: int)
    requires Monotone(g) && ValidRanges(ps)
    ensures 0.0 <= Worth(x, g, ps, price)
    ensures forall i :: 0 <= i < |ps| ==> Times(ps[i].liquidity, PerUnit(x, g, price)(ps[i])) <= Worth(x, g, ps, price)
  {
    forall i | 0 <= i < |ps|
      ensures 0.0 <= PerUnit(x, g, price)(ps[i])
    {
      HeldIsPositive(x, g, ps[i], price);
    }
    EachIsPartOfTotal(ps, PerUnit(x, g, price));
  }

  /** Changing one position's liquidity changes the total by what it is worth before and after. */
  lemma TotalAfterUpdate(ps: Positions, id: int, p: Position, held: Position -> real)
    requires 0 <= id < |ps| && held(p) == held(ps[id])
    ensures Total(ps[id := p], held) == Total(ps, held) - Times(ps[id].liquidity, held(p)) + Times(p.liquidity, held(p))
  {
    RealSumPoint(|ps|, id, SharesOf(ps, held), SharesOf(ps[id := p], held));
  }

  // ---- Moving the price ------------------------------------------------------------------------------------------

  /** No position with liquidity ends strictly between two ticks. */
  ghost predicate NoEndBetween(ps: Positions, below: int, above: int) {
    forall i :: 0 <= i < |ps| && ps[i].liquidity > 0 ==>
      && !(below < ps[i].tickLowerIndex < above) && !(below < ps[i].tickUpperIndex < above)
  }

  function Change(x: Token, low: int, high: int): real {
    if x.A? then -Span(A, low, high) else Span(B, low, high)
  }

  /** From a lower to a higher price, in range or not. */
  lemma HeldAfterMove(x: Token, g: Grid, p: Position, below: int, above: int, low: int, high: int, current: int)
    requires Monotone(g) && MIN_TICK_INDEX <= p.tickLowerIndex < p.tickUpperIndex <= MAX_TICK_INDEX
    requires below <= current < above && Edge(g, below) <= low <= high <= Edge(g, above)
    requires !(below < p.tickLowerIndex < above) && !(below < p.tickUpperIndex < above)
    ensures
      Held(x, g, p, high) == Held(x, g, p, low) +
        if p.tickLowerIndex <= current < p.tickUpperIndex then Change(x, low, high) else 0.0
  {
    var l, u := p.tickLowerIndex, p.tickUpperIndex;
    EdgesGrow(g, l, u);
    if l <= current < u {
      EdgesGrow(g, l, below);
      EdgesGrow(g, above, u);
    } else if u <= below {
      EdgesGrow(g, u, below);
    } else {
      EdgesGrow(g, above, l);
    }
  }

  predicate InRange(p: Position, current: int) {
    p.tickLowerIndex <= current < p.tickUpperIndex
  }

  lemma TotalShifts(ps: Positions, before: Position -> real, after: Position -> real, current: int, change: real)
    requires forall i :: 0 <= i < |ps| && ps[i].liquidity > 0 ==>
      after(ps[i]) == before(ps[i]) + if InRange(ps[i], current) then change else 0.0
    ensures Total(ps, after) == Total(ps, before) + Times(ActiveAt(ps, current), change)
  {
    forall i | 0 <= i < |ps|
      ensures SharesOf(ps, after)(i) == SharesOf(ps, before)(i) + Times(ActiveOf(ps, current)(i), change)
    {
      TimesIsLinear(ps[i].liquidity, before(ps[i]), change);
    }
    RealSumShifted(|ps|, SharesOf(ps, before), change, ActiveOf(ps, current), SharesOf(ps, after));
  }

  /**
    Between two ticks where no position ends, moving the price exchanges exactly what the liquidity in range
    exchanges between the two prices.
  */
  lemma WorthAfterMove(x: Token, g: Grid, ps: Positions, below: int, above: int, low: int, high: int, current: int,
                       change: real)
    requires Monotone(g) && ValidRanges(ps) && NoEndBetween(ps, below, above)
    requires below <= current < above && Edge(g, below) <= low <= high <= Edge(g, above)
    requires change == Change(x, low, high)
    ensures Worth(x, g, ps, high) == Worth(x, g, ps, low) + Times(ActiveAt(ps, current), change)
  {
    HeldShifts(x, g, ps, below, above, low, high, current, change);
    TotalShifts(ps, PerUnit(x, g, low), PerUnit(x, g, high), current, change);
  }

  lemma HeldShifts(x: Token, g: Grid, ps: Positions, below: int, above: int, low: int, high: int, current: int, change: real)
    requires Monotone(g) && ValidRanges(ps) && NoEndBetween(ps, below, above)
    requires below <= current < above && Edge(g, below) <= low <= high <= Edge(g, above)
    requires change == Change(x, low, high)
    ensures forall i :: 0 <= i < |ps| && ps[i].liquidity > 0 ==>
      PerUnit(x, g, high)(ps[i]) == PerUnit(x, g, low)(ps[i]) + if InRange(ps[i], current) then change else 0.0
  {
    forall i | 0 <= i < |ps| && ps[i].liquidity > 0
      ensures PerUnit(x, g, high)(ps[i]) == PerUnit(x, g, low)(ps[i]) + if InRange(ps[i], current) then change else 0.0
    {
      HeldAfterMove(x, g, ps[i], below, above, low, high, current);
    }
  }

  // ---- Liquidity costs tokens ---------------------------------------------------------------------------------------

  /** Adjacent ticks are some way apart, in prices and in reciprocals of prices. */
  ghost predicate Spread(g: Grid) {
    forall t :: MIN_TICK_INDEX <= t < MAX_TICK_INDEX ==>
      var low, high := g.priceAt(t), g.priceAt(t + 1);
      16 <= high - low && 16 * (high * high) <= TWO_128 * (high - low)
  }

  /** In one of the two halves between a pair of prices, a unit of liquidity takes eight of 2^64 units of a token. */
  lemma UnitCost(low: int, at: int, high: int)
    requires 0 < low <= at <= high && 16 <= high - low && 16 * (high * high) <= TWO_128 * (high - low)
    ensures 8.0 <= Span(B, low, at) + Span(A, at, high)
  {
    SpanIsPositive(A, at, high);
    if 2 * (high - at) >= high - low {
      ReciprocalFalls(at, high);
      Products(at, high, high - low, high - at);
      AtLeastEight(Span(A, at, high), (at * high) as real, TWO_128 as real * (high - at) as real);
    }
  }

  lemma Products(at: int, high: int, width: int, part: int)
    requires 0 < at <= high && 16 * (high * high) <= TWO_128 * width && width <= 2 * part
    ensures 0 < at * high && 8.0 * (at * high) as real <= TWO_128 as real * part as real
  {
    assert 0 < at * high <= high * high;
    assert (8 * (at * high)) as real <= (TWO_128 * part) as real;
  }

  lemma AtLeastEight(span: real, product: real, width: real)
    requires 0.0 < product && 8.0 * product <= width && span * product == width
    ensures 8.0 <= span
  {
    CancelReal(8.0, span, product);
  }

  lemma HeldIsAtLeastEight(g: Grid, p: Position, price: int)
    requires Monotone(g) && Spread(g) && MIN_TICK_INDEX <= p.tickLowerIndex < p.tickUpperIndex <= MAX_TICK_INDEX
    ensures 8.0 <= Held(A, g, p, price) + Held(B, g, p, price)
  {
    var l, u := p.tickLowerIndex, p.tickUpperIndex;
    var low, middle, high := Edge(g, l), Edge(g, l + 1), Edge(g, u);
    EdgesGrow(g, l, l + 1);
    EdgesGrow(g, l + 1, u);
    var at := Clamp(price, low, high);
    SpanIsPositive(A, at, high);
    if at <= middle {
      UnitCost(low, at, middle);
      SpanIsPositive(A, middle, high);
    }
  }

  lemma {:induction false} UnitsAddUp(n: nat, k: int -> int, a: int -> real, b: int -> real)
    requires forall i :: 0 <= i < n ==> 0 <= k(i) && 8.0 * k(i) as real <= a(i) + b(i)
    ensures 8.0 * SumTo(n, k) as real <= RealSum(n, a) + RealSum(n, b)
  {
    if n > 0 {
      UnitsAddUp(n - 1, k, a, b);
    }
  }

  // ---- Such prices exist ------------------------------------------------------------------------------------------

  const STEP: int := 89292430636153603391240

  function EvenPrice(t: int): u128 {
    if t <= MIN_TICK_INDEX then MIN_SQRT_PRICE
    else if t >= MAX_TICK_INDEX then MAX_SQRT_PRICE
    else MIN_SQRT_PRICE + (t - MIN_TICK_INDEX) * STEP
  }

  function EvenTick(p: u128): int {
    if p <= MIN_SQRT_PRICE then MIN_TICK_INDEX
    else if p >= MAX_SQRT_PRICE then MAX_TICK_INDEX
    else
      var t := MIN_TICK_INDEX + (p - MIN_SQRT_PRICE) / STEP;
      if t < MAX_TICK_INDEX then t else MAX_TICK_INDEX - 1
  }

  lemma EvenPricesGrow(s: int, t: int)
    requires MIN_TICK_INDEX <= s < t <= MAX_TICK_INDEX
    ensures EvenPrice(s) < EvenPrice(t)
  {
    Rounding.Scale(s - MIN_TICK_INDEX + 1, t - MIN_TICK_INDEX, STEP);
  }

  lemma EvenTickIsLast(p: u128)
    requires MIN_SQRT_PRICE <= p <= MAX_SQRT_PRICE
    ensures MIN_TICK_INDEX <= EvenTick(p) <= MAX_TICK_INDEX && EvenPrice(EvenTick(p)) <= p
    ensures EvenTick(p) < MAX_TICK_INDEX ==> p < EvenPrice(EvenTick(p) + 1)
  {
    Rounding.FloorWithin(p - MIN_SQRT_PRICE, STEP);
    Rounding.FloorIsGreatest(p - MIN_SQRT_PRICE, STEP, 0);
  }

  lemma EvenIsMonotone(g: Grid)
    requires (forall t :: g.priceAt(t) == EvenPrice(t)) && (forall p :: g.tickAt(p) == EvenTick(p))
    ensures Monotone(g)
  {
    forall s, t | MIN_TICK_INDEX <= s < t <= MAX_TICK_INDEX
      ensures g.priceAt(s) < g.priceAt(t)
    {
      EvenPricesGrow(s, t);
    }
    forall p: u128 | MIN_SQRT_PRICE <= p <= MAX_SQRT_PRICE
      ensures MIN_TICK_INDEX <= g.tickAt(p) <= MAX_TICK_INDEX && g.priceAt(g.tickAt(p)) <= p
      ensures g.tickAt(p) < MAX_TICK_INDEX ==> p < g.priceAt(g.tickAt(p) + 1)
    {
      EvenTickIsLast(p);
    }
  }

  /** Nothing above is assumed of prices that could not be: evenly spaced ones meet it all. */
  lemma GridsExist() returns (g: Grid)
    ensures Monotone(g) && Spread(g)
  {
    g := Grid((t: int) => EvenPrice(t), (p: u128) => EvenTick(p));
    EvenIsMonotone(g);
    EvenIsSpread(g);
  }

  lemma EvenIsSpread(g: Grid)
    requires forall t :: g.priceAt(t) == EvenPrice(t)
    ensures Spread(g)
  {
    forall t | MIN_TICK_INDEX <= t < MAX_TICK_INDEX
      ensures
        var low, high := g.priceAt(t), g.priceAt(t + 1);
        16 <= high - low && 16 * (high * high) <= TWO_128 * (high - low)
    {
      EvenGap(t);
    }
  }

  lemma EvenGap(t: int)
    requires MIN_TICK_INDEX <= t < MAX_TICK_INDEX
    ensures STEP <= EvenPrice(t + 1) - EvenPrice(t)
    ensures 16 * (EvenPrice(t + 1) * EvenPrice(t + 1)) <= TWO_128 * (EvenPrice(t + 1) - EvenPrice(t))
  {
    var high := EvenPrice(t + 1);
    Rounding.Scale(high, MAX_SQRT_PRICE, high);
    Rounding.Scale(high, MAX_SQRT_PRICE, MAX_SQRT_PRICE);
    assert 16 * (MAX_SQRT_PRICE * MAX_SQRT_PRICE) <= TWO_128 * STEP;
  }
}
