/** Prices after a swap and amounts between prices (utils/swap-utils.ts, utils/position-util.ts), on unbounded integers. */
module Prices {
  import opened Words
  import opened Rounding

  datatype SwapDirection = AtoB | BtoA
  datatype AmountSpecified = Input | Output

  function ShiftRightRoundUp(n: nat): int {
    DivRoundUp(n, TWO_64)
  }

  // ---- swap-utils ------------------------------------------------------------------------------------

  function LowerSqrtPriceFromTokenA(amount: nat, liquidity: nat, price: nat): int
    requires liquidity * TWO_64 + amount * price > 0
  {
    DivRoundUp(liquidity * price * TWO_64, liquidity * TWO_64 + amount * price)
  }

  function UpperSqrtPriceFromTokenA(amount: nat, liquidity: nat, price: nat): int
    requires liquidity * TWO_64 - amount * price > 0
  {
    DivRoundUp(liquidity * price * TWO_64, liquidity * TWO_64 - amount * price)
  }

  function LowerSqrtPriceFromTokenB(amount: nat, liquidity: nat, price: nat): int
    requires liquidity > 0
  {
    price - DivRoundUp(amount * TWO_64, liquidity)
  }

  function UpperSqrtPriceFromTokenB(amount: nat, liquidity: nat, price: nat): int
    requires liquidity > 0
  {
    price + amount * TWO_64 / liquidity
  }

  // ---- position-util -----------------------------------------------------------------------------------

  /** Each formula needs a positive denominator; only an output of token A can lack one. */
  predicate Defined(price: nat, liquidity: nat, amount: nat, specified: AmountSpecified, direction: SwapDirection) {
    liquidity > 0 && (specified == Output && direction == BtoA ==> liquidity * TWO_64 - amount * price > 0)
  }

  function NextSqrtPrice(price: nat, liquidity: nat, amount: nat, specified: AmountSpecified, direction: SwapDirection): int
    requires Defined(price, liquidity, amount, specified, direction)
  {
    if specified == Input && direction == AtoB then
      Scale(0, amount, price);
      LowerSqrtPriceFromTokenA(amount, liquidity, price)
    else if specified == Output && direction == BtoA then
      UpperSqrtPriceFromTokenA(amount, liquidity, price)
    else if specified == Input && direction == BtoA then
      UpperSqrtPriceFromTokenB(amount, liquidity, price)
    else
      LowerSqrtPriceFromTokenB(amount, liquidity, price)
  }

  function OrderSqrtPrice(price0: nat, price1: nat): (nat, nat) {
    if price0 < price1 then (price0, price1) else (price1, price0)
  }

  function TokenAFromLiquidity(liquidity: nat, price0: nat, price1: nat, roundUp: bool): int
    requires price0 > 0 && price1 > 0
  {
    var (lower, upper) := OrderSqrtPrice(price0, price1);
    var numerator := liquidity * (upper - lower) * TWO_64;
    var denominator := upper * lower;
    Scale(1, upper, lower);
    if roundUp then DivRoundUp(numerator, denominator) else numerator / denominator
  }

  function TokenBFromLiquidity(liquidity: nat, price0: nat, price1: nat, roundUp: bool): int {
    var (lower, upper) := OrderSqrtPrice(price0, price1);
    Scale(0, liquidity, upper - lower);
    var result: nat := liquidity * (upper - lower);
    if roundUp then ShiftRightRoundUp(result) else result / TWO_64
  }

  /** Amount of the token whose amount was specified. */
  function AmountFixedDelta(current: nat, target: nat, liquidity: nat, specified: AmountSpecified,
                            direction: SwapDirection): int
    requires current > 0 && target > 0
  {
    if (specified == Input) == (direction == AtoB) then
      TokenAFromLiquidity(liquidity, current, target, specified == Input)
    else
      TokenBFromLiquidity(liquidity, current, target, specified == Input)
  }

  /** Amount of the other token. */
  function AmountUnfixedDelta(current: nat, target: nat, liquidity: nat, specified: AmountSpecified,
                              direction: SwapDirection): int
    requires current > 0 && target > 0
  {
    if (specified == Input) == (direction == AtoB) then
      TokenBFromLiquidity(liquidity, current, target, specified == Output)
    else
      TokenAFromLiquidity(liquidity, current, target, specified == Output)
  }

  function LiquidityFromTokenA(amount: nat, lower: nat, upper: nat, roundUp: bool): int
    requires lower < upper
  {
    Scale(0, amount, lower);
    Scale(0, amount * lower, upper);
    var result := amount * lower * upper / (upper - lower);
    FloorIsGreatest(amount * lower * upper, upper - lower, 0);
    if roundUp then ShiftRightRoundUp(result) else result / TWO_64
  }

  function LiquidityFromTokenB(amount: nat, lower: nat, upper: nat, roundUp: bool): int
    requires lower < upper
  {
    if roundUp then DivRoundUp(amount * TWO_64, upper - lower) else amount * TWO_64 / (upper - lower)
  }

  // ---- Amounts as bounds -----------------------------------------------------------------------------------

  /** A rounded-up amount of token A is within a budget exactly when the unrounded fraction is, and dually. */
  lemma TokenABounds(liquidity: nat, lower: nat, upper: nat, x: int)
    requires 0 < lower <= upper
    ensures TokenAFromLiquidity(liquidity, upper, lower, true) <= x <==> liquidity * (upper - lower) * TWO_64 <= upper * lower * x
    ensures x <= TokenAFromLiquidity(liquidity, upper, lower, false) <==> upper * lower * x <= liquidity * (upper - lower) * TWO_64
    ensures TokenAFromLiquidity(liquidity, lower, upper, true) == TokenAFromLiquidity(liquidity, upper, lower, true)
    ensures TokenAFromLiquidity(liquidity, lower, upper, false) == TokenAFromLiquidity(liquidity, upper, lower, false)
  {
    Scale(1, upper, lower);
    CeilingIsLeast(liquidity * (upper - lower) * TWO_64, upper * lower, x);
    FloorIsGreatest(liquidity * (upper - lower) * TWO_64, upper * lower, x);
  }

  lemma TokenBBounds(liquidity: nat, lower: nat, upper: nat, x: int)
    requires lower <= upper
    ensures TokenBFromLiquidity(liquidity, upper, lower, true) <= x <==> liquidity * (upper - lower) <= TWO_64 * x
    ensures x <= TokenBFromLiquidity(liquidity, upper, lower, false) <==> TWO_64 * x <= liquidity * (upper - lower)
    ensures TokenBFromLiquidity(liquidity, lower, upper, true) == TokenBFromLiquidity(liquidity, upper, lower, true)
    ensures TokenBFromLiquidity(liquidity, lower, upper, false) == TokenBFromLiquidity(liquidity, upper, lower, false)
  {
    CeilingIsLeast(liquidity * (upper - lower), TWO_64, x);
    FloorIsGreatest(liquidity * (upper - lower), TWO_64, x);
  }

  // ---- The next price is the best possible --------------------------------------------------------------------

  /** A price a swap in this direction can move to. */
  predicate OnTheWay(direction: SwapDirection, from: int, to: int) {
    0 < to && if direction == AtoB then to <= from else from <= to
  }

  /** The swap has gone at least as far as another price. */
  predicate AtLeastAsFar(direction: SwapDirection, price: int, other: int) {
    if direction == AtoB then price <= other else other <= price
  }

  /** Exact input of A: the least price whose rounded-up cost is affordable. */
  lemma InputAIsBest(price: nat, liquidity: nat, amount: nat, target: nat)
    requires 0 < target <= price && liquidity > 0
    ensures TokenAFromLiquidity(liquidity, price, target, true) <= amount
        <==> NextSqrtPrice(price, liquidity, amount, Input, AtoB) <= target
  {
    var c := liquidity * TWO_64;
    TokenABounds(liquidity, target, price, amount);
    Scale(0, amount, price);
    CeilingIsLeast(liquidity * price * TWO_64, c + amount * price, target);
    CommonFactor(liquidity, price - target);
    CommonFactor(liquidity, price);
    InputFraction(c, price, target, amount);
  }

  lemma CommonFactor(liquidity: int, x: int)
    ensures liquidity * x * TWO_64 == liquidity * TWO_64 * x
  {
  }

  lemma InputFraction(c: int, price: int, target: int, amount: int)
    ensures c * (price - target) <= price * target * amount <==> c * price <= (c + amount * price) * target
  {
    assert c * (price - target) == c * price - c * target;
    assert (c + amount * price) * target == c * target + price * target * amount;
  }

  lemma OutputFraction(c: int, price: int, target: int, amount: int)
    ensures target * price * amount <= c * (target - price) <==> c * price <= (c - amount * price) * target
  {
    assert c * (target - price) == c * target - c * price;
    assert (c - amount * price) * target == c * target - target * price * amount;
  }

  /** Exact output of A: the least price whose rounded-down yield suffices. */
  lemma OutputAIsBest(price: nat, liquidity: nat, amount: nat, target: nat)
    requires 0 < price <= target && Defined(price, liquidity, amount, Output, BtoA)
    ensures amount <= TokenAFromLiquidity(liquidity, price, target, false)
        <==> NextSqrtPrice(price, liquidity, amount, Output, BtoA) <= target
  {
    var c := liquidity * TWO_64;
    TokenABounds(liquidity, price, target, amount);
    CeilingIsLeast(liquidity * price * TWO_64, c - amount * price, target);
    CommonFactor(liquidity, target - price);
    CommonFactor(liquidity, price);
    OutputFraction(c, price, target, amount);
  }

  /** Exact input of B: the greatest price whose rounded-up cost is affordable. */
  lemma InputBIsBest(price: nat, liquidity: nat, amount: nat, target: nat)
    requires price <= target && liquidity > 0
    ensures TokenBFromLiquidity(liquidity, price, target, true) <= amount
        <==> target <= NextSqrtPrice(price, liquidity, amount, Input, BtoA)
  {
    TokenBBounds(liquidity, price, target, amount);
    FloorIsGreatest(amount * TWO_64, liquidity, target - price);
  }

  /** Exact output of B: the greatest price whose rounded-down yield suffices. */
  lemma OutputBIsBest(price: nat, liquidity: nat, amount: nat, target: nat)
    requires target <= price && liquidity > 0
    ensures amount <= TokenBFromLiquidity(liquidity, price, target, false)
        <==> target <= NextSqrtPrice(price, liquidity, amount, Output, AtoB)
  {
    TokenBBounds(liquidity, target, price, amount);
    CeilingIsLeast(amount * TWO_64, liquidity, price - target);
  }

  /**
    All four formulas at once. For an input, the prices that the amount pays for are exactly those
    the swap passes up to the next price; for an output, the prices that yield the amount are exactly
    those at or beyond the next price.
  */
  lemma NextPriceIsBest(price: nat, liquidity: nat, amount: nat, specified: AmountSpecified, direction: SwapDirection,
                        target: nat)
    requires price > 0 && OnTheWay(direction, price, target)
    requires Defined(price, liquidity, amount, specified, direction)
    ensures
      var next := NextSqrtPrice(price, liquidity, amount, specified, direction);
      var fixed := AmountFixedDelta(price, target, liquidity, specified, direction);
      if specified == Input then fixed <= amount <==> AtLeastAsFar(direction, next, target)
      else amount <= fixed <==> AtLeastAsFar(direction, target, next)
  {
    match (specified, direction)
    case (Input, AtoB) => InputAIsBest(price, liquidity, amount, target);
    case (Output, BtoA) => OutputAIsBest(price, liquidity, amount, target);
    case (Input, BtoA) => InputBIsBest(price, liquidity, amount, target);
    case (Output, AtoB) => OutputBIsBest(price, liquidity, amount, target);
  }

  /** Without a positive denominator no price yields the wanted output of A. */
  lemma UndefinedMeansImpossible(price: nat, liquidity: nat, amount: nat, target: nat)
    requires 0 < price <= target && liquidity > 0
    requires !Defined(price, liquidity, amount, Output, BtoA)
    ensures TokenAFromLiquidity(liquidity, price, target, false) < amount
  {
    TokenABounds(liquidity, price, target, amount);
    CommonFactor(liquidity, target - price);
    NotCovered(liquidity * TWO_64, price, target, amount);
  }

  lemma NotCovered(c: int, price: int, target: int, amount: int)
    requires 0 < c <= amount * price && 0 < price <= target
    ensures c * (target - price) < target * price * amount
  {
    Scale(c, amount * price, target);
    Scale(1, price, c);
    assert c * (target - price) == c * target - c * price;
    assert target * price * amount == amount * price * target;
  }

  /** An input moves the price in its direction and keeps it positive. */
  lemma InputMovesForward(price: nat, liquidity: nat, amount: nat, direction: SwapDirection)
    requires price > 0 && liquidity > 0
    ensures OnTheWay(direction, price, NextSqrtPrice(price, liquidity, amount, Input, direction))
  {
    if direction == AtoB {
      TokenABounds(liquidity, price, price, amount);
      Scale(0, amount, price * price);
      InputAIsBest(price, liquidity, amount, price);
      Scale(0, amount, price);
      Scale(1, liquidity, price);
      CeilingIsLeast(liquidity * price * TWO_64, liquidity * TWO_64 + amount * price, 0);
    } else {
      FloorIsGreatest(amount * TWO_64, liquidity, 0);
    }
  }

  // ---- Nobody gains from a round trip ------------------------------------------------------------------------------

  function Opposite(direction: SwapDirection): SwapDirection {
    if direction == AtoB then BtoA else AtoB
  }

  /** What an exact input costs is at least what was needed for the price it reached. */
  lemma InputCoversMove(price: nat, liquidity: nat, amount: nat, direction: SwapDirection)
    requires price > 0 && liquidity > 0
    ensures
      var next := NextSqrtPrice(price, liquidity, amount, Input, direction);
      next > 0 && AmountFixedDelta(price, next, liquidity, Input, direction) <= amount
  {
    InputMovesForward(price, liquidity, amount, direction);
    NextPriceIsBest(price, liquidity, amount, Input, direction, NextSqrtPrice(price, liquidity, amount, Input, direction));
  }

  /** Paying back at most the rounded-down yield of a move does not undo more than the move. */
  lemma YieldDoesNotOvershoot(low: nat, high: nat, liquidity: nat, amount: nat, direction: SwapDirection)
    requires 0 < low <= high && liquidity > 0
    requires amount <= if direction == AtoB then TokenAFromLiquidity(liquidity, low, high, false)
                       else TokenBFromLiquidity(liquidity, low, high, false)
    ensures direction == AtoB ==> low <= NextSqrtPrice(high, liquidity, amount, Input, AtoB)
    ensures direction == BtoA ==> NextSqrtPrice(low, liquidity, amount, Input, BtoA) <= high
  {
    if direction == AtoB {
      TokenABounds(liquidity, low, high, amount);
      YieldOfA(low, high, liquidity, amount);
    } else {
      TokenBBounds(liquidity, low, high, amount);
      FloorIsGreatest(amount * TWO_64, liquidity, high - low + 1);
      assert liquidity * (high - low + 1) == liquidity * (high - low) + liquidity;
    }
  }

  lemma YieldOfA(low: nat, high: nat, liquidity: nat, amount: nat)
    requires 0 < low <= high && liquidity > 0
    requires high * low * amount <= liquidity * (high - low) * TWO_64
    ensures low <= NextSqrtPrice(high, liquidity, amount, Input, AtoB)
  {
    Scale(0, amount, high);
    var c := liquidity * TWO_64;
    assert liquidity * (high - low) * TWO_64 == c * (high - low) && liquidity * high * TWO_64 == c * high;
    YieldFraction(c, low, high, amount);
    CeilingIsLeast(liquidity * high * TWO_64, c + amount * high, low - 1);
  }

  lemma YieldFraction(c: int, low: nat, high: nat, amount: nat)
    requires 0 < c && high * low * amount <= c * (high - low)
    ensures (c + amount * high) * (low - 1) < c * high
  {
    assert (c + amount * high) * (low - 1) == c * low + high * low * amount - c - amount * high;
    assert c * (high - low) == c * high - c * low;
    Scale(0, amount, high);
  }

  lemma ShorterMoveYieldsLessB(low: nat, low': nat, high': nat, high: nat, liquidity: nat)
    requires low <= low' <= high' <= high
    ensures TokenBFromLiquidity(liquidity, low', high', false) <= TokenBFromLiquidity(liquidity, low, high, true)
  {
    var x := TokenBFromLiquidity(liquidity, low', high', false);
    TokenBBounds(liquidity, low', high', x);
    Scale(high' - low', high - low, liquidity);
    TokenBBounds(liquidity, low, high, x - 1);
  }

  lemma ShorterMoveYieldsLessA(low: nat, low': nat, high': nat, high: nat, liquidity: nat)
    requires 0 < low <= low' <= high' <= high
    ensures TokenAFromLiquidity(liquidity, low', high', false) <= TokenAFromLiquidity(liquidity, low, high, true)
  {
    var y := TokenAFromLiquidity(liquidity, low', high', false);
    TokenABounds(liquidity, low', high', y);
    CommonFactor(liquidity, high' - low');
    ReciprocalGap(liquidity * TWO_64, low, low', high', high, y);
    CommonFactor(liquidity, high - low);
    TokenABounds(liquidity, low, high, y - 1);
    Scale(1, high, low);
    StrictlyLess(high * low, y);
  }

  lemma StrictlyLess(d: int, y: int)
    requires d > 0
    ensures d * (y - 1) < d * y
  {
  }

  lemma StretchProduct(a: int, h': int, h: int, t: int)
    requires 0 <= a <= h' * t && 0 < h' <= h
    ensures a <= h * t
  {
    if t >= 0 {
      Scale(h', h, t);
    } else {
      Scale(t, -1, h');
    }
  }

  lemma ShrinkProduct(b: int, l: int, l': int, t: int)
    requires l' * t <= b && 0 <= b && 0 < l <= l'
    ensures l * t <= b
  {
    if t >= 0 {
      Scale(l, l', t);
    } else {
      Scale(t, 0, l);
    }
  }

  /** If c (1/low' - 1/high') is at least y, then so is c (1/low - 1/high) for a wider range. */
  lemma ReciprocalGap(c: nat, low: nat, low': nat, high': nat, high: nat, y: int)
    requires 0 < low <= low' <= high' <= high && high' * low' * y <= c * (high' - low')
    ensures high * low * y <= c * (high - low)
  {
    assert high' * (c - low' * y) == c * high' - high' * low' * y;
    assert c * (high' - low') == c * high' - c * low';
    Scale(0, c, low');
    StretchProduct(c * low', high', high, c - low' * y);
    assert high * (c - low' * y) == c * high - high * low' * y;
    WidenBelow(c, low, low', high, y);
  }

  lemma WidenBelow(c: nat, low: nat, low': nat, high: nat, y: int)
    requires 0 < low <= low' && c * low' <= c * high - high * low' * y
    ensures high * low * y <= c * (high - low)
  {
    assert low' * (c + high * y) == c * low' + high * low' * y;
    Scale(0, c, high);
    ShrinkProduct(c * high, low, low', c + high * y);
    assert low * (c + high * y) == c * low + high * low * y;
    assert c * (high - low) == c * high - c * low;
  }

  /**
    Swapping any input one way and the rounded-down output straight back, at constant liquidity,
    returns at most the input, and the price does not come back past where it started.
  */
  lemma NoGainFromRoundTrip(price: nat, liquidity: nat, amount: nat, direction: SwapDirection)
    requires price > 0 && liquidity > 0
    ensures
      var there := NextSqrtPrice(price, liquidity, amount, Input, direction);
      there > 0 &&
      var received := AmountUnfixedDelta(price, there, liquidity, Input, direction);
      received >= 0 &&
      var back := NextSqrtPrice(there, liquidity, received, Input, Opposite(direction));
      back > 0 &&
      var returned := AmountUnfixedDelta(there, back, liquidity, Input, Opposite(direction));
      && 0 <= returned <= amount
      && AtLeastAsFar(direction, back, price)
  {
    var there := NextSqrtPrice(price, liquidity, amount, Input, direction);
    InputMovesForward(price, liquidity, amount, direction);
    InputCoversMove(price, liquidity, amount, direction);
    var low, high := if direction == AtoB then there else price, if direction == AtoB then price else there;
    AmountsAreNatural(liquidity, low, high);
    TokenABounds(liquidity, low, high, 0);
    TokenBBounds(liquidity, low, high, 0);
    var received := AmountUnfixedDelta(price, there, liquidity, Input, direction);
    YieldDoesNotOvershoot(low, high, liquidity, received, Opposite(direction));
    InputMovesForward(there, liquidity, received, Opposite(direction));
    var back := NextSqrtPrice(there, liquidity, received, Input, Opposite(direction));
    if direction == AtoB {
      AmountsAreNatural(liquidity, there, back);
      TokenABounds(liquidity, there, back, 0);
      ShorterMoveYieldsLessA(low, there, back, high, liquidity);
    } else {
      AmountsAreNatural(liquidity, back, there);
      TokenBBounds(liquidity, back, there, 0);
      ShorterMoveYieldsLessB(low, back, there, high, liquidity);
    }
  }

  lemma AmountsAreNatural(liquidity: nat, low: nat, high: nat)
    requires 0 < low <= high
    ensures 0 <= TokenAFromLiquidity(liquidity, low, high, false)
    ensures 0 <= TokenBFromLiquidity(liquidity, low, high, false)
  {
    TokenABounds(liquidity, low, high, 0);
    TokenBBounds(liquidity, low, high, 0);
    Scale(0, liquidity, high - low);
  }

  /**
    The two ways of quoting are dual: asking for exactly what an input yields costs at most that input,
    and spending exactly what an output costs yields at least that output.
  */
  lemma QuotesAreDual(price: nat, liquidity: nat, amount: nat, direction: SwapDirection, target: nat)
    requires price > 0 && liquidity > 0 && OnTheWay(direction, price, target)
    ensures
      var proceeds := AmountUnfixedDelta(price, target, liquidity, Input, direction);
      proceeds >= 0 && Defined(price, liquidity, proceeds, Output, direction) &&
      AtLeastAsFar(direction, target, NextSqrtPrice(price, liquidity, proceeds, Output, direction))
    ensures
      var cost := AmountUnfixedDelta(price, target, liquidity, Output, direction);
      cost >= 0 &&
      AtLeastAsFar(direction, NextSqrtPrice(price, liquidity, cost, Input, direction), target)
  {
    var proceeds := AmountUnfixedDelta(price, target, liquidity, Input, direction);
    var cost := AmountUnfixedDelta(price, target, liquidity, Output, direction);
    var low, high := if direction == AtoB then target else price, if direction == AtoB then price else target;
    AmountsAreNatural(liquidity, low, high);
    TokenABounds(liquidity, low, high, 0);
    TokenBBounds(liquidity, low, high, 0);
    CostCoversYield(liquidity, low, high);
    if !Defined(price, liquidity, proceeds, Output, direction) {
      UndefinedMeansImpossible(price, liquidity, proceeds, target);
    }
    NextPriceIsBest(price, liquidity, proceeds, Output, direction, target);
    NextPriceIsBest(price, liquidity, cost, Input, direction, target);
  }

  lemma CostCoversYield(liquidity: nat, low: nat, high: nat)
    requires 0 < low <= high
    ensures TokenAFromLiquidity(liquidity, low, high, false) <= TokenAFromLiquidity(liquidity, low, high, true)
    ensures TokenBFromLiquidity(liquidity, low, high, false) <= TokenBFromLiquidity(liquidity, low, high, true)
  {
    ShorterMoveYieldsLessA(low, low, high, high, liquidity);
    ShorterMoveYieldsLessB(low, low, high, high, liquidity);
  }

  // ---- Splitting a move -------------------------------------------------------------------------------------------

  /** The order of the two prices does not matter. */
  lemma AmountsAreSymmetric(liquidity: nat, price0: nat, price1: nat, roundUp: bool)
    ensures TokenBFromLiquidity(liquidity, price0, price1, roundUp) == TokenBFromLiquidity(liquidity, price1, price0, roundUp)
    ensures price0 > 0 && price1 > 0 ==>
      TokenAFromLiquidity(liquidity, price0, price1, roundUp) == TokenAFromLiquidity(liquidity, price1, price0, roundUp)
  {
  }

  /** Two halves of a move cost at most one unit more, and yield at most one unit less, than the whole. */
  lemma SplittingMoveOfA(liquidity: nat, lower: nat, middle: nat, upper: nat)
    requires 0 < lower <= middle <= upper
    ensures
      var whole := TokenAFromLiquidity(liquidity, lower, upper, true);
      whole <= TokenAFromLiquidity(liquidity, lower, middle, true) + TokenAFromLiquidity(liquidity, middle, upper, true)
            <= whole + 1
    ensures
      var whole := TokenAFromLiquidity(liquidity, lower, upper, false);
      whole - 1 <= TokenAFromLiquidity(liquidity, lower, middle, false) + TokenAFromLiquidity(liquidity, middle, upper, false)
                <= whole
  {
    var c, d := liquidity * TWO_64, lower * middle * upper;
    Scale(1, lower, middle);
    Scale(1, lower * middle, upper);
    assert middle * upper * lower == d;
    assert lower * upper * middle == d;
    OverCommonDenominator(liquidity, lower, middle, upper, d);
    OverCommonDenominator(liquidity, middle, upper, lower, d);
    OverCommonDenominator(liquidity, lower, upper, middle, d);
    NumeratorsAdd(c, lower, middle, upper);
    SplitCeiling(c * (middle - lower) * upper, c * (upper - middle) * lower, d);
    SplitFloor(c * (middle - lower) * upper, c * (upper - middle) * lower, d);
  }

  lemma NumeratorsAdd(c: int, lower: int, middle: int, upper: int)
    ensures c * (middle - lower) * upper + c * (upper - middle) * lower == c * (upper - lower) * middle
  {
  }

  lemma SplittingMoveOfB(liquidity: nat, lower: nat, middle: nat, upper: nat)
    requires lower <= middle <= upper
    ensures
      var whole := TokenBFromLiquidity(liquidity, lower, upper, true);
      whole <= TokenBFromLiquidity(liquidity, lower, middle, true) + TokenBFromLiquidity(liquidity, middle, upper, true)
            <= whole + 1
    ensures
      var whole := TokenBFromLiquidity(liquidity, lower, upper, false);
      whole - 1 <= TokenBFromLiquidity(liquidity, lower, middle, false) + TokenBFromLiquidity(liquidity, middle, upper, false)
                <= whole
  {
    var x, y := liquidity * (middle - lower), liquidity * (upper - middle);
    assert x + y == liquidity * (upper - lower);
    SplitCeiling(x, y, TWO_64);
    SplitFloor(x, y, TWO_64);
  }

  /** A token A amount with its fraction extended by a third price. */
  lemma OverCommonDenominator(liquidity: nat, lower: nat, upper: nat, other: nat, d: nat)
    requires 0 < lower <= upper && 0 < other && d == lower * upper * other && d > 0
    ensures TokenAFromLiquidity(liquidity, lower, upper, true) == DivRoundUp(liquidity * TWO_64 * (upper - lower) * other, d)
    ensures TokenAFromLiquidity(liquidity, lower, upper, false) == liquidity * TWO_64 * (upper - lower) * other / d
  {
    Scale(1, lower, upper);
    var n := liquidity * (upper - lower) * TWO_64;
    assert n == liquidity * TWO_64 * (upper - lower);
    assert upper * lower == lower * upper;
    ExtendFraction(n, lower * upper, other);
  }

  // ---- Deposits --------------------------------------------------------------------------------------------------------

  /** The liquidity for an amount of token A is the greatest whose rounded-up cost is affordable. */
  lemma DepositOfAIsBest(amount: nat, lower: nat, upper: nat, liquidity: nat)
    requires 0 < lower < upper
    ensures TokenAFromLiquidity(liquidity, lower, upper, true) <= amount
        <==> liquidity <= LiquidityFromTokenA(amount, lower, upper, false)
  {
    TokenABounds(liquidity, lower, upper, amount);
    var product, width := amount * lower * upper, upper - lower;
    Scale(0, amount, lower);
    Scale(0, amount * lower, upper);
    FloorIsGreatest(product / width, TWO_64, liquidity);
    FloorIsGreatest(product, width, TWO_64 * liquidity);
    assert width * (TWO_64 * liquidity) == liquidity * width * TWO_64;
    assert product == upper * lower * amount;
  }

  /** For token B, rounding down gives the greatest affordable liquidity, rounding up the least sufficient one. */
  lemma DepositOfBIsBest(amount: nat, lower: nat, upper: nat, liquidity: nat)
    requires lower < upper
    ensures TokenBFromLiquidity(liquidity, lower, upper, true) <= amount
        <==> liquidity <= LiquidityFromTokenB(amount, lower, upper, false)
    ensures amount <= TokenBFromLiquidity(liquidity, lower, upper, false)
        <==> LiquidityFromTokenB(amount, lower, upper, true) <= liquidity
  {
    TokenBBounds(liquidity, lower, upper, amount);
    var width := upper - lower;
    FloorIsGreatest(amount * TWO_64, width, liquidity);
    CeilingIsLeast(amount * TWO_64, width, liquidity);
    assert width * liquidity == liquidity * width;
  }
}
