/**
  Token amounts of a liquidity change (math/token_math.rs). The products and quotients of 256 bits
  are taken to be exact.
*/
module TokenMath {
  import opened Words
  import opened FixedPoint
  import Rounding
  import Prices

  const TWO_192: int := 0x1_0000_0000_0000_0000_0000_0000_0000_0000_0000_0000_0000_0000

  function IncreasingPriceOrder(price0: u128, price1: u128): (u128, u128) {
    if price0 > price1 then (price1, price0) else (price0, price1)
  }

  /** A price of zero makes the division panic. */
  function AmountDeltaA(price0: u128, price1: u128, liquidity: u128, roundUp: bool): Result<u64> {
    var (lower, upper) := IncreasingPriceOrder(price0, price1);
    Rounding.Scale(0, liquidity, upper - lower);
    if liquidity * (upper - lower) >= TWO_192 then Err(MultiplicationOverflow)
    else if lower == 0 then Err(ArithmeticOverflow)
    else
      Rounding.Scale(1, upper, lower);
      var numerator, denominator := liquidity * (upper - lower) * TWO_64, upper * lower;
      var result := if roundUp then Rounding.DivRoundUp(numerator, denominator) else numerator / denominator;
      if result >= TWO_128 then Err(NumberDownCastError)
      else if result >= TWO_64 then Err(TokenMaxExceeded)
      else
        Rounding.FloorIsGreatest(numerator, denominator, 0);
        Ok(result)
  }

  function AmountDeltaB(price0: u128, price1: u128, liquidity: u128, roundUp: bool): Result<u64> {
    var (lower, upper) := IncreasingPriceOrder(price0, price1);
    CheckedMulShiftRightRoundUpIf(liquidity, upper - lower, roundUp)
  }

  /** Prices, product and amount are within what the program's amount of A can be computed from. */
  predicate AmountAFits(price0: u128, price1: u128, liquidity: u128, roundUp: bool) {
    && price0 > 0 && price1 > 0
    && liquidity * (if price0 < price1 then price1 - price0 else price0 - price1) < TWO_192
    && Prices.TokenAFromLiquidity(liquidity, price0, price1, roundUp) < TWO_64
  }

  /** The program's amounts of A are the SDK's, and exist exactly when they and their products fit. */
  lemma AmountAIsQuoted(price0: u128, price1: u128, liquidity: u128, roundUp: bool)
    ensures
      var r := AmountDeltaA(price0, price1, liquidity, roundUp);
      && (r.Ok? <==> AmountAFits(price0, price1, liquidity, roundUp))
      && (r.Ok? ==> r.value == Prices.TokenAFromLiquidity(liquidity, price0, price1, roundUp))
  {
  }

  /** The program's amounts of B are the SDK's, and exist exactly when they fit 64 bits. */
  lemma AmountBIsQuoted(price0: u128, price1: u128, liquidity: u128, roundUp: bool)
    ensures
      var r := AmountDeltaB(price0, price1, liquidity, roundUp);
      var quoted := Prices.TokenBFromLiquidity(liquidity, price0, price1, roundUp);
      && (r.Ok? <==> quoted < TWO_64)
      && (r.Ok? ==> r.value == quoted)
  {
    var (lower, upper) := IncreasingPriceOrder(price0, price1);
    MulShiftIsExact(liquidity, upper - lower, roundUp);
    Prices.TokenBBounds(liquidity, lower, upper, TWO_64 - 1);
    Prices.TokenBBounds(liquidity, lower, upper, TWO_64);
    var r := AmountDeltaB(price0, price1, liquidity, roundUp);
    if r.Ok? {
      Prices.TokenBBounds(liquidity, lower, upper, r.value);
      Prices.TokenBBounds(liquidity, lower, upper, (r.value as int) - 1);
      Prices.TokenBBounds(liquidity, lower, upper, (r.value as int) + 1);
    }
  }

  /** Rounding down exists when rounding up does, and is at most one unit less. */
  lemma RoundingCostsOneA(price0: u128, price1: u128, liquidity: u128)
    ensures
      var up, down := AmountDeltaA(price0, price1, liquidity, true), AmountDeltaA(price0, price1, liquidity, false);
      up.Ok? ==> down.Ok? && down.value <= up.value <= down.value + 1
  {
  }

  lemma RoundingCostsOneB(price0: u128, price1: u128, liquidity: u128)
    ensures
      var up, down := AmountDeltaB(price0, price1, liquidity, true), AmountDeltaB(price0, price1, liquidity, false);
      up.Ok? ==> down.Ok? && down.value <= up.value <= down.value + 1
  {
    var (lower, upper) := IncreasingPriceOrder(price0, price1);
    MulShiftIsExact(liquidity, upper - lower, true);
    MulShiftIsExact(liquidity, upper - lower, false);
  }
}
