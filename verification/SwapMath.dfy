/** One step of a swap between two prices (math/swap_math.rs, and the next prices of math/token_math.rs). */
module SwapMath {
  import opened Words
  import opened FixedPoint
  import opened TokenMath
  import Prices
  import Rounding

  const MIN_SQRT_PRICE: int := 4295048016
  const MAX_SQRT_PRICE: int := 79226673515401279992447579055
  const FEE_RATE_MUL_VALUE: int := 1000000

  /** Hundredths of a basis point; the program rejects more than three percent. */
  type FeeRate = x: int | 0 <= x <= 30000

  // ---- Next prices ------------------------------------------------------------------------------------------

  function NextPriceFromA(price: u128, liquidity: u128, amount: u64, isInput: bool): Result<u128> {
    if amount == 0 then Ok(price)
    else
      Rounding.Scale(0, price, amount);
      Rounding.Scale(0, liquidity, price);
      if liquidity * price >= TWO_192 then Err(MultiplicationOverflow)
      else if !isInput && liquidity * TWO_64 <= price * amount then Err(DivideByZero)
      else
        var denominator := if isInput then liquidity * TWO_64 + price * amount else liquidity * TWO_64 - price * amount;
        if denominator == 0 then Err(ArithmeticOverflow)
        else
          var next := Rounding.DivRoundUp(liquidity * price * TWO_64, denominator);
          if next >= TWO_128 then Err(NumberDownCastError)
          else if next < MIN_SQRT_PRICE then Err(TokenMinSubceeded)
          else if next > MAX_SQRT_PRICE then Err(TokenMaxExceeded)
          else Ok(next)
  }

  function NextPriceFromB(price: u128, liquidity: u128, amount: u64, isInput: bool): Result<u128> {
    if liquidity == 0 then Err(DivideByZero)
    else
      var delta := if isInput then amount * TWO_64 / liquidity else Rounding.DivRoundUp(amount * TWO_64, liquidity);
      Rounding.FloorIsGreatest(amount * TWO_64, liquidity, 0);
      if isInput then (if price + delta < TWO_128 then Ok(price + delta) else Err(SqrtPriceOutOfBounds))
      else if price - delta >= 0 then Ok(price - delta)
      else Err(SqrtPriceOutOfBounds)
  }

  function NextPrice(price: u128, liquidity: u128, amount: u64, isInput: bool, aToB: bool): Result<u128> {
    if isInput == aToB then NextPriceFromA(price, liquidity, amount, isInput)
    else NextPriceFromB(price, liquidity, amount, isInput)
  }

  function Specified(isInput: bool): Prices.AmountSpecified {
    if isInput then Prices.Input else Prices.Output
  }

  function Direction(aToB: bool): Prices.SwapDirection {
    if aToB then Prices.AtoB else Prices.BtoA
  }

  /** The program's next prices are the SDK's. */
  lemma NextPriceIsQuoted(price: u128, liquidity: u128, amount: u64, isInput: bool, aToB: bool)
    requires price > 0 && liquidity > 0
    ensures
      var r := NextPrice(price, liquidity, amount, isInput, aToB);
      r.Ok? ==>
        && Prices.Defined(price, liquidity, amount, Specified(isInput), Direction(aToB))
        && r.value == Prices.NextSqrtPrice(price, liquidity, amount, Specified(isInput), Direction(aToB))
  {
    if amount == 0 {
      assert amount * price == 0;
      ExactPrice(price, liquidity);
    }
  }

  lemma ExactPrice(price: u128, liquidity: u128)
    requires liquidity > 0
    ensures Rounding.DivRoundUp(liquidity * price * TWO_64, liquidity * TWO_64) == price
  {
    Rounding.CeilingIsLeast(liquidity * price * TWO_64, liquidity * TWO_64, price);
    Rounding.CeilingIsLeast(liquidity * price * TWO_64, liquidity * TWO_64, price - 1);
    assert liquidity * TWO_64 * price == liquidity * price * TWO_64;
    assert liquidity * TWO_64 * (price - 1) == liquidity * price * TWO_64 - liquidity * TWO_64;
  }

  // ---- Amounts of a step --------------------------------------------------------------------------------------

  /** The amount of the token whose amount was specified. */
  function FixedDelta(price: u128, target: u128, liquidity: u128, isInput: bool, aToB: bool): Result<u64> {
    if aToB == isInput then AmountDeltaA(price, target, liquidity, isInput)
    else AmountDeltaB(price, target, liquidity, isInput)
  }

  /** The amount of the other token. */
  function UnfixedDelta(price: u128, target: u128, liquidity: u128, isInput: bool, aToB: bool): Result<u64> {
    if aToB == isInput then AmountDeltaB(price, target, liquidity, !isInput)
    else AmountDeltaA(price, target, liquidity, !isInput)
  }

  datatype SwapStep = SwapStep(amountIn: u64, amountOut: u64, nextPrice: u128, feeAmount: u64)

  function Downcast(n: u128): Result<u64> {
    if n < TWO_64 then Ok(n) else Err(NumberDownCastError)
  }

  /** What of the remaining amount can be exchanged; for an input, the fee comes off first. */
  function Exchangeable(remaining: u64, feeRate: FeeRate, isInput: bool): Result<u64> {
    if isInput then
      var n :- CheckedMulDiv(remaining, FEE_RATE_MUL_VALUE - feeRate, FEE_RATE_MUL_VALUE);
      Downcast(n)
    else Ok(remaining)
  }

  /** The fee on an input that was not limited by the remaining amount. */
  function FeeOn(amountIn: u64, feeRate: FeeRate): Result<u64> {
    var n :- CheckedMulDivRoundUpIf(amountIn, feeRate, FEE_RATE_MUL_VALUE - feeRate, true);
    Downcast(n)
  }

  function ComputeSwap(remaining: u64, feeRate: FeeRate, liquidity: u128, price: u128, target: u128, isInput: bool, aToB: bool):
    Result<SwapStep>
  {
    var whole :- FixedDelta(price, target, liquidity, isInput, aToB);
    var amount :- Exchangeable(remaining, feeRate, isInput);
    var next :- if amount >= whole then Ok(target) else NextPrice(price, liquidity, amount, isInput, aToB);
    var unfixed :- UnfixedDelta(price, next, liquidity, isInput, aToB);
    var part :- if next == target then Ok(whole) else FixedDelta(price, next, liquidity, isInput, aToB);
    var amountIn, amountOut := if isInput then part else unfixed, if isInput then unfixed else part;
    var fee :- if isInput && next != target then Ok(WrapSub64(remaining, amountIn)) else FeeOn(amountIn, feeRate);
    Ok(SwapStep(amountIn, if !isInput && amountOut > remaining then remaining else amountOut, next, fee))
  }

  lemma ExchangeableIsShare(remaining: u64, feeRate: FeeRate)
    ensures
      var r := Exchangeable(remaining, feeRate, true);
      r.Ok? && FEE_RATE_MUL_VALUE * r.value <= remaining * (FEE_RATE_MUL_VALUE - feeRate) <= FEE_RATE_MUL_VALUE * remaining
  {
    Rounding.Scale(FEE_RATE_MUL_VALUE - feeRate, FEE_RATE_MUL_VALUE, remaining);
    MulDivIsExact(remaining, FEE_RATE_MUL_VALUE - feeRate, FEE_RATE_MUL_VALUE, false);
  }

  /** An affordable input leaves enough for its fee. */
  lemma FeeFits(amountIn: u64, feeRate: FeeRate, remaining: u64, affordable: u64)
    requires Exchangeable(remaining, feeRate, true) == Ok(affordable) && amountIn <= affordable
    ensures FeeOn(amountIn, feeRate).Ok? && amountIn + FeeOn(amountIn, feeRate).value <= remaining
  {
    var rest := FEE_RATE_MUL_VALUE - feeRate;
    ExchangeableIsShare(remaining, feeRate);
    Rounding.Scale(0, feeRate, amountIn);
    Rounding.Scale(feeRate, FEE_RATE_MUL_VALUE, amountIn);
    MulDivIsExact(amountIn, feeRate, rest, true);
    var fee := CheckedMulDivRoundUpIf(amountIn, feeRate, rest, true).value;
    Rounding.Cancel(remaining - amountIn, fee - 1, rest);
    FeeShares(amountIn, feeRate, rest, remaining);
    assert (fee - 1) * rest == rest * fee - rest;
  }

  lemma FeeShares(amountIn: int, feeRate: int, rest: int, remaining: int)
    requires feeRate + rest == FEE_RATE_MUL_VALUE && FEE_RATE_MUL_VALUE * amountIn <= remaining * rest
    ensures amountIn * feeRate <= (remaining - amountIn) * rest
  {
    assert (remaining - amountIn) * rest == remaining * rest - amountIn * rest;
    assert amountIn * feeRate + amountIn * rest == amountIn * FEE_RATE_MUL_VALUE;
  }

  /** The price moves towards the target and not beyond it. */
  predicate Between(aToB: bool, price: u128, next: u128, target: u128) {
    if aToB then target <= next <= price else price <= next <= target
  }

  /** An amount too small for the whole way does not lead beyond it. */
  lemma NextPriceStays(price: u128, liquidity: u128, amount: u64, target: u128, isInput: bool, aToB: bool, next: u128)
    requires 0 < price && 0 < target && Between(aToB, price, price, target) && liquidity > 0
    requires NextPrice(price, liquidity, amount, isInput, aToB) == Ok(next)
    requires amount < Prices.AmountFixedDelta(price, target, liquidity, Specified(isInput), Direction(aToB))
    ensures Between(aToB, price, next, target)
  {
    NextPriceIsQuoted(price, liquidity, amount, isInput, aToB);
    Prices.NextPriceIsBest(price, liquidity, amount, Specified(isInput), Direction(aToB), target);
    NextPriceMovesOn(price, liquidity, amount, isInput, aToB, next);
  }

  lemma NextPriceMovesOn(price: u128, liquidity: u128, amount: u64, isInput: bool, aToB: bool, next: u128)
    requires 0 < price && liquidity > 0 && NextPrice(price, liquidity, amount, isInput, aToB) == Ok(next)
    ensures if aToB then next <= price else price <= next
  {
    if isInput != aToB {
      Rounding.FloorIsGreatest(amount * TWO_64, liquidity, 0);
      Rounding.CeilingIsLeast(amount * TWO_64, liquidity, -1);
    } else if amount > 0 {
      Rounding.Scale(0, price, amount);
      if isInput {
        DividedByMore(liquidity * price * TWO_64, liquidity * TWO_64, price * amount, price);
      } else {
        DividedByLess(liquidity * price * TWO_64, liquidity * TWO_64, price * amount, price);
      }
    }
  }

  lemma DividedByMore(n: int, c: int, more: int, price: int)
    requires n == c * price && 0 <= more && 0 < price && 0 < c
    ensures Rounding.DivRoundUp(n, c + more) <= price
  {
    Rounding.CeilingIsLeast(n, c + more, price);
    Rounding.Scale(0, more, price);
    assert (c + more) * price == c * price + more * price;
  }

  lemma DividedByLess(n: int, c: int, less: int, price: int)
    requires n == c * price && 0 <= less < c && 0 < price
    ensures price <= Rounding.DivRoundUp(n, c - less)
  {
    Rounding.CeilingIsLeast(n, c - less, price - 1);
    Rounding.Scale(0, less, price);
    assert (c - less) * (price - 1) == c * price - less * price - (c - less);
  }

  lemma FixedIsQuoted(price: u128, target: u128, liquidity: u128, isInput: bool, aToB: bool)
    requires price > 0 && target > 0
    ensures
      var r := FixedDelta(price, target, liquidity, isInput, aToB);
      r.Ok? ==> r.value == Prices.AmountFixedDelta(price, target, liquidity, Specified(isInput), Direction(aToB))
  {
    AmountAIsQuoted(price, target, liquidity, isInput);
    AmountBIsQuoted(price, target, liquidity, isInput);
  }

  lemma NothingWithoutLiquidity(price: u128, target: u128, isInput: bool, aToB: bool)
    requires price > 0 && target > 0
    ensures FixedDelta(price, target, 0, isInput, aToB) == Ok(0)
  {
    var (lower, upper) := IncreasingPriceOrder(price, target);
    assert 0 * (upper - lower) == 0;
    Rounding.Scale(1, upper, lower);
    Rounding.CeilingIsLeast(0, upper * lower, 0);
    Rounding.CeilingIsLeast(0, upper * lower, -1);
  }

  /** The amount comes in that the way costs, rounded up, and at most the amount it yields, rounded down, goes out. */
  ghost predicate FairAmounts(step: SwapStep, liquidity: u128, price: u128, aToB: bool) {
    && step.nextPrice > 0 && price > 0
    && if aToB then
         && step.amountIn == Prices.TokenAFromLiquidity(liquidity, price, step.nextPrice, true)
         && step.amountOut <= Prices.TokenBFromLiquidity(liquidity, price, step.nextPrice, false)
       else
         && step.amountIn == Prices.TokenBFromLiquidity(liquidity, price, step.nextPrice, true)
         && step.amountOut <= Prices.TokenAFromLiquidity(liquidity, price, step.nextPrice, false)
  }

  lemma StepAmounts(remaining: u64, feeRate: FeeRate, liquidity: u128, price: u128, target: u128, isInput: bool, aToB: bool,
                    step: SwapStep)
    requires 0 < price && 0 < step.nextPrice
    requires ComputeSwap(remaining, feeRate, liquidity, price, target, isInput, aToB) == Ok(step)
    ensures FairAmounts(step, liquidity, price, aToB)
    ensures !isInput ==> step.amountOut <= remaining
  {
    AmountAIsQuoted(price, step.nextPrice, liquidity, aToB);
    AmountBIsQuoted(price, step.nextPrice, liquidity, !aToB);
  }

  /** Where a step stops short of its target, the amount it was for was affordable or is delivered. */
  lemma ShortStep(price: u128, liquidity: u128, amount: u64, target: u128, isInput: bool, aToB: bool, next: u128, part: u64)
    requires 0 < price && 0 < target && Between(aToB, price, price, target) && liquidity > 0
    requires NextPrice(price, liquidity, amount, isInput, aToB) == Ok(next)
    requires amount < Prices.AmountFixedDelta(price, target, liquidity, Specified(isInput), Direction(aToB))
    requires 0 < next && FixedDelta(price, next, liquidity, isInput, aToB) == Ok(part)
    ensures if isInput then part <= amount else amount <= part
  {
    NextPriceStays(price, liquidity, amount, target, isInput, aToB, next);
    NextPriceIsQuoted(price, liquidity, amount, isInput, aToB);
    Prices.NextPriceIsBest(price, liquidity, amount, Specified(isInput), Direction(aToB), next);
    FixedIsQuoted(price, next, liquidity, isInput, aToB);
  }

  /** Only an affordable input goes the whole way. */
  lemma WholeInputIsAffordable(price: u128, liquidity: u128, amount: u64, target: u128, aToB: bool, whole: u64)
    requires 0 < price && 0 < target && Between(aToB, price, price, target)
    requires FixedDelta(price, target, liquidity, true, aToB) == Ok(whole)
    ensures amount < whole ==> liquidity > 0 && NextPrice(price, liquidity, amount, true, aToB) != Ok(target)
  {
    FixedIsQuoted(price, target, liquidity, true, aToB);
    if liquidity == 0 {
      NothingWithoutLiquidity(price, target, true, aToB);
    } else if amount < whole && NextPrice(price, liquidity, amount, true, aToB).Ok? {
      NextPriceIsQuoted(price, liquidity, amount, true, aToB);
      Prices.NextPriceIsBest(price, liquidity, amount, Prices.Input, Direction(aToB), target);
    }
  }

  /**
    Every step moves the price towards its target and not beyond, exchanges fair amounts, and charges no
    more, or delivers no more, than what remains; a step that stops short of its target uses all of it up.
  */
  lemma StepIsFair(remaining: u64, feeRate: FeeRate, liquidity: u128, price: u128, target: u128, isInput: bool, aToB: bool,
                   step: SwapStep)
    requires 0 < price && 0 < target && Between(aToB, price, price, target)
    requires ComputeSwap(remaining, feeRate, liquidity, price, target, isInput, aToB) == Ok(step)
    ensures Between(aToB, price, step.nextPrice, target) && FairAmounts(step, liquidity, price, aToB)
    ensures if isInput then step.amountIn + step.feeAmount <= remaining else step.amountOut <= remaining
    ensures step.nextPrice != target ==>
      if isInput then step.amountIn + step.feeAmount == remaining else step.amountOut == remaining
  {
    var whole := FixedDelta(price, target, liquidity, isInput, aToB).value;
    var amount := Exchangeable(remaining, feeRate, isInput).value;
    StepMovesOn(remaining, feeRate, liquidity, price, target, isInput, aToB, step, whole, amount);
    StepAmounts(remaining, feeRate, liquidity, price, target, isInput, aToB, step);
    if isInput {
      ExchangeableIsShare(remaining, feeRate);
      WholeInputIsAffordable(price, liquidity, amount, target, aToB, whole);
      if step.nextPrice == target {
        FeeFits(step.amountIn, feeRate, remaining, amount);
      }
    }
  }

  lemma StepMovesOn(remaining: u64, feeRate: FeeRate, liquidity: u128, price: u128, target: u128, isInput: bool, aToB: bool,
                    step: SwapStep, whole: u64, amount: u64)
    requires 0 < price && 0 < target && Between(aToB, price, price, target)
    requires ComputeSwap(remaining, feeRate, liquidity, price, target, isInput, aToB) == Ok(step)
    requires FixedDelta(price, target, liquidity, isInput, aToB) == Ok(whole)
    requires Exchangeable(remaining, feeRate, isInput) == Ok(amount)
    ensures Between(aToB, price, step.nextPrice, target)
    ensures step.nextPrice != target ==>
      exists part :: FixedDelta(price, step.nextPrice, liquidity, isInput, aToB) == Ok(part)
                     && if isInput then part <= amount else amount <= part
  {
    FixedIsQuoted(price, target, liquidity, isInput, aToB);
    if amount < whole {
      if liquidity == 0 {
        NothingWithoutLiquidity(price, target, isInput, aToB);
      } else {
        NextPriceStays(price, liquidity, amount, target, isInput, aToB, step.nextPrice);
        if step.nextPrice != target {
          var part := FixedDelta(price, step.nextPrice, liquidity, isInput, aToB).value;
          ShortStep(price, liquidity, amount, target, isInput, aToB, step.nextPrice, part);
        }
      }
    }
  }
}
