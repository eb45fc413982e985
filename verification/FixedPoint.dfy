/** Checked 128-bit products (math/bit_math.rs) and signed liquidity changes (math/liquidity_math.rs). */
module FixedPoint {
  import opened Words
  import Rounding

  function CheckedMulDivRoundUpIf(n0: u128, n1: u128, d: u128, roundUp: bool): (r: Result<u128>)
  {
    if d == 0 then Err(DivideByZero)
    else if n0 * n1 >= TWO_128 then Err(MulDivOverflow)
    else
      DivisionShrinks(n0 * n1, d);
      var n := n0 * n1 / d;
      Ok(if roundUp && n0 * n1 % d > 0 then n + 1 else n)
  }

  lemma DivisionShrinks(p: int, d: int)
    requires 0 <= p < TWO_128 && 0 < d
    ensures 0 <= p / d <= p
    ensures p % d > 0 ==> p / d + 1 < TWO_128
  {
    assert p == d * (p / d) + p % d;
    if d == 1 {
    } else {
      assert 2 * (p / d) <= d * (p / d) by { Rounding.Scale(2, d, p / d); }
    }
  }

  function CheckedMulDiv(n0: u128, n1: u128, d: u128): Result<u128> {
    CheckedMulDivRoundUpIf(n0, n1, d, false)
  }

  /** The 64-bit result is always exact, because the product is known to fit 128 bits. */
  function CheckedMulShiftRightRoundUpIf(n0: u128, n1: u128, roundUp: bool): (r: Result<u64>)
  {
    if n0 == 0 || n1 == 0 then Ok(0)
    else if n0 * n1 >= TWO_128 then Err(MultiplicationShiftRightOverflow)
    else
      ShiftFits(n0 * n1);
      var result := n0 * n1 / TWO_64 % TWO_64;
      var shouldRound := roundUp && n0 * n1 % TWO_64 > 0;
      if shouldRound && result == TWO_64 - 1 then Err(MultiplicationOverflow)
      else Ok(if shouldRound then result + 1 else result)
  }

  lemma ShiftFits(p: int)
    requires 0 <= p < TWO_128
    ensures 0 <= p / TWO_64 < TWO_64
    ensures p / TWO_64 % TWO_64 == p / TWO_64
    ensures TWO_64 * (p / TWO_64) <= p < TWO_64 * (p / TWO_64) + TWO_64
  {
  }

  function CheckedMulShiftRight(n0: u128, n1: u128): Result<u64> {
    CheckedMulShiftRightRoundUpIf(n0, n1, false)
  }

  /**
    Adds a signed change to a liquidity amount. The absolute value of i128::MIN wraps to itself and
    reads as 2^127 when taken as unsigned, so that change is subtracted like any other.
  */
  function AddLiquidityDelta(liquidity: u128, delta: i128): (r: Result<u128>)
  {
    if delta == 0 then Ok(liquidity)
    else if delta > 0 then
      if liquidity + delta < TWO_128 then Ok(liquidity + delta) else Err(LiquidityOverflow)
    else if -(delta as int) <= liquidity then Ok(liquidity + delta)
    else Err(LiquidityUnderflow)
  }

  function ConvertToLiquidityDelta(amount: u128, positive: bool): Result<i128> {
    if amount > TWO_127 - 1 then Err(LiquidityTooHigh)
    else
      var magnitude: int := amount;
      var delta: i128 := if positive then magnitude else -magnitude;
      Ok(delta)
  }

  /** A checked quotient is given exactly when it exists and the product fits; it is the floor or the ceiling. */
  lemma MulDivIsExact(n0: u128, n1: u128, d: u128, roundUp: bool)
    ensures CheckedMulDivRoundUpIf(n0, n1, d, roundUp).Ok? <==> d > 0 && n0 * n1 < TWO_128
    ensures
      var r := CheckedMulDivRoundUpIf(n0, n1, d, roundUp);
      r.Ok? ==> if roundUp then d * r.value - d < n0 * n1 <= d * r.value else d * r.value <= n0 * n1 < d * r.value + d
  {
    if d > 0 && n0 * n1 < TWO_128 {
      Rounding.Scale(0, n0, n1);
      var p := n0 * n1;
      assert p == d * (p / d) + p % d;
      assert d * (p / d + 1) == d * (p / d) + d;
    }
  }

  /** The same for 64 fractional bits; the only result that does not fit comes from rounding up. */
  lemma MulShiftIsExact(n0: u128, n1: u128, roundUp: bool)
    ensures CheckedMulShiftRightRoundUpIf(n0, n1, roundUp).Ok? <==>
      n0 * n1 < TWO_128 && (roundUp ==> n0 * n1 <= TWO_64 * (TWO_64 - 1))
    ensures
      var r := CheckedMulShiftRightRoundUpIf(n0, n1, roundUp);
      r.Ok? ==>
        if roundUp then TWO_64 * r.value - TWO_64 < n0 * n1 <= TWO_64 * r.value
        else TWO_64 * r.value <= n0 * n1 < TWO_64 * r.value + TWO_64
  {
    Rounding.Scale(0, n0, n1);
    if n0 == 0 || n1 == 0 {
      assert n0 * n1 == 0;
    } else if n0 * n1 < TWO_128 {
      ShiftFits(n0 * n1);
      assert n0 * n1 == TWO_64 * (n0 * n1 / TWO_64) + n0 * n1 % TWO_64;
    }
  }

  /** A liquidity change succeeds exactly when the sum is a word, is that sum, and can be taken back. */
  lemma DeltaIsSigned(liquidity: u128, delta: i128)
    ensures AddLiquidityDelta(liquidity, delta).Ok? <==> 0 <= liquidity + delta < TWO_128
    ensures AddLiquidityDelta(liquidity, delta).Ok? ==>
      var sum := AddLiquidityDelta(liquidity, delta).value;
      sum == liquidity + delta && (delta != -TWO_127 ==> AddLiquidityDelta(sum, WrapNegate(delta)) == Ok(liquidity))
  {
  }
}
