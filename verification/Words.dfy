/** Machine words, wrapping arithmetic and the result type of fallible program code. */
module Words {
  const TWO_64: int := 0x1_0000_0000_0000_0000
  const TWO_127: int := 0x8000_0000_0000_0000_0000_0000_0000_0000
  const TWO_128: int := 0x1_0000_0000_0000_0000_0000_0000_0000_0000

  type u16 = x: int | 0 <= x < 0x1_0000
  type u64 = x: int | 0 <= x < 0x1_0000_0000_0000_0000
  type u128 = x: int | 0 <= x < 0x1_0000_0000_0000_0000_0000_0000_0000_0000
  type i128 = x: int |
      -0x8000_0000_0000_0000_0000_0000_0000_0000 <= x < 0x8000_0000_0000_0000_0000_0000_0000_0000

  /** The error codes the modelled code returns; InsufficientFunds is a failed transfer, ArithmeticOverflow a panic. */
  datatype ErrorCode =
    | DivideByZero
    | LiquidityZero
    | LiquidityTooHigh
    | LiquidityOverflow
    | LiquidityUnderflow
    | LiquidityNetError
    | InvalidTimestamp
    | InvalidTickIndex
    | InvalidTickSpacing
    | InvalidTickArraySequence
    | TickArraySequenceInvalidIndex
    | InvalidRewardIndex
    | RewardVaultAmountInsufficient
    | MultiplicationShiftRightOverflow
    | MulDivOverflow
    | MultiplicationOverflow
    | NumberDownCastError
    | TokenMaxExceeded
    | TokenMinSubceeded
    | SqrtPriceOutOfBounds
    | InvalidSqrtPriceLimitDirection
    | ZeroTradableAmount
    | AmountRemainingOverflow
    | AmountCalcOverflow
    | AmountOutBelowMinimum
    | AmountInAboveMaximum
    | InsufficientFunds
    | InvalidAccount
    | ArithmeticOverflow

  datatype Option<+T> = None | Some(value: T)

  datatype Result<+T> = Ok(value: T) | Err(error: ErrorCode) {
    predicate IsFailure() {
      Err?
    }

    function PropagateFailure<U>(): Result<U>
      requires Err?
    {
      Err(error)
    }

    function Extract(): T
      requires Ok?
    {
      value
    }
  }

  function WrapAdd(a: u128, b: u128): u128 {
    if a + b < TWO_128 then a + b else a + b - TWO_128
  }

  function WrapSub(a: u128, b: u128): u128 {
    if b <= a then a - b else a - b + TWO_128
  }

  function WrapAdd64(a: u64, b: u64): u64 {
    if a + b < TWO_64 then a + b else a + b - TWO_64
  }

  function WrapSub64(a: u64, b: u64): u64 {
    if b <= a then a - b else a - b + TWO_64
  }

  /** Negation wraps at the least value, which is its own negative. */
  function WrapNegate(a: i128): i128 {
    if a == -TWO_127 then a else -a
  }

  /** A whole number of turns around the 128-bit circle. */
  ghost function Turns(q: int): int {
    q * 0x1_0000_0000_0000_0000_0000_0000_0000_0000
  }

  /** Equality of integers modulo 2^128. */
  ghost predicate Congruent(a: int, b: int) {
    exists q :: a - b == Turns(q)
  }

  lemma CongruentSum(a: int, b: int, c: int, d: int)
    requires Congruent(a, b) && Congruent(c, d)
    ensures Congruent(a + c, b + d)
    ensures Congruent(a - c, b - d)
  {
    var q :| a - b == Turns(q);
    var r :| c - d == Turns(r);
    assert a + c - (b + d) == Turns(q + r);
    assert a - c - (b - d) == Turns(q - r);
  }

  lemma CongruentTransitive(a: int, b: int, c: int)
    requires Congruent(a, b) && Congruent(b, c)
    ensures Congruent(a, c) && Congruent(b, a)
  {
    var q :| a - b == Turns(q);
    var r :| b - c == Turns(r);
    assert a - c == Turns(q + r);
    assert b - a == Turns(-q);
  }

  lemma CongruentReflexive(a: int)
    ensures Congruent(a, a)
  {
    assert a - a == Turns(0);
  }

  lemma WrapSubCongruent(a: u128, b: u128)
    ensures Congruent(WrapSub(a, b), a - b)
  {
    assert WrapSub(a, b) - (a - b) == Turns(if b <= a then 0 else 1);
  }

  lemma WrapSubTwice(g: u128, a: u128, b: u128)
    ensures WrapSub(WrapSub(g, a), WrapSub(g, b)) == WrapSub(b, a)
    ensures WrapSub(g, WrapSub(g, b)) == b
  {
  }

  /** A word is the least non-negative integer in its class. */
  lemma WordIsLeast(word: u128, exact: int)
    requires Congruent(word, exact) && 0 <= exact
    ensures word <= exact
    ensures exact < TWO_128 ==> word == exact
  {
    var q :| word - exact == Turns(q);
  }
}
