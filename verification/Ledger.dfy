/**
  The naive ledger the accumulators stand for: every growth increment with the tick it was made at,
  every payment, and everything settlements ever credited. Nothing here wraps.
*/
module Ledger {
  import opened State

  datatype Event =
    | Grew(stream: Stream, tick: int, growth: nat, budgetX64: nat)
    | Paid(stream: Stream, amount: nat)

  type Log = seq<Event>

  /** An amount a settlement credited to a position. */
  datatype Credited = Credited(stream: Stream, amount: nat)

  type Credits = seq<Credited>

  function GrowthWithin(e: Event, k: Stream, lower: int, upper: int): nat {
    if e.Grew? && e.stream == k && lower <= e.tick < upper then e.growth else 0
  }

  /** Growth of a stream made while the current tick was in [lower, upper). */
  ghost function Earned(log: Log, k: Stream, lower: int, upper: int): nat {
    if log == [] then 0
    else Earned(log[..|log| - 1], k, lower, upper) + GrowthWithin(log[|log| - 1], k, lower, upper)
  }

  /** Amounts released to a stream, times 2^64. */
  ghost function BudgetX64(log: Log, k: Stream): nat {
    if log == [] then 0
    else
      var e := log[|log| - 1];
      BudgetX64(log[..|log| - 1], k) + if e.Grew? && e.stream == k then e.budgetX64 else 0
  }

  ghost function PaidOut(log: Log, k: Stream): nat {
    if log == [] then 0
    else
      var e := log[|log| - 1];
      PaidOut(log[..|log| - 1], k) + if e.Paid? && e.stream == k then e.amount else 0
  }

  ghost function CreditedTotal(credits: Credits, k: Stream): nat {
    if credits == [] then 0
    else
      var c := credits[|credits| - 1];
      CreditedTotal(credits[..|credits| - 1], k) + if c.stream == k then c.amount else 0
  }

  lemma AppendCredit(credits: Credits, c: Credited, k: Stream)
    ensures CreditedTotal(credits + [c], k) == CreditedTotal(credits, k) + if c.stream == k then c.amount else 0
  {
    assert (credits + [c])[..|credits|] == credits;
  }

  lemma Append(log: Log, e: Event, k: Stream, lower: int, upper: int)
    ensures Earned(log + [e], k, lower, upper) == Earned(log, k, lower, upper) + GrowthWithin(e, k, lower, upper)
    ensures BudgetX64(log + [e], k) == BudgetX64(log, k) + if e.Grew? && e.stream == k then e.budgetX64 else 0
    ensures PaidOut(log + [e], k) == PaidOut(log, k) + if e.Paid? && e.stream == k then e.amount else 0
  {
    assert (log + [e])[..|log|] == log;
  }

  /** The part of the log from `since` on, after one more event. */
  lemma AppendSince(log: Log, since: nat, e: Event, k: Stream, lower: int, upper: int)
    requires since <= |log|
    ensures Earned((log + [e])[since..], k, lower, upper)
         == Earned(log[since..], k, lower, upper) + GrowthWithin(e, k, lower, upper)
  {
    assert (log + [e])[since..] == log[since..] + [e];
    Append(log[since..], e, k, lower, upper);
  }

  lemma {:induction false} Concat(a: Log, b: Log, k: Stream, lower: int, upper: int)
    ensures Earned(a + b, k, lower, upper) == Earned(a, k, lower, upper) + Earned(b, k, lower, upper)
    ensures BudgetX64(a + b, k) == BudgetX64(a, k) + BudgetX64(b, k)
    ensures PaidOut(a + b, k) == PaidOut(a, k) + PaidOut(b, k)
    decreases |b|
  {
    if b == [] {
      assert a + b == a;
    } else {
      var front, e := b[..|b| - 1], b[|b| - 1];
      assert b == front + [e];
      assert a + b == (a + front) + [e];
      Concat(a, front, k, lower, upper);
      Append(a + front, e, k, lower, upper);
      Append(front, e, k, lower, upper);
    }
  }
}
