/**
 Fixed-point money. Statement amounts are exact decimals; the ledger stores
 `int(amount * divisor)`, and Python's `int()` on a decimal truncates toward
 zero. Decimals are modelled as Dafny's exact `real`.
 */
module Amounts {

  /** `int(x)` for an exact decimal `x`: the integer part, truncated toward zero. */
  function Trunc(x: real): (n: int)
    ensures x >= 0.0 ==> n as real <= x < n as real + 1.0
    ensures x <= 0.0 ==> n as real - 1.0 < x <= n as real
  {
    if x >= 0.0 then x.Floor else -((-x).Floor)
  }

  /** The stored integer for a decimal amount in a currency with this divisor. */
  function Scale(amount: real, divisor: int): int {
    Trunc(amount * divisor as real)
  }

  /** The stored integer is within one unit of the exact scaled amount, on the side of zero. */
  lemma ScaleWithinOneUnit(amount: real, divisor: int)
    ensures var exact := amount * divisor as real;
      var n := Scale(amount, divisor) as real;
      -1.0 < exact - n < 1.0 && (exact >= 0.0 ==> 0.0 <= n <= exact) && (exact <= 0.0 ==> exact <= n <= 0.0)
  {
  }

  /** Truncation is symmetric: a debit and a credit of the same size scale to opposite integers. */
  lemma TruncOpposite(x: real)
    ensures Trunc(-x) == -Trunc(x)
  {
  }

  /** An amount that is already a whole number of units is stored exactly. */
  lemma TruncWhole(n: int)
    ensures Trunc(n as real) == n
  {
  }

  /** Truncation never reorders amounts. */
  lemma TruncMonotone(x: real, y: real)
    requires x <= y
    ensures Trunc(x) <= Trunc(y)
  {
  }

  /** 12.34 in a currency of divisor 100 is stored as exactly 1234. */
  lemma ScaleCents()
    ensures Scale(12.34, 100) == 1234
    ensures Scale(-50.00, 100) == -5000
  {
    assert 12.34 * 100 as real == 1234 as real;
    TruncWhole(1234);
    assert -50.00 * 100 as real == -5000 as real;
    TruncWhole(-5000);
  }
}
