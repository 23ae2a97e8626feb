/**
 * Rounding of the final bill to cents, `Math.round(finalCost * 100) / 100`
 * (services/billingService.ts:87). `Math.round` rounds to the nearest
 * integer and sends halves toward positive infinity, which is
 * floor(x + 1/2); exact reals stand for the source's floating-point numbers.
 */
module Rounding {

  function RoundToCents(x: real): real {
    (x * 100.0 + 0.5).Floor as real / 100.0
  }

  /** A whole number of cents. */
  ghost predicate IsCents(x: real) {
    (x * 100.0).Floor as real == x * 100.0
  }

  /**
   * The rounded value is a whole number of cents, the nearest one: it lies
   * less than half a cent below the input and at most half a cent above it.
   */
  lemma RoundToCentsIsNearestCent(x: real)
    ensures IsCents(RoundToCents(x))
    ensures x - 0.005 < RoundToCents(x) <= x + 0.005
  {
    var n := (x * 100.0 + 0.5).Floor;
    assert RoundToCents(x) * 100.0 == n as real;
  }

  /** An amount already in whole cents is left as it is: rounding twice is rounding once. */
  lemma RoundToCentsKeepsCents(x: real)
    requires IsCents(x)
    ensures RoundToCents(x) == x
  {
    var n := (x * 100.0).Floor;
    assert x * 100.0 + 0.5 == n as real + 0.5;
    assert (x * 100.0 + 0.5).Floor == n;
  }

  /** Rounding does not reverse the order of two amounts. */
  lemma RoundToCentsIsMonotone(x: real, y: real)
    requires x <= y
    ensures RoundToCents(x) <= RoundToCents(y)
  {
    var a, b := x * 100.0 + 0.5, y * 100.0 + 0.5;
    assert a <= b;
    assert a.Floor as real <= a < b.Floor as real + 1.0;
    assert a.Floor <= b.Floor;
  }

  /** A half cent is rounded up, not truncated: 123.455 becomes 123.46. */
  lemma RoundsHalfCentUp()
    ensures RoundToCents(123.455) == 123.46
    ensures RoundToCents(0.005) == 0.01
    ensures RoundToCents(-0.005) == 0.0
  {
    assert 123.455 * 100.0 + 0.5 == 12346.0;
    assert 0.005 * 100.0 + 0.5 == 1.0;
    assert -0.005 * 100.0 + 0.5 == 0.0;
  }
}
