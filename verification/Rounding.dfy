/**
 The two decimal rounding modes of the score pipeline, over exact reals.

 `HalfEven` is the default mode of `Decimal.quantize`, used for rates and the
 price index; `HalfUp` is the mode named explicitly for the final points.
 */
module Rounding {

  /** Nearest integer, ties away from zero. */
  function HalfUp(x: real): int {
    if x >= 0.0 then (x + 0.5).Floor else -((0.5 - x).Floor)
  }

  /** Nearest integer, ties to the even neighbour. */
  function HalfEven(x: real): int {
    var below := x.Floor;
    var rest := x - below as real;
    if rest < 0.5 || (rest == 0.5 && below % 2 == 0) then below else below + 1
  }

  /** `quantize(Decimal("0.0001"))`. */
  function Quantize4(x: real): real {
    HalfEven(x * 10000.0) as real / 10000.0
  }

  ghost predicate IsNearest(n: int, x: real) {
    -0.5 <= x - n as real <= 0.5
  }

  /** The rule that defines the mode: the nearest integer, and among two the even one. */
  lemma HalfEvenIsTheNearestEven(x: real, n: int)
    ensures n == HalfEven(x) <==> IsNearest(n, x) && ((x - n as real == 0.5 || x - n as real == -0.5) ==> n % 2 == 0)
  {
    var below := x.Floor;
    assert below as real <= x < (below + 1) as real;
    if IsNearest(n, x) {
      assert below <= n <= below + 1;
    }
  }

  lemma HalfUpIsTheNearestAwayFromZero(x: real, n: int)
    ensures n == HalfUp(x) <==>
            IsNearest(n, x) &&
            (x - n as real == 0.5 ==> x < 0.0) && (x - n as real == -0.5 ==> x >= 0.0)
  {
    if x >= 0.0 {
      var f := (x + 0.5).Floor;
      assert f as real <= x + 0.5 < (f + 1) as real;
    } else {
      var f := (0.5 - x).Floor;
      assert f as real <= 0.5 - x < (f + 1) as real;
    }
  }

  lemma HalfEvenMonotone(x: real, y: real)
    requires x <= y
    ensures HalfEven(x) <= HalfEven(y)
  {
    assert x.Floor <= y.Floor;
  }

  lemma HalfUpMonotone(x: real, y: real)
    requires x <= y
    ensures HalfUp(x) <= HalfUp(y)
  {
    if 0.0 <= x {
      assert (x + 0.5).Floor <= (y + 0.5).Floor;
    } else if y < 0.0 {
      assert (0.5 - y).Floor <= (0.5 - x).Floor;
    }
  }

  lemma HalfUpOfInteger(n: int)
    ensures HalfUp(n as real) == n
  {
    HalfUpIsTheNearestAwayFromZero(n as real, n);
  }

  /**
   Rounding half to even commutes with reflection in an integer: what lies as far above `k`
   as `x` lies below it rounds to the mirrored value. It needs the scale to be even; half-up has no such law.
   */
  lemma HalfEvenReflects(x: real, k: int)
    requires k % 2 == 0
    ensures HalfEven(k as real - x) == k - HalfEven(x)
  {
    HalfEvenIsTheNearestEven(x, HalfEven(x));
    HalfEvenIsTheNearestEven(k as real - x, k - HalfEven(x));
  }

  lemma Quantize4Monotone(x: real, y: real)
    requires x <= y
    ensures Quantize4(x) <= Quantize4(y)
  {
    HalfEvenMonotone(x * 10000.0, y * 10000.0);
  }

  /** Values that already have four decimals are kept: storing them in `Numeric(5, 4)` loses nothing. */
  lemma Quantize4KeepsFourDecimals(n: int)
    ensures Quantize4(n as real / 10000.0) == n as real / 10000.0
  {
    assert n as real / 10000.0 * 10000.0 == n as real;
    HalfEvenIsTheNearestEven(n as real, n);
  }

  lemma Quantize4Unit(x: real)
    requires 0.0 <= x <= 1.0
    ensures 0.0 <= Quantize4(x) <= 1.0
  {
    Quantize4KeepsFourDecimals(0);
    Quantize4KeepsFourDecimals(10000);
    Quantize4Monotone(0.0, x);
    Quantize4Monotone(x, 1.0);
  }

  /** One minus a rounded share is the rounded share of the complement. */
  lemma Quantize4Complement(x: real)
    ensures 1.0 - Quantize4(x) == Quantize4(1.0 - x)
  {
    var y := x * 10000.0;
    ReflectedTenThousandths(y, (1.0 - x) * 10000.0);
    ComplementOfQuotient(HalfEven(y), HalfEven((1.0 - x) * 10000.0));
  }

  lemma ReflectedTenThousandths(y: real, z: real)
    requires z == 10000.0 - y
    ensures HalfEven(z) == 10000 - HalfEven(y)
  {
    HalfEvenReflects(y, 10000);
  }

  lemma ComplementOfQuotient(n: int, m: int)
    requires m == 10000 - n
    ensures 1.0 - n as real / 10000.0 == m as real / 10000.0
  {
  }
}
