/**
 Real powers and the six-decimal rounding shared by the numeric services.

 Amounts that the services round to six decimals are integers here, counted in
 units of 10^-6. `Math.pow` with a whole exponent is `Pow`; rounding is to the
 nearest unit with ties away from zero, as decimal.js and `Number.toFixed` do.
 */
module Arithmetic {

  /** x to the power n. */
  function Pow(x: real, n: nat): real {
    if n == 0 then 1.0 else x * Pow(x, n - 1)
  }

  lemma {:induction false} PowPositive(x: real, n: nat)
    requires x > 0.0
    ensures Pow(x, n) > 0.0
  {
    if n == 0 {
    } else {
      PowPositive(x, n - 1);
    }
  }

  /** Rounds to the nearest integer, a tie going away from zero. */
  function Round(x: real): (r: int)
    ensures -0.5 <= r as real - x <= 0.5
    ensures x >= 0.0 ==> r >= 0
    ensures x <= 0.0 ==> r <= 0
  {
    if x >= 0.0 then (x + 0.5).Floor else -((0.5 - x).Floor)
  }

  /** A tie goes away from zero, and a number and its opposite round alike. */
  lemma RoundTies(k: nat, x: real)
    ensures Round(k as real + 0.5) == k + 1
    ensures Round(-x) == -Round(x)
  {
  }

  /** A product as a function, so that proofs can treat it as one quantity. */
  function Product(x: real, y: real): real {
    x * y
  }

  lemma ProductNonNegative(x: real, y: real)
    requires x >= 0.0 && y >= 0.0
    ensures Product(x, y) >= 0.0
  {
  }

  lemma ProductPositive(x: real, y: real)
    requires x > 0.0 && y > 0.0
    ensures Product(x, y) > 0.0
  {
  }

  lemma ProductDistributes(x: real, y: real, z: real)
    ensures Product(x + y, z) == Product(x, z) + Product(y, z)
    ensures Product(z, x + y) == Product(z, x) + Product(z, y)
  {
  }

  lemma ProductNegates(x: real, y: real)
    ensures Product(-x, y) == Product(x, -y) == -Product(x, y)
  {
  }

  lemma QuotientTimes(x: real, y: real)
    requires y != 0.0
    ensures Product(x / y, y) == x
  {
  }

  lemma ProductOfZero(x: real)
    ensures Product(0.0, x) == Product(x, 0.0) == 0.0
  {
  }

  lemma ProductVanishes(x: real, y: real)
    ensures Product(x, y) == 0.0 <==> x == 0.0 || y == 0.0
  {
    if x != 0.0 {
      assert y == Product(x, y) / x;
    }
  }

  lemma ProductOfOne(x: real)
    ensures Product(1.0, x) == Product(x, 1.0) == x
  {
  }

  function Abs(x: real): real {
    if x >= 0.0 then x else -x
  }

  /** What the models assume of `Math.sqrt`. */
  ghost predicate IsSquareRoot(sqrt: real -> real) {
    forall x :: x >= 0.0 ==> sqrt(x) >= 0.0 && sqrt(x) * sqrt(x) == x
  }
}
