/** Products and closeness of exact quantities, and Decimal.quantize as the code calls it:
    half-even (the decimal context's default) to six places for quantities, half-up (away from
    zero) to two places for money. */
module Rounding {

  const HALF_MICRO := 0.0000005

  // Products under a name, so that proofs can treat them as a whole.
  function Scaled(x: real, scale: real): real {
    x * scale
  }

  lemma ScaledSum(a: real, b: real, scale: real)
    ensures Scaled(a + b, scale) == Scaled(a, scale) + Scaled(b, scale)
  {
  }

  ghost predicate Within(a: real, b: real, gap: real) {
    -gap <= a - b <= gap
  }

  function HalfMicros(n: nat): real {
    HALF_MICRO * n as real
  }

  // Nearest integer, ties to the even neighbour.
  function NearestEven(y: real): (n: int)
    ensures -0.5 <= n as real - y <= 0.5
    ensures (n as real - y == 0.5 || y - n as real == 0.5) ==> n % 2 == 0
  {
    var f := y.Floor;
    var d := y - f as real;
    if d < 0.5 then f else if d > 0.5 then f + 1 else if f % 2 == 0 then f else f + 1
  }

  // A whole number of micro-units.
  ghost predicate IsMicros(x: real) {
    (x * 1000000.0).Floor as real == x * 1000000.0
  }

  lemma MicrosAre(n: int)
    ensures IsMicros(n as real / 1000000.0)
    ensures n % 2 == 0 ==> IsMicros(n as real / 1000000.0 / 2.0)
  {
    assert n as real / 1000000.0 * 1000000.0 == n as real;
    if n % 2 == 0 {
      assert n as real / 1000000.0 / 2.0 * 1000000.0 == (n / 2) as real;
    }
  }

  function QuantiseMicro(x: real): (r: real)
    ensures -HALF_MICRO <= r - x <= HALF_MICRO
    ensures IsMicros(r)
    ensures r - x == HALF_MICRO || x - r == HALF_MICRO ==> IsMicros(r / 2.0)
    ensures x <= 0.0 ==> r <= 0.0
    ensures x >= 0.0 ==> r >= 0.0
  {
    MicrosAre(NearestEven(x * 1000000.0));
    NearestEven(x * 1000000.0) as real / 1000000.0
  }

  // Nearest integer, ties away from zero.
  function NearestUp(y: real): (n: int)
    ensures -0.5 <= n as real - y <= 0.5
    ensures n as real - y == 0.5 ==> y > 0.0
    ensures y - n as real == 0.5 ==> y < 0.0
  {
    if y >= 0.0 then (y + 0.5).Floor else -((-y + 0.5).Floor)
  }

  lemma NearestUpIsOdd(y: real)
    ensures NearestUp(-y) == -NearestUp(y)
  {
  }

  // The two-place money rounding of an amount, counted in hundredths.
  function Hundredths(x: real): (n: int)
  {
    NearestUp(x * 100.0)
  }
}
