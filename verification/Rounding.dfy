/** `round(x, 2)` over the reals: the nearest hundredth, a tie going to the even one. */
module Rounding {

  function NearestInteger(x: real): (n: int)
    ensures -0.5 <= n as real - x <= 0.5
    ensures n as real - x == 0.5 || x - n as real == 0.5 ==> n % 2 == 0
  {
    var below := x.Floor;
    var rest := x - below as real;
    if rest < 0.5 || (rest == 0.5 && below % 2 == 0) then below else below + 1
  }

  predicate IsWhole(x: real)
  {
    x.Floor as real == x
  }

  lemma WholeHundredths(n: int)
    ensures IsWhole(n as real / 100.0 * 100.0)
  {
    assert n as real / 100.0 * 100.0 == n as real;
  }

  /** The result is a whole number of hundredths. */
  function Round2(x: real): (r: real)
    ensures -0.005 <= r - x <= 0.005
    ensures IsWhole(r * 100.0)
  {
    var n := NearestInteger(x * 100.0);
    WholeHundredths(n);
    n as real / 100.0
  }

  /** There is one nearest whole number of hundredths, or a tie, of which the even one is taken. */
  lemma NearestHundredth(x: real, n: int)
    requires x * 100.0 - 0.5 < n as real < x * 100.0 + 0.5 || (n as real - x * 100.0 in {0.5, -0.5} && n % 2 == 0)
    ensures Round2(x) == n as real / 100.0
  {
    var m := NearestInteger(x * 100.0);
    assert -1 <= m - n <= 1;
  }

  /** Rounding an amount of zero or more gives zero or more. */
  lemma RoundNonNegative(x: real)
    requires x >= 0.0
    ensures Round2(x) >= 0.0
  {
    assert (x * 100.0).Floor >= 0;
  }
}
