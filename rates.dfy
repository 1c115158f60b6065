/**
 * Occupancy as a percentage, `reserved * 100m / total` or 0 when there are
 * no rooms, and Math.Round(x, 2) with its default midpoint rule (to even).
 * decimal division is taken as exact: a real number.
 */
module Rates {

  /** The percentage of rooms reserved; 0 when there are no rooms. */
  function Rate(reserved: int, total: int): (p: real)
    ensures total <= 0 ==> p == 0.0
    ensures total > 0 ==> p * total as real == reserved as real * 100.0
    ensures 0 <= reserved <= total ==> 0.0 <= p <= 100.0
  {
    if total > 0 then (reserved * 100) as real / total as real else 0.0
  }

  /** More reserved rooms of the same total never give a lower rate. */
  lemma RateMonotone(r1: int, r2: int, total: int)
    requires total > 0 && r1 <= r2
    ensures Rate(r1, total) <= Rate(r2, total)
  {
    assert Rate(r2, total) - Rate(r1, total) == ((r2 - r1) * 100) as real / total as real;
  }

  /** x rounded to two decimals, a midpoint going to the even neighbour. */
  function Round2(x: real): (r: real)
    ensures (r * 100.0).Floor as real == r * 100.0
    ensures -0.005 <= r - x <= 0.005
    ensures 0.0 <= x <= 100.0 ==> 0.0 <= r <= 100.0
  {
    var y := x * 100.0;
    var f := y.Floor;
    var frac := y - f as real;
    var n := if frac > 0.5 || (frac == 0.5 && f % 2 != 0) then f + 1 else f;
    Round2Facts(x, y, f, n);
    n as real / 100.0
  }

  /** The arithmetic behind Round2's contract, with n the rounded hundredths. */
  lemma Round2Facts(x: real, y: real, f: int, n: int)
    requires y == x * 100.0
    requires f as real <= y < f as real + 1.0
    requires n == f || n == f + 1
    requires n == f + 1 ==> y - f as real >= 0.5
    requires n == f ==> y - f as real <= 0.5
    ensures (n as real / 100.0 * 100.0).Floor as real == n as real / 100.0 * 100.0
    ensures -0.005 <= n as real / 100.0 - x <= 0.005
    ensures 0.0 <= x <= 100.0 ==> 0.0 <= n as real / 100.0 <= 100.0
  {
    var r := n as real / 100.0;
    assert r * 100.0 == n as real;
    assert -0.5 <= n as real - y <= 0.5;
    assert r - x == (n as real - y) / 100.0;
    if 0.0 <= x <= 100.0 {
      assert 0.0 <= y <= 10000.0;
      assert 0 <= f <= 10000;
      assert y == 10000.0 ==> f == 10000 && n == f;
    }
  }

  /** A value that already has two decimals is left as it is. */
  lemma Round2Exact(n: int)
    ensures Round2(n as real / 100.0) == n as real / 100.0
  {
    var y := (n as real / 100.0) * 100.0;
    assert y == n as real;
    assert y.Floor == n;
  }
}
