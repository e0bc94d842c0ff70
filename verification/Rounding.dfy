/** Python's float-to-int conversions, over exact reals. */
module Rounding {

  /** x lies exactly half-way between two integers. */
  predicate IsTie(x: real) {
    x - x.Floor as real == 0.5
  }

  /** `int(round(x))`: the nearest integer, a tie going to the even neighbour. */
  function Round(x: real): (r: int)
    ensures -0.5 <= r as real - x <= 0.5
    ensures IsTie(x) ==> r % 2 == 0
  {
    var f := x.Floor;
    var d := x - f as real;
    if d < 0.5 then f
    else if d > 0.5 then f + 1
    else if f % 2 == 0 then f
    else f + 1
  }

  /** `int(x)`: truncation toward zero. */
  function Trunc(x: real): (r: int)
    ensures 0.0 <= x ==> r as real <= x < r as real + 1.0
    ensures x <= 0.0 ==> r as real - 1.0 < x <= r as real
  {
    if x >= 0.0 then x.Floor else -((-x).Floor)
  }

  function Abs(x: real): (r: real)
    ensures r >= 0.0
  {
    if x < 0.0 then -x else x
  }

  lemma RoundUnique(x: real, k: int)
    requires -0.5 < x - k as real < 0.5
    ensures Round(x) == k
  {}

  lemma RoundMonotone(x: real, y: real)
    requires x <= y
    ensures Round(x) <= Round(y)
  {
    assert x.Floor <= y.Floor;
  }

  /** Rounding commutes with an integer shift exactly when the shift is even
      or there is no tie to break. */
  lemma RoundShift(x: real, k: int)
    ensures Round(x + k as real) == Round(x) + k <==> (k % 2 == 0 || !IsTie(x))
    ensures IsTie(x + k as real) == IsTie(x)
  {
    assert (x + k as real).Floor == x.Floor + k;
  }

  /** A quotient close enough to j rounds to j. */
  lemma RoundQuotient(x: real, p: real, j: int, jp: real)
    requires p > 0.0 && jp == j as real * p
    requires -p < 2.0 * (x - jp) < p
    ensures Round(x / p) == j
  {
    Scaled(x, p, x / p, j as real);
    RoundUnique(x / p, j);
  }

  /** Multiplying by a positive p preserves a bound on a distance. */
  lemma Scaled(x: real, p: real, q: real, k: real)
    requires p > 0.0 && q == x / p
    ensures -p < 2.0 * (x - k * p) < p <==> -1.0 < 2.0 * (q - k) < 1.0
    ensures -p <= 2.0 * (x - k * p) <= p <==> -1.0 <= 2.0 * (q - k) <= 1.0
  {
    var d := 2.0 * (q - k);
    var x' := 2.0 * (x - k * p);
    assert q * p == x;
    assert d * p == x' by {
      assert (2.0 * (q - k)) * p == 2.0 * (q * p) - 2.0 * (k * p);
    }
    Order(d, p);
  }

  lemma QuotientMonotone(a: real, b: real, p: real)
    requires p > 0.0 && a <= b
    ensures a / p <= b / p
  {
    var d := b / p - a / p;
    assert d * p == b - a by {
      assert (b / p) * p == b && (a / p) * p == a;
    }
    Sign(d, p);
  }

  lemma Sign(d: real, p: real)
    requires p > 0.0
    ensures d * p >= 0.0 <==> d >= 0.0
  {}

  lemma Order(d: real, p: real)
    requires p > 0.0
    ensures -p < d * p <==> -1.0 < d
    ensures d * p < p <==> d < 1.0
    ensures -p <= d * p <==> -1.0 <= d
    ensures d * p <= p <==> d <= 1.0
  {
    assert d * p + p == (d + 1.0) * p;
    assert p - d * p == (1.0 - d) * p;
  }
}
