/** Facts about exact quotients used to restate the dashboard's float
    comparisons as integer inequalities. */
module Ratios {

  /** The exact quotient of naturals, never negative. */
  function Ratio(a: nat, b: nat): (r: real)
    requires b > 0
    ensures r >= 0.0
  {
    QuotientLess(a as real, b as real, 0.0);
    a as real / b as real
  }

  /** Integer division of naturals, which is a natural. */
  function Quotient(a: nat, b: nat): nat
    requires b > 0
  {
    a / b
  }

  lemma MulMonoLess(x: real, y: real, b: real)
    requires b > 0.0
    ensures x < y <==> x * b < y * b
  {
    if x < y {
      assert (y - x) * b > 0.0;
    } else {
      assert (x - y) * b >= 0.0;
    }
  }

  /** Comparing a quotient with a bound is comparing the dividend with the
      bound times the divisor. */
  lemma QuotientLess(a: real, b: real, c: real)
    requires b > 0.0
    ensures a / b < c <==> a < c * b
    ensures a / b > c <==> a > c * b
  {
    MulMonoLess(a / b, c, b);
    MulMonoLess(c, a / b, b);
    assert (a / b) * b == a;
  }

  /** Scaling a quotient scales its dividend. */
  lemma ScaleQuotient(a: real, b: real, k: real)
    requires b > 0.0
    ensures a / b * k == (a * k) / b
  {
    assert (a / b) * b == a;
    assert ((a * k) / b) * b == a * k;
    assert (a / b * k) * b == a * k;
    MulMonoLess(a / b * k, (a * k) / b, b);
    MulMonoLess((a * k) / b, a / b * k, b);
  }

  /** A share of a positive whole, as a percentage, lies between 0 and 100
      and is the scaled count over the whole. */
  lemma Percent(a: nat, n: nat)
    requires 0 < n && a <= n
    ensures 0.0 <= a as real / n as real * 100.0 <= 100.0
    ensures a as real / n as real * 100.0 == (a * 100) as real / n as real
  {
    ScaleQuotient(a as real, n as real, 100.0);
    assert (a * 100) as real == a as real * 100.0;
    QuotientLess(a as real * 100.0, n as real, 100.0);
  }

  /** The whole part of an exact quotient of naturals is integer division. */
  lemma FloorOfQuotient(a: nat, b: nat)
    requires b > 0
    ensures (a as real / b as real).Floor == a / b
  {
    var q := a / b;
    assert q * b <= a < (q + 1) * b;
    var x := a as real / b as real;
    QuotientLess(a as real, b as real, q as real);
    QuotientLess(a as real, b as real, q as real + 1.0);
    assert (q * b) as real == (q as real) * (b as real);
    assert ((q + 1) * b) as real == (q as real + 1.0) * (b as real);
    assert q as real <= x < q as real + 1.0;
  }

  /** Dividing by fewer parts gives a larger share. */
  lemma QuotientAntitone(t: real, d: real, n: real)
    requires t >= 0.0 && 0.0 < d <= n
    ensures t / d >= t / n
  {
    var s := t / n;
    assert s * n == t;
    MulMonoLess(s, 0.0, n);
    assert s >= 0.0;
    assert s * d <= s * n by {
      assert s * n - s * d == s * (n - d);
      assert s * (n - d) >= 0.0;
    }
    QuotientLess(t, d, s);
  }
}
