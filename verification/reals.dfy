/** The few facts about real products and quotients the proofs need. */
module Reals {

  lemma MulAtMost(a: real, b: real, n: real)
    requires a <= b && n >= 0.0
    ensures a * n <= b * n
  {
    assert (b - a) * n >= 0.0;
  }

  lemma ProductPositive(a: real, b: real)
    requires a > 0.0 && b > 0.0
    ensures a * b > 0.0
  {}

  lemma ProductNonnegative(a: real, b: real)
    requires a >= 0.0 && b >= 0.0
    ensures a * b >= 0.0
  {}

  lemma Distributes(a: real, b: real, c: real)
    ensures (a + b) * c == a * c + b * c
  {}

  lemma PartOf(p: real, m: real)
    requires 0.0 < p <= 1.0 && m > 0.0
    ensures 0.0 < p * m <= m
  {
    ProductPositive(p, m);
    ProductNonnegative(1.0 - p, m);
    Distributes(p, 1.0 - p, m);
    assert p + (1.0 - p) == 1.0;
  }

  /** A quotient reaches a bound when the dividend does. */
  lemma QuotientAtLeast(p: real, c: real, n: real)
    requires n > 0.0
    ensures p <= c / n <==> p * n <= c
  {
    var q := c / n;
    assert q * n == c;
    if p <= q { MulAtMost(p, q, n); }
    if p > q { assert (p - q) * n > 0.0; }
  }

  lemma QuotientAtMost(c: real, p: real, n: real)
    requires n > 0.0
    ensures c / n <= p <==> c <= p * n
  {
    var q := c / n;
    assert q * n == c;
    if q <= p {
      MulAtMost(q, p, n);
    } else {
      var e := q - p;
      assert e * n > 0.0;
      assert q * n == p * n + e * n;
    }
  }

  lemma QuotientsAdd(a: real, b: real, n: real)
    requires n > 0.0 && a + b == n
    ensures a / n + b / n == 1.0
  {
    assert a / n + b / n == (a + b) / n;
  }

  lemma UnitQuotient(x: real, y: real)
    requires 0.0 <= x <= y && y > 0.0
    ensures 0.0 <= x / y <= 1.0
    ensures x == y ==> x / y == 1.0
  {
    QuotientAtLeast(0.0, x, y);
    QuotientAtMost(x, 1.0, y);
  }
}
