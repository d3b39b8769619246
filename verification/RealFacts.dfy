/** Sign and cancellation facts about products of reals. */
module RealFacts {

  lemma NonNegative(x: real, y: real)
    requires x >= 0.0 && y >= 0.0
    ensures x * y >= 0.0
  {
  }

  lemma Positive(x: real, y: real)
    requires x > 0.0 && y > 0.0
    ensures x * y > 0.0
  {
  }

  lemma Monotone(m: real, x: real, y: real)
    requires m >= 0.0 && x <= y
    ensures m * x <= m * y
  {
    NonNegative(m, y - x);
  }

  lemma Cancel(x: real, y: real, m: real)
    requires m != 0.0 && x * m == y * m
    ensures x == y
  {
    var gap := x - y;
    assert gap * m == 0.0;
    if gap > 0.0 {
      if m > 0.0 { Positive(gap, m); } else { Positive(gap, -m); }
    } else if gap < 0.0 {
      if m > 0.0 { Positive(-gap, m); } else { Positive(-gap, -m); }
    }
  }

  lemma CancelOrder(x: real, y: real, m: real)
    requires m > 0.0 && x * m <= y * m
    ensures x <= y
  {
    if x > y { Positive(x - y, m); }
  }

  /** A quotient is what multiplies back to the numerator. */
  lemma Quotient(x: real, n: real, q: real)
    requires n != 0.0 && x == q * n
    ensures x / n == q
  {
    Cancel(x / n, q, n);
  }
}
