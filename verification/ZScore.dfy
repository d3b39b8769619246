/**
The anomaly worker's z-score of the last point of a series of per-minute error rates, in exact
arithmetic.  The square root is a parameter with its defining property.
*/
module ZScore {
  import RealFacts

  const MIN_POINTS := 30
  const STD_FLOOR := 0.000001

  datatype Severity = Warn | Critical

  datatype Finding = NoFinding | Anomaly(value: real, baseline: real, z: real, severity: Severity)

  function Sum(xs: seq<real>): real {
    if xs == [] then 0.0 else Sum(xs[..|xs| - 1]) + xs[|xs| - 1]
  }

  function SquareSum(xs: seq<real>): real {
    if xs == [] then 0.0
    else SquareSum(xs[..|xs| - 1]) + xs[|xs| - 1] * xs[|xs| - 1]
  }

  function Mean(xs: seq<real>): real
    requires xs != []
  {
    Sum(xs) / |xs| as real
  }

  function Deviations(xs: seq<real>, mean: real): (ds: seq<real>)
    ensures |ds| == |xs|
  {
    if xs == [] then [] else Deviations(xs[..|xs| - 1], mean) + [xs[|xs| - 1] - mean]
  }

  function Variance(xs: seq<real>): real
    requires xs != []
  {
    SquareSum(Deviations(xs, Mean(xs))) / |xs| as real
  }

  /** `root` is the non-negative square root of x. */
  ghost predicate IsRoot(root: real, x: real) {
    root >= 0.0 && root * root == x
  }

  /** The divisor of the score: the standard deviation, but never less than the floor. */
  function Spread(root: real): real {
    if root >= STD_FLOOR then root else STD_FLOOR
  }

  function Score(xs: seq<real>, root: real): real
    requires xs != []
  {
    (xs[|xs| - 1] - Mean(xs)) / Spread(root)
  }

  function Abs(x: real): real { if x < 0.0 then -x else x }

  function Report(xs: seq<real>, root: real): Finding {
    if |xs| < MIN_POINTS then NoFinding
    else
      var z := Score(xs, root);
      if Abs(z) < 2.5 then NoFinding
      else Anomaly(xs[|xs| - 1], Mean(xs), z, if Abs(z) >= 4.0 then Critical else Warn)
  }

  // ----- what is reported -----

  /** The mean and the variance, without division. */
  lemma Moments(xs: seq<real>)
    requires xs != []
    ensures Mean(xs) * |xs| as real == Sum(xs)
    ensures Variance(xs) * |xs| as real == SquareSum(Deviations(xs, Mean(xs)))
  {
    hide Sum, SquareSum, Deviations;
  }

  /** A score is the last point's distance from the mean in units of the deviation, of the distance's sign. */
  lemma ScoreExactly(xs: seq<real>, root: real)
    requires xs != [] && root >= 0.0
    ensures var s := if root >= 0.000001 then root else 0.000001;
      Score(xs, root) * s == xs[|xs| - 1] - Mean(xs)
  {
    hide Mean;
  }

  lemma Scaled(z: real, s: real, d: real, bound: real, p: real)
    requires s > 0.0 && d == z * s && p == bound * s
    ensures (z >= bound <==> d >= p) && (z <= -bound <==> d <= -p)
  {
    var q := -bound;
    assert q * s == -p;
    if z >= bound { RealFacts.Monotone(s, bound, z); } else { RealFacts.Positive(bound - z, s); }
    if z <= q { RealFacts.Monotone(s, z, q); } else { RealFacts.Positive(z - q, s); }
  }

  /**
  A series is reported iff it has 30 points and the last is at least two and a half deviations from the
  mean, on either side; as critical from four deviations on.
  */
  lemma ReportExactly(xs: seq<real>, root: real)
    requires root >= 0.0
    ensures xs == [] ==> Report(xs, root) == NoFinding
    ensures xs != [] ==>
      var r, s, d := Report(xs, root), if root >= 0.000001 then root else 0.000001, xs[|xs| - 1] - Mean(xs);
      && (r.Anomaly? <==> |xs| >= 30 && (d >= 2.5 * s || d <= -(2.5 * s)))
      && (r.Anomaly? ==>
            && r.value == xs[|xs| - 1] && r.baseline == Mean(xs) && r.z * s == d
            && (r.severity == Critical <==> d >= 4.0 * s || d <= -(4.0 * s)))
  {
    if xs != [] {
      hide Mean, Score;
      ScoreExactly(xs, root);
      ReportBounds(Score(xs, root), if root >= 0.000001 then root else 0.000001, xs[|xs| - 1] - Mean(xs));
    }
  }

  lemma ReportBounds(z: real, s: real, d: real)
    requires s > 0.0 && z * s == d
    ensures Abs(z) >= 2.5 <==> d >= 2.5 * s || d <= -(2.5 * s)
    ensures Abs(z) >= 4.0 <==> d >= 4.0 * s || d <= -(4.0 * s)
  {
    Scaled(z, s, d, 2.5, 2.5 * s);
    Scaled(z, s, d, 4.0, 4.0 * s);
  }

  lemma {:induction false} DeviationSum(xs: seq<real>, mean: real)
    ensures Sum(Deviations(xs, mean)) == Sum(xs) - |xs| as real * mean
  {
    if xs != [] {
      var ds := Deviations(xs, mean);
      assert ds[..|ds| - 1] == Deviations(xs[..|xs| - 1], mean);
      DeviationSum(xs[..|xs| - 1], mean);
      hide Deviations;
      OneMore((|xs| - 1) as real, |xs| as real, mean);
    }
  }

  lemma OneMore(n: real, m: real, x: real)
    requires m == n + 1.0
    ensures m * x == n * x + x
  {
  }

  lemma CauchyStep(n: real, s: real, q: real, a: real)
    requires n >= 0.0 && q >= 0.0 && s * s <= n * q
    requires n == 0.0 || n >= 1.0
    ensures (s + a) * (s + a) <= (n + 1.0) * (q + a * a)
  {
    assert (n + 1.0) * (q + a * a) - (s + a) * (s + a)
        == (n * q - s * s) + (n * (a * a) + q - 2.0 * (s * a));
    if n == 0.0 {
      if s > 0.0 { RealFacts.Positive(s, s); } else if s < 0.0 { RealFacts.Positive(-s, -s); }
    } else {
      var gap := n * (a * a) + q - 2.0 * (s * a);
      var root := n * a - s;
      assert n * gap == root * root + (n * q - s * s) by {
        assert n * gap == n * (n * (a * a)) + n * q - n * (2.0 * (s * a));
        assert root * root == n * a * (n * a) - 2.0 * (n * a * s) + s * s;
        assert n * a * (n * a) == n * (n * (a * a));
        assert n * (2.0 * (s * a)) == 2.0 * (n * a * s);
      }
      assert root * root >= 0.0;
      if gap < 0.0 { RealFacts.Positive(n, -gap); }
    }
  }

  lemma {:induction false} CauchySchwarz(xs: seq<real>)
    ensures SquareSum(xs) >= 0.0
    ensures Sum(xs) * Sum(xs) <= |xs| as real * SquareSum(xs)
  {
    if xs != [] {
      var init, a := xs[..|xs| - 1], xs[|xs| - 1];
      CauchySchwarz(init);
      CauchyStep(|init| as real, Sum(init), SquareSum(init), a);
    }
  }

  /** n * d^2 <= (n - 1) * (sum of squared deviations), for the last deviation d. */
  lemma LastDeviation(ds: seq<real>)
    requires ds != [] && Sum(ds) == 0.0
    ensures var d := ds[|ds| - 1];
      |ds| as real * (d * d) <= (|ds| - 1) as real * SquareSum(ds)
  {
    var rest, d := ds[..|ds| - 1], ds[|ds| - 1];
    CauchySchwarz(rest);
    assert Sum(rest) == -d;
    assert Sum(rest) * Sum(rest) == d * d;
    var n := |rest| as real;
    assert n * SquareSum(ds) == n * SquareSum(rest) + n * (d * d);
    assert |ds| as real * (d * d) == n * (d * d) + d * d;
  }

  lemma QuotientSquare(d: real, s: real, z: real)
    requires d == z * s
    ensures (z * z) * (s * s) == d * d
  {
  }

  lemma SpreadAtLeast(root: real)
    requires root >= 0.0
    ensures Spread(root) > 0.0 && Spread(root) * Spread(root) > 0.0
    ensures root * root <= Spread(root) * Spread(root)
  {
    RealFacts.Positive(Spread(root), Spread(root));
    if root < STD_FLOOR {
      RealFacts.Monotone(root, root, STD_FLOOR);
      RealFacts.Monotone(STD_FLOOR, root, STD_FLOOR);
    }
  }

  lemma LastSquared(xs: seq<real>)
    requires xs != []
    ensures var d := xs[|xs| - 1] - Mean(xs);
      d * d <= (|xs| - 1) as real * Variance(xs)
  {
    var n, mean := |xs| as real, Mean(xs);
    var ds := Deviations(xs, mean);
    var d := ds[|ds| - 1];
    DeviationSum(xs, mean);
    MeanTimes(xs);
    hide Mean, Sum, SquareSum, Deviations;
    LastDeviation(ds);
    Divide(n, d * d, (|xs| - 1) as real, SquareSum(ds));
  }

  lemma MeanTimes(xs: seq<real>)
    requires xs != []
    ensures |xs| as real * Mean(xs) == Sum(xs)
  {
    hide Sum;
  }

  lemma Divide(n: real, x: real, m: real, q: real)
    requires n > 0.0 && n * x <= m * q
    ensures x <= m * (q / n)
  {
    var v := q / n;
    assert q == v * n;
    assert m * q == n * (m * v);
    RealFacts.CancelOrder(x, m * v, n);
  }

  /** Samuelson's inequality: the score of n points satisfies z^2 <= n - 1. */
  lemma SamuelsonBound(xs: seq<real>, root: real)
    requires xs != [] && IsRoot(root, Variance(xs))
    ensures Score(xs, root) * Score(xs, root) <= (|xs| - 1) as real
  {
    var d, m, s := xs[|xs| - 1] - Mean(xs), (|xs| - 1) as real, Spread(root);
    LastSquared(xs);
    SpreadAtLeast(root);
    hide Mean, Variance, Spread;
    RealFacts.Monotone(m, Variance(xs), s * s);
    var z := Score(xs, root);
    QuotientSquare(d, s, z);
    RealFacts.CancelOrder(z * z, m, s * s);
  }

  function Constant(c: real, n: nat): seq<real> {
    if n == 0 then [] else Constant(c, n - 1) + [c]
  }

  lemma {:induction false} ConstantSum(c: real, n: nat)
    ensures |Constant(c, n)| == n && Sum(Constant(c, n)) == n as real * c
  {
    if n > 0 {
      ConstantSum(c, n - 1);
      assert Constant(c, n)[..n - 1] == Constant(c, n - 1);
      OneMore((n - 1) as real, n as real, c);
    }
  }

  lemma ConstantMean(c: real, n: nat)
    requires n > 0
    ensures |Constant(c, n)| == n && Mean(Constant(c, n)) == c
  {
    ConstantSum(c, n);
    RealFacts.Quotient(Sum(Constant(c, n)), n as real, c);
  }

  /** A series whose points are all equal scores zero. */
  lemma ConstantScoresZero(c: real, n: nat, root: real)
    requires n > 0
    ensures |Constant(c, n)| == n && Score(Constant(c, n), root) == 0.0
    ensures Report(Constant(c, n), root) == NoFinding
  {
    ConstantMean(c, n);
    hide Mean;
    assert Constant(c, n)[n - 1] == c;
    assert 0.0 / Spread(root) == 0.0;
  }

  lemma {:induction false} ConstantDeviations(c: real, n: nat, mean: real)
    ensures |Constant(c, n)| == n
    ensures Deviations(Constant(c, n), mean) == Constant(c - mean, n)
  {
    if n > 0 {
      ConstantDeviations(c, n - 1, mean);
      assert Constant(c, n)[..n - 1] == Constant(c, n - 1);
    }
  }

  lemma {:induction false} ConstantSquares(c: real, n: nat)
    ensures |Constant(c, n)| == n && SquareSum(Constant(c, n)) == n as real * (c * c)
  {
    if n > 0 {
      ConstantSquares(c, n - 1);
      assert Constant(c, n)[..n - 1] == Constant(c, n - 1);
      OneMore((n - 1) as real, n as real, c * c);
    }
  }

  /** k quiet points and then a jump to h. */
  function Spike(k: nat, h: real): seq<real> { Constant(0.0, k) + [h] }

  lemma SumLast(xs: seq<real>, x: real)
    ensures Sum(xs + [x]) == Sum(xs) + x
  {
    assert (xs + [x])[..|xs|] == xs;
  }

  lemma SpikeMean(k: nat, h: real, a: real)
    requires h == a * (k + 1) as real
    ensures |Spike(k, h)| == k + 1 && Spike(k, h)[k] == h && Mean(Spike(k, h)) == a
  {
    ConstantSum(0.0, k);
    SumLast(Constant(0.0, k), h);
    hide Sum, Constant;
    RealFacts.Quotient(h, (k + 1) as real, a);
  }

  lemma SquareSumLast(xs: seq<real>, x: real)
    ensures SquareSum(xs + [x]) == SquareSum(xs) + x * x
  {
    assert (xs + [x])[..|xs|] == xs;
  }

  lemma SpikeDeviations(k: nat, h: real, a: real)
    requires h == a * (k + 1) as real
    ensures Deviations(Spike(k, h), a) == Constant(-a, k) + [a * k as real]
  {
    ConstantDeviations(0.0, k, a);
    DeviationsLast(Constant(0.0, k), h, a);
    hide Deviations, Constant;
    assert 0.0 - a == -a;
    assert h - a == a * k as real;
  }

  lemma DeviationsLast(xs: seq<real>, x: real, mean: real)
    ensures Deviations(xs + [x], mean) == Deviations(xs, mean) + [x - mean]
  {
    assert (xs + [x])[..|xs|] == xs;
  }

  function SpikeVar(k: nat, a: real): real { k as real * (a * a) }

  lemma SpikeSquares(k: nat, h: real, a: real)
    requires h == a * (k + 1) as real
    ensures SquareSum(Deviations(Spike(k, h), a)) == SpikeVar(k, a) * (k + 1) as real
  {
    hide Deviations, Spike, SquareSum, Constant;
    SpikeDeviations(k, h, a);
    ConstantSquares(-a, k);
    SquareSumLast(Constant(-a, k), a * k as real);
    SpikeAlgebra(k as real, a, (k + 1) as real);
  }

  lemma SpikeAlgebra(n: real, a: real, m: real)
    requires m == n + 1.0
    ensures n * ((-a) * (-a)) + (a * n) * (a * n) == (n * (a * a)) * m
  {
    assert (-a) * (-a) == a * a;
    assert (a * n) * (a * n) == (n * (a * a)) * n;
  }

  lemma SpikeVariance(k: nat, h: real, a: real)
    requires h == a * (k + 1) as real
    ensures Variance(Spike(k, h)) == SpikeVar(k, a)
  {
    hide Mean, SquareSum, Deviations, Spike, Variance, SpikeVar;
    SpikeMean(k, h, a);
    SpikeSquares(k, h, a);
    VarianceIs(Spike(k, h), a, SpikeVar(k, a));
  }

  lemma VarianceIs(xs: seq<real>, mean: real, q: real)
    requires xs != [] && Mean(xs) == mean && SquareSum(Deviations(xs, mean)) == q * |xs| as real
    ensures Variance(xs) == q
  {
    hide Mean, SquareSum, Deviations;
    RealFacts.Quotient(SquareSum(Deviations(xs, mean)), |xs| as real, q);
  }

  /** A spike of any height after a quiet series has z^2 equal to n - 1, iff the deviation is not below the floor. */
  lemma SpikeReachesBoundWhen(k: nat, h: real, root: real)
    requires k > 0 && h > 0.0 && IsRoot(root, Variance(Spike(k, h)))
    ensures |Spike(k, h)| == k + 1
    ensures Score(Spike(k, h), root) * Score(Spike(k, h), root) == k as real <==> root >= STD_FLOOR
  {
    var n, a := k as real, h / (k + 1) as real;
    assert h == a * (k + 1) as real && a > 0.0;
    SpikeMean(k, h, a);
    SpikeVariance(k, h, a);
    hide Mean, Variance;
    var z, s := Score(Spike(k, h), root), Spread(root);
    SpreadAtLeast(root);
    assert z == (a * n) / s;
    ScoreSquare(z, s, a, n, root);
    EqualFactors(z * z, n, root * root, s * s);
    if root < STD_FLOOR { Smaller(root, s); }
  }

  lemma EqualFactors(x: real, n: real, r: real, s: real)
    requires n > 0.0 && s > 0.0 && x * s == n * r
    ensures x == n <==> r == s
  {
    if x == n { RealFacts.Cancel(r, s, n); }
    if r == s { RealFacts.Cancel(x, n, s); }
  }

  lemma Smaller(x: real, y: real)
    requires 0.0 <= x < y
    ensures x * x < y * y
  {
    RealFacts.Positive(y - x, y + x);
    assert (y - x) * (y + x) == y * y - x * x;
  }

  lemma ScoreSquare(z: real, s: real, a: real, n: real, root: real)
    requires s > 0.0 && z == (a * n) / s && root * root == n * (a * a)
    ensures (z * z) * (s * s) == n * (root * root)
  {
    QuotientSquare(a * n, s, z);
    assert (a * n) * (a * n) == n * (n * (a * a));
  }

  /** After 29 to 1440 minutes without failures it is reported, as critical and above the baseline. */
  lemma FailuresAreCritical(k: nat, root: real)
    requires 29 <= k <= 1440 && IsRoot(root, Variance(Spike(k, 1.0)))
    ensures var r := Report(Spike(k, 1.0), root); r.Anomaly? && r.severity == Critical && r.z > 0.0 && r.value == 1.0
  {
    var xs, a := Spike(k, 1.0), 1.0 / (k + 1) as real;
    assert 1.0 == a * (k + 1) as real;
    SpikeMean(k, 1.0, a);
    hide Mean, Variance, Score, Report;
    FailuresReachBound(k, root);
    ScoreExactly(xs, root);
    var s, z := if root >= 0.000001 then root else 0.000001, Score(xs, root);
    BigScore(z, s, xs[k] - Mean(xs), k as real);
    ReportExactly(xs, root);
    SameScore(Report(xs, root).z, z, s, xs[k] - Mean(xs));
  }

  lemma BigScore(z: real, s: real, d: real, n: real)
    requires s > 0.0 && z * s == d && d > 0.0 && z * z == n && n >= 29.0
    ensures z >= 4.0 && d >= 4.0 * s
  {
    if z <= 0.0 { RealFacts.Monotone(s, z, 0.0); }
    if z < 4.0 { Smaller(z, 4.0); }
    RealFacts.Monotone(s, 4.0, z);
  }

  lemma SameScore(x: real, z: real, s: real, d: real)
    requires s > 0.0 && x * s == d && z * s == d
    ensures x == z
  {
    RealFacts.Cancel(x, z, s);
  }

  /** So a minute in which everything fails, after up to a day of minutes without failures, reaches the bound. */
  lemma FailuresReachBound(k: nat, root: real)
    requires 0 < k <= 1440 && IsRoot(root, Variance(Spike(k, 1.0)))
    ensures Score(Spike(k, 1.0), root) * Score(Spike(k, 1.0), root) == k as real
  {
    var n, a := k as real, 1.0 / (k + 1) as real;
    assert 1.0 == a * (k + 1) as real;
    SpikeVariance(k, 1.0, a);
    hide Variance;
    RealFacts.CancelOrder(0.0006, a, (k + 1) as real);
    Smaller(0.0005, a);
    RealFacts.NonNegative(a * a, n - 1.0);
    assert n * (a * a) == a * a + (a * a) * (n - 1.0);
    if root < STD_FLOOR { Smaller(root, STD_FLOOR); }
    assert root >= STD_FLOOR;
    SpikeReachesBoundWhen(k, 1.0, root);
  }
}
