/**
 The lower end of a Wilson interval, as the contributor and the collector both compute it, over the
 reals. The square root is a parameter: any function that squares back to its argument.
 */
module Wilson {

  type Root = real -> real

  ghost predicate SquareRoot(root: Root) {
    forall x: real :: x >= 0.0 ==> root(x) >= 0.0 && root(x) * root(x) == x
  }

  const Z := 1.96

  function Rate(k: int, n: int): real
    requires n > 0
  {
    k as real / n as real
  }

  function Denominator(m: real): real
    requires m > 0.0
  {
    1.0 + Z * Z / m
  }

  function Centre(p: real, m: real): real
    requires m > 0.0
  {
    p + Z * Z / (2.0 * m)
  }

  function Variance(p: real, m: real): real
    requires m > 0.0
  {
    p * (1.0 - p) / m + Z * Z / (4.0 * m * m)
  }

  function WilsonLower(root: Root, k: int, n: int): real {
    if n <= 0 then 0.0
    else
      var p, m := Rate(k, n), n as real;
      var margin := Z * root(Variance(p, m));
      assert m + Z * Z > 0.0 && Denominator(m) > 0.0;
      (Centre(p, m) - margin) / Denominator(m)
  }

  // ---------------------------------------------------------------- the equation it solves

  /** How far a rate seen, `p`, lies outside the spread expected of a true rate `t`: `a` is z squared over n. */
  ghost function Excess(p: real, a: real, t: real): real {
    (p - t) * (p - t) - a * t * (1.0 - t)
  }

  /** A root, no further right than the lowest point of the curve. */
  ghost predicate LeftRoot(p: real, a: real, t: real) {
    Excess(p, a, t) == 0.0 && (1.0 + a) * t <= p + a / 2.0
  }

  lemma Product(u: real, v: real)
    ensures u > 0.0 && v > 0.0 ==> u * v > 0.0
    ensures u > 0.0 && v < 0.0 ==> u * v < 0.0
    ensures u >= 0.0 && v >= 0.0 ==> u * v >= 0.0
  {
  }

  lemma Scaled(c: real, x: real, y: real)
    requires c > 0.0
    ensures x < y <==> c * x < c * y
    ensures x == y <==> c * x == c * y
  {
    Product(c, y - x);
    Product(c, x - y);
  }

  lemma Cancel(x: real, y: real, r: real)
    requires r != 0.0 && x * r == y * r
    ensures x == y
  {
    assert (x - y) * r == 0.0;
  }

  ghost function Slope(p: real, a: real, x: real, y: real): real {
    (1.0 + a) * x + (1.0 + a) * y - 2.0 * (p + a / 2.0)
  }

  lemma FactorExcess(p: real, a: real, x: real, y: real)
    ensures Excess(p, a, x) - Excess(p, a, y) == (x - y) * Slope(p, a, x, y)
  {
  }

  lemma ExcessAtRate(p: real, a: real)
    requires a >= 0.0 && 0.0 <= p <= 1.0
    ensures Excess(p, a, p) <= 0.0
  {
    Product(p, 1.0 - p);
    AtRate(p, a, p * (1.0 - p));
  }

  lemma AtRate(p: real, a: real, q: real)
    requires a >= 0.0 && q >= 0.0 && q == p * (1.0 - p)
    ensures Excess(p, a, p) <= 0.0
  {
    Product(a, q);
    assert Excess(p, a, p) == -(a * q);
  }

  lemma SlopeTurns(p: real, a: real, x: real, y: real)
    requires a > 0.0 && x < y
    ensures (1.0 + a) * y <= p + a / 2.0 ==> Slope(p, a, x, y) < 0.0
    ensures (1.0 + a) * x >= p + a / 2.0 ==> Slope(p, a, x, y) > 0.0
  {
    Scaled(1.0 + a, x, y);
  }

  /** Left of its lowest point the curve falls, right of it the curve rises. */
  lemma Falls(p: real, a: real, x: real, y: real)
    requires a > 0.0 && x < y
    ensures (1.0 + a) * y <= p + a / 2.0 ==> Excess(p, a, x) > Excess(p, a, y)
    ensures (1.0 + a) * x >= p + a / 2.0 ==> Excess(p, a, x) < Excess(p, a, y)
  {
    hide *;
    FactorExcess(p, a, x, y);
    SlopeTurns(p, a, x, y);
    Product(y - x, Slope(p, a, x, y));
    Turned(y - x, x - y, Slope(p, a, x, y));
  }

  lemma Turned(u: real, w: real, v: real)
    requires w == -u
    ensures w * v == -(u * v)
  {
  }

  lemma AtOrBeforeRoot(p: real, a: real, t: real, x: real)
    requires a > 0.0 && LeftRoot(p, a, t) && (1.0 + a) * x <= p + a / 2.0 && Excess(p, a, x) >= 0.0
    ensures x <= t
  {
    hide Excess;
    if t < x {
      Falls(p, a, t, x);
    }
  }

  lemma RootIsARate(p: real, a: real, t: real)
    requires a > 0.0 && 0.0 <= p <= 1.0 && LeftRoot(p, a, t)
    ensures 0.0 <= t <= p && t < 1.0
  {
    Product(p, p);
    assert Excess(p, a, 0.0) == p * p;
    ExcessAtRate(p, a);
    hide Excess;
    AtOrBeforeRoot(p, a, t, 0.0);
    if p < t {
      Falls(p, a, p, t);
    }
  }

  lemma SmallestRoot(p: real, a: real, t: real, u: real)
    requires a > 0.0 && LeftRoot(p, a, t) && Excess(p, a, u) == 0.0
    ensures t <= u
  {
    hide Excess;
    if u < t {
      Falls(p, a, u, t);
    }
  }

  lemma ExcessGrowsWithRate(p: real, a: real, t: real, p': real)
    requires t <= p <= p'
    ensures Excess(p, a, t) <= Excess(p', a, t)
  {
    Product(p' - p, (p' - t) + (p - t));
    assert (p' - p) * ((p' - t) + (p - t)) == (p' - t) * (p' - t) - (p - t) * (p - t);
  }

  /** A higher rate pushes the root up. */
  lemma RootGrowsWithRate(p: real, a: real, t: real, p': real, t': real)
    requires a > 0.0 && 0.0 <= p <= p' <= 1.0 && LeftRoot(p, a, t) && LeftRoot(p', a, t')
    ensures t <= t'
  {
    RootIsARate(p, a, t);
    ExcessGrowsWithRate(p, a, t, p');
    hide Excess;
    AtOrBeforeRoot(p', a, t', t);
  }

  lemma ExcessFallsWithSpread(p: real, a: real, t: real, a': real)
    requires a' <= a && 0.0 <= t <= 1.0
    ensures Excess(p, a, t) <= Excess(p, a', t)
  {
    Product(t, 1.0 - t);
    Product(a - a', t * (1.0 - t));
    assert (a - a') * (t * (1.0 - t)) == a * t * (1.0 - t) - a' * t * (1.0 - t);
  }

  /** So does the same rate over more trials. */
  lemma RootGrowsWithTrials(p: real, a: real, t: real, a': real, t': real)
    requires 0.0 < a' <= a && 0.0 <= p <= 1.0 && LeftRoot(p, a, t) && LeftRoot(p, a', t')
    ensures t <= t'
  {
    RootIsARate(p, a, t);
    ExcessFallsWithSpread(p, a, t, a');
    ExcessAtRate(p, a);
    ExcessAtRate(p, a');
    RootIsARate(p, a', t');
    hide Excess;
    if (1.0 + a') * t <= p + a' / 2.0 {
      AtOrBeforeRoot(p, a', t', t);
    } else if t < p {
      Falls(p, a', t, p);
    }
  }

  // ---------------------------------------------------------------- the bound computed

  lemma RateIsARate(k: int, n: int)
    requires 0 <= k <= n && n > 0
    ensures 0.0 <= Rate(k, n) <= 1.0
    ensures Rate(k, n) * n as real == k as real
  {
    var p, m := Rate(k, n), n as real;
    Scaled(m, p, 0.0);
    Scaled(m, 1.0, p);
  }

  /** The square of 1.96 over the number of trials. */
  ghost function Spread(m: real): real
    requires m > 0.0
  {
    Z * Z / m
  }

  lemma SpreadTimes(m: real)
    requires m > 0.0
    ensures Spread(m) * m == Z * Z && Spread(m) > 0.0
  {
    Scaled(m, 0.0, Spread(m));
  }

  lemma Pieces(p: real, m: real)
    requires m > 0.0
    ensures Denominator(m) == 1.0 + Spread(m) && Centre(p, m) == p + Spread(m) / 2.0
    ensures Variance(p, m) == p * (1.0 - p) / m + Spread(m) / (4.0 * m)
  {
    var a := Spread(m);
    SpreadTimes(m);
    Cancel(Z * Z / (2.0 * m), a / 2.0, 2.0 * m);
    var v := Z * Z / (4.0 * m * m);
    assert v * (4.0 * m * m) == Z * Z;
    assert v * m * (4.0 * m) == a * m;
    Cancel(v * (4.0 * m), a, m);
  }

  lemma VarianceTimes(p: real, m: real)
    requires m > 0.0
    ensures Variance(p, m) * m == p * (1.0 - p) + Spread(m) / 4.0
  {
    var q, a := p * (1.0 - p), Spread(m);
    Pieces(p, m);
    hide Spread, Variance;
    var u, v := q / m, a / (4.0 * m);
    assert u * m == q && v * m == a / 4.0;
    assert Variance(p, m) * m == u * m + v * m;
  }

  lemma MarginSquared(p: real, m: real, s: real)
    requires m > 0.0 && s * s == Variance(p, m)
    ensures (Z * s) * (Z * s) == Spread(m) * (p * (1.0 - p)) + Spread(m) * Spread(m) / 4.0
  {
    SpreadTimes(m);
    VarianceTimes(p, m);
    hide Spread, Variance;
    assert (Z * s) * (Z * s) == (Spread(m) * m) * Variance(p, m);
    assert (Spread(m) * m) * Variance(p, m) == Spread(m) * (Variance(p, m) * m);
  }

  lemma VarianceNotNegative(p: real, m: real)
    requires m > 0.0 && 0.0 <= p <= 1.0
    ensures Variance(p, m) >= 0.0
  {
    SpreadTimes(m);
    VarianceTimes(p, m);
    Product(p, 1.0 - p);
    hide Spread, Variance;
    Scaled(m, Variance(p, m), 0.0);
  }

  lemma SolvedBy(p: real, a: real, m: real, t: real)
    requires a > 0.0 && m >= 0.0 && m * m == a * (p * (1.0 - p)) + a * a / 4.0
    requires t == (p + a / 2.0 - m) / (1.0 + a)
    ensures LeftRoot(p, a, t)
  {
    var d, c := 1.0 + a, p + a / 2.0;
    assert d * t == c - m;
    assert d * Excess(p, a, t) == (d * t) * (d * t) - 2.0 * c * (d * t) + d * p * p;
    assert (d * t) * (d * t) == c * c - 2.0 * c * m + m * m;
    assert d * Excess(p, a, t) == m * m - c * c + d * p * p;
    assert c * c == p * p + a * p + a * a / 4.0;
    Cancel(Excess(p, a, t), 0.0, d);
  }

  lemma WilsonUnfolded(root: Root, k: int, n: int)
    requires n > 0
    ensures var p, a := Rate(k, n), Spread(n as real);
            a > 0.0 && WilsonLower(root, k, n) == (p + a / 2.0 - Z * root(Variance(p, n as real))) / (1.0 + a)
  {
    hide Rate, Spread, Centre, Variance, Denominator;
    SpreadTimes(n as real);
    Pieces(Rate(k, n), n as real);
  }

  lemma SquareRootOf(root: Root, x: real)
    requires SquareRoot(root) && x >= 0.0
    ensures root(x) >= 0.0 && root(x) * root(x) == x
  {
  }

  lemma WilsonIsLeftRoot(root: Root, k: int, n: int)
    requires SquareRoot(root) && 0 <= k <= n && n > 0
    ensures Spread(n as real) > 0.0 && LeftRoot(Rate(k, n), Spread(n as real), WilsonLower(root, k, n))
  {
    hide *;
    var p, m := Rate(k, n), n as real;
    RateIsARate(k, n);
    SpreadTimes(m);
    VarianceNotNegative(p, m);
    SquareRootOf(root, Variance(p, m));
    MarginSquared(p, m, root(Variance(p, m)));
    WilsonUnfolded(root, k, n);
    ZTimes(root(Variance(p, m)));
    SolvedBy(p, Spread(m), Z * root(Variance(p, m)), WilsonLower(root, k, n));
  }

  lemma ZTimes(s: real)
    requires s >= 0.0
    ensures Z * s >= 0.0
  {
  }

  /**
   The bound is the smaller solution of (p - t)^2 = z^2 t (1 - t) / n, and lies between zero and the
   rate seen.
   */
  lemma WilsonIsSmallerRoot(root: Root, k: int, n: int)
    requires SquareRoot(root) && 0 <= k <= n && n > 0
    ensures var p, a, t := Rate(k, n), Spread(n as real), WilsonLower(root, k, n);
            && 0.0 <= t <= p && t < 1.0
            && Excess(p, a, t) == 0.0
            && forall u :: Excess(p, a, u) == 0.0 ==> t <= u
  {
    var p, a, t := Rate(k, n), Spread(n as real), WilsonLower(root, k, n);
    RateIsARate(k, n);
    WilsonIsLeftRoot(root, k, n);
    hide WilsonLower, Excess;
    RootIsARate(p, a, t);
    forall u | Excess(p, a, u) == 0.0
      ensures t <= u
    {
      SmallestRoot(p, a, t, u);
    }
  }

  /** The equation in figures: z is 1.96, and z squared 3.8416. */
  lemma BoundInFigures(root: Root, k: int, n: int)
    requires SquareRoot(root) && 0 <= k <= n && n > 0
    ensures var p, t := k as real / n as real, WilsonLower(root, k, n);
            0.0 <= t <= p && (p - t) * (p - t) == 3.8416 / n as real * t * (1.0 - t)
  {
    WilsonIsSmallerRoot(root, k, n);
    hide WilsonLower;
  }

  lemma Commute(m: real, x: real, y: real)
    ensures m * x == x * m && m * y == y * m
  {
  }

  lemma WilsonGrowsWithSupport(root: Root, k: int, k': int, n: int)
    requires SquareRoot(root) && 0 <= k <= k' <= n && n > 0
    ensures WilsonLower(root, k, n) <= WilsonLower(root, k', n)
  {
    hide *;
    RateIsARate(k, n);
    RateIsARate(k', n);
    WilsonIsLeftRoot(root, k, n);
    WilsonIsLeftRoot(root, k', n);
    var m := n as real;
    Commute(m, Rate(k, n), Rate(k', n));
    Scaled(m, Rate(k', n), Rate(k, n));
    RootGrowsWithRate(Rate(k, n), Spread(m), WilsonLower(root, k, n), Rate(k', n), WilsonLower(root, k', n));
  }

  /** The same rate seen over more trials is worth at least as much. */
  lemma WilsonGrowsWithTrials(root: Root, k: int, n: int, k': int, n': int)
    requires SquareRoot(root) && 0 <= k <= n && 0 < n <= n' && k * n' == k' * n
    ensures WilsonLower(root, k, n) <= WilsonLower(root, k', n')
  {
    SameRate(k, n, k', n');
    RateIsARate(k, n);
    WilsonIsLeftRoot(root, k, n);
    WilsonIsLeftRoot(root, k', n');
    LessSpread(n as real, n' as real);
    hide WilsonLower, LeftRoot;
    RootGrowsWithTrials(Rate(k, n), Spread(n as real), WilsonLower(root, k, n), Spread(n' as real), WilsonLower(root, k', n'));
  }

  lemma SameRate(k: int, n: int, k': int, n': int)
    requires 0 <= k <= n && 0 < n <= n' && k * n' == k' * n
    ensures 0 <= k' <= n' && Rate(k, n) == Rate(k', n')
  {
    Between(k, n, k', n');
    var m, m', p, p' := n as real, n' as real, Rate(k, n), Rate(k', n');
    RateIsARate(k, n);
    RateIsARate(k', n');
    hide *;
    assert (k * n') as real == k as real * m' && (k' * n) as real == k' as real * m;
    assert p * (m * m') == (p * m) * m' && p' * (m * m') == (p' * m') * m;
    Cancel(p, p', m * m');
  }

  lemma IntProduct(u: int, v: int)
    ensures u > 0 && v > 0 ==> u * v > 0
    ensures u < 0 && v > 0 ==> u * v < 0
    ensures u >= 0 && v >= 0 ==> u * v >= 0
  {
  }

  lemma Between(k: int, n: int, k': int, n': int)
    requires 0 <= k <= n && 0 < n <= n' && k * n' == k' * n
    ensures 0 <= k' <= n'
  {
    IntProduct(k, n');
    IntProduct(k', n);
    IntProduct(k' - n', n);
    IntProduct(n - k, n');
    assert (k' - n') * n == k' * n - n' * n && (n - k) * n' == n * n' - k * n';
  }

  lemma LessSpread(m: real, m': real)
    requires 0.0 < m <= m'
    ensures Spread(m') <= Spread(m)
  {
    var a, a' := Spread(m), Spread(m');
    SpreadTimes(m);
    SpreadTimes(m');
    hide Spread;
    Scaled(m', a, a');
    Product(a, m' - m);
    assert a * (m' - m) == m' * a - a * m;
  }

  /** Passing the lift test on the bound is passing it on the rate itself. */
  lemma LiftIsReal(root: Root, k: int, n: int, bar: real)
    requires SquareRoot(root) && 0 <= k <= n && n > 0
    requires WilsonLower(root, k, n) >= bar
    ensures Rate(k, n) >= bar
  {
    hide *;
    WilsonIsSmallerRoot(root, k, n);
  }
}
