/** Pearson's correlation as the pattern detector computes it. */
module Correlation {
  import opened Options

  /** A missing element reads as 0. */
  function At(values: seq<real>, i: nat): real {
    if i < |values| then values[i] else 0.0
  }

  function Sum(values: seq<real>): real {
    if values == [] then 0.0 else Sum(values[..|values| - 1]) + values[|values| - 1]
  }

  function Average(values: seq<real>): real {
    if |values| == 0 then 0.0 else Sum(values) / |values| as real
  }

  /** The first `n` deviations from the mean. */
  function Deviations(values: seq<real>, n: nat): (d: seq<real>)
    ensures |d| == n
  {
    seq(n, i requires i >= 0 => At(values, i) - Average(values))
  }

  function Times(x: real, y: real): real {
    x * y
  }

  function Dot(a: seq<real>, b: seq<real>, n: nat): real
    requires n <= |a| && n <= |b|
  {
    if n == 0 then 0.0 else Dot(a, b, n - 1) + Times(a[n - 1], b[n - 1])
  }

  // ---------------------------------------------------------------- products of reals

  lemma Square(x: real)
    ensures Times(x, x) >= 0.0
  {
  }

  lemma Product(a: real, b: real)
    ensures a >= 0.0 && b >= 0.0 ==> Times(a, b) >= 0.0
    ensures a > 0.0 && b > 0.0 ==> Times(a, b) > 0.0
    ensures Times(a, b) == Times(b, a) && Times(-a, b) == -Times(a, b)
  {
  }

  lemma Spread(a: real, x: real, y: real)
    ensures Times(a, x + y) == Times(a, x) + Times(a, y)
    ensures Times(a, x - y) == Times(a, x) - Times(a, y)
  {
  }

  lemma Regroup(a: real, b: real, c: real, d: real)
    ensures Times(Times(a, b), Times(c, d)) == Times(Times(a, c), Times(b, d))
    ensures Times(Times(a, b), c) == Times(a, Times(b, c))
  {
  }

  /** (x - y) * (x + y). */
  lemma DifferenceOfSquares(x: real, y: real)
    ensures Times(x - y, x + y) == Times(x, x) - Times(y, y)
  {
  }

  lemma AbsBound(n: real, d: real)
    requires d >= 0.0 && Times(n, n) <= Times(d, d)
    ensures -d <= n <= d
  {
    hide Times;
    DifferenceOfSquares(n, d);
    DifferenceOfSquares(-n, d);
    Product(n, n);
    Product(n, -n);
    Product(n - d, n + d);
    Product(-n - d, -n + d);
  }

  lemma RootUnique(x: real, y: real)
    requires x >= 0.0 && y >= 0.0 && Times(x, x) == Times(y, y)
    ensures x == y
  {
    hide Times;
    AbsBound(x, y);
    AbsBound(y, x);
  }

  // ---------------------------------------------------------------- Cauchy-Schwarz

  lemma {:induction false} SquaresNonNegative(a: seq<real>, n: nat)
    requires n <= |a|
    ensures Dot(a, a, n) >= 0.0
  {
    if n == 0 {
    } else {
      hide Times;
      SquaresNonNegative(a, n - 1);
      Square(a[n - 1]);
    }
  }

  /** A geometric mean is at most the arithmetic one. */
  lemma ArithmeticGeometric(p: real, q: real, m: real)
    requires p >= 0.0 && q >= 0.0 && Times(m, m) <= Times(p, q)
    ensures 2.0 * m <= p + q
  {
    assert Times(2.0 * m, 2.0 * m) == 4.0 * Times(m, m);
    assert Times(p + q, p + q) == 4.0 * Times(p, q) + Times(p - q, p - q);
    hide Times;
    Square(p - q);
    AbsBound(2.0 * m, p + q);
  }

  lemma Order(a: real, b: real, c: real)
    requires a <= b && c >= 0.0
    ensures Times(a, c) <= Times(b, c)
  {
  }

  lemma SumOfProducts(n: real, m: real)
    ensures Times(n + m, n + m) == Times(n, n) + 2.0 * Times(n, m) + Times(m, m)
  {
  }

  lemma ProductOfSums(a: real, b: real, c: real, d: real)
    ensures Times(a + b, c + d) == Times(a, c) + Times(a, d) + Times(b, c) + Times(b, d)
  {
  }

  lemma Grow(n: real, sx: real, sy: real, x: real, y: real)
    requires sx >= 0.0 && sy >= 0.0 && Times(n, n) <= Times(sx, sy)
    ensures Times(n + Times(x, y), n + Times(x, y)) <= Times(sx + Times(x, x), sy + Times(y, y))
  {
    hide Times;
    var xy, xx, yy := Times(x, y), Times(x, x), Times(y, y);
    var p, q, m := Times(sx, yy), Times(xx, sy), Times(n, xy);
    Square(x);
    Square(y);
    Square(xy);
    Product(sx, yy);
    Product(xx, sy);
    Regroup(x, y, x, y);
    Regroup(n, xy, n, xy);
    assert Times(m, m) <= Times(p, q) by {
      Order(Times(n, n), Times(sx, sy), Times(xy, xy));
      Product(xx, sy);
      Product(xx, yy);
      Regroup(sx, yy, sy, xx);
    }
    ArithmeticGeometric(p, q, m);
    SumOfProducts(n, xy);
    ProductOfSums(sx, xx, sy, yy);
  }

  /** The square of the sum of products is at most the product of the sums of squares. */
  lemma {:induction false} CauchySchwarz(a: seq<real>, b: seq<real>, n: nat)
    requires n <= |a| && n <= |b|
    ensures Times(Dot(a, b, n), Dot(a, b, n)) <= Times(Dot(a, a, n), Dot(b, b, n))
  {
    if n == 0 {
    } else {
      hide Times;
      CauchySchwarz(a, b, n - 1);
      SquaresNonNegative(a, n - 1);
      SquaresNonNegative(b, n - 1);
      Grow(Dot(a, b, n - 1), Dot(a, a, n - 1), Dot(b, b, n - 1), a[n - 1], b[n - 1]);
    }
  }

  // ---------------------------------------------------------------- the correlation

  /** `sqrt` is a square root on the non-negative numbers. */
  ghost predicate IsSqrt(sqrt: real -> real) {
    forall x: real :: x >= 0.0 ==> sqrt(x) >= 0.0 && Times(sqrt(x), sqrt(x)) == x
  }

  function Ratio(numerator: real, denominator: real): real {
    if denominator == 0.0 then 0.0 else numerator / denominator
  }

  lemma RatioTimes(q: real, n: real, d: real)
    ensures d != 0.0 ==> Times(Ratio(n, d), d) == n
    ensures d != 0.0 && Times(q, d) == n ==> Ratio(n, d) == q
  {
    if d != 0.0 {
      Restored(n, d);
      if Times(q, d) == n {
        Divided(n, d, q);
      }
    }
  }

  /** Covariance over the root of the product of the variances, all taken as plain sums. */
  function Pearson(xs: seq<real>, ys: seq<real>, sqrt: real -> real): real {
    var n := |xs|;
    if n < 2 then 0.0
    else
      var dx, dy := Deviations(xs, n), Deviations(ys, n);
      Ratio(Dot(dx, dy, n), sqrt(Times(Dot(dx, dx, n), Dot(dy, dy, n))))
  }

  method PearsonCorrelation(xs: seq<real>, ys: seq<real>, sqrt: real -> real) returns (r: real)
    requires IsSqrt(sqrt)
    ensures r == Pearson(xs, ys, sqrt)
    ensures -1.0 <= r <= 1.0
  {
    hide Times, IsSqrt, Average, At, Ratio;
    var n := |xs|;
    if n < 2 {
      return 0.0;
    }
    var meanX, meanY := Average(xs), Average(ys);
    ghost var dxs, dys := Deviations(xs, n), Deviations(ys, n);
    var numerator, sumSqX, sumSqY := 0.0, 0.0, 0.0;
    for i := 0 to n
      invariant numerator == Dot(dxs, dys, i)
      invariant sumSqX == Dot(dxs, dxs, i)
      invariant sumSqY == Dot(dys, dys, i)
    {
      var dx := At(xs, i) - meanX;
      var dy := At(ys, i) - meanY;
      numerator := numerator + Times(dx, dy);
      sumSqX := sumSqX + Times(dx, dx);
      sumSqY := sumSqY + Times(dy, dy);
    }
    var denominator := sqrt(Times(sumSqX, sumSqY));
    r := Ratio(numerator, denominator);
    CorrelationBound(dxs, dys, n, sqrt);
  }

  lemma CorrelationBound(a: seq<real>, b: seq<real>, n: nat, sqrt: real -> real)
    requires n <= |a| && n <= |b| && IsSqrt(sqrt)
    ensures -1.0 <= Ratio(Dot(a, b, n), sqrt(Times(Dot(a, a, n), Dot(b, b, n)))) <= 1.0
  {
    hide Times, Dot, Ratio;
    CauchySchwarz(a, b, n);
    SquaresNonNegative(a, n);
    SquaresNonNegative(b, n);
    Product(Dot(a, a, n), Dot(b, b, n));
    RatioBound(Dot(a, b, n), sqrt(Times(Dot(a, a, n), Dot(b, b, n))));
  }

  lemma RatioBound(n: real, d: real)
    requires d >= 0.0 && Times(n, n) <= Times(d, d)
    ensures -1.0 <= Ratio(n, d) <= 1.0
  {
    AbsBound(n, d);
    if d > 0.0 {
      var q := Ratio(n, d);
      RatioTimes(q, n, d);
      hide Times, Ratio;
      Spread(d, 1.0, q);
      Spread(d, 1.0, -q);
      Product(d, q);
      Product(q, d);
      Unit(d);
      Product(d, q - 1.0);
      Product(q - 1.0, d);
      Product(-q - 1.0, d);
      Spread(d, q, 1.0);
      Spread(d, -q, 1.0);
    }
  }

  lemma Unit(d: real)
    ensures Times(d, 1.0) == d
  {
  }

  // ---------------------------------------------------------------- units do not matter

  /** A value in other units. */
  function Rescale(value: real, a: real, b: real): real {
    Times(a, value) + b
  }

  function Affine(values: seq<real>, a: real, b: real): seq<real> {
    seq(|values|, i requires 0 <= i < |values| => Rescale(values[i], a, b))
  }

  lemma {:induction false} AffineSum(values: seq<real>, a: real, b: real)
    ensures Sum(Affine(values, a, b)) == Times(a, Sum(values)) + Times(b, |values| as real)
  {
    if values == [] {
      assert Times(a, 0.0) == 0.0 && Times(b, 0.0) == 0.0;
    } else {
      hide Times;
      var n := |values| - 1;
      AffineSum(values[..n], a, b);
      assert Affine(values, a, b)[..n] == Affine(values[..n], a, b);
      Spread(a, Sum(values[..n]), values[n]);
      Spread(b, n as real, 1.0);
      Unit(b);
    }
  }

  lemma AffineAverage(values: seq<real>, a: real, b: real)
    requires values != []
    ensures Average(Affine(values, a, b)) == Rescale(Average(values), a, b)
  {
    AffineSum(values, a, b);
    var n := |values| as real;
    RatioTimes(0.0, Sum(values), n);
    var mean := Average(values);
    assert Times(mean, n) == Sum(values);
    Restore(a, b, mean, n);
    RatioTimes(Rescale(mean, a, b), Sum(Affine(values, a, b)), n);
  }

  lemma Restore(a: real, b: real, mean: real, n: real)
    ensures Times(Rescale(mean, a, b), n) == Times(a, Times(mean, n)) + Times(b, n)
  {
  }

  lemma {:induction false} ScaledDots(a: seq<real>, b: seq<real>, c: seq<real>, k: real, n: nat)
    requires n <= |a| && n <= |b| && n <= |c|
    requires forall i :: 0 <= i < n ==> c[i] == Times(k, a[i])
    ensures Dot(c, b, n) == Times(k, Dot(a, b, n))
    ensures Dot(c, c, n) == Times(Times(k, k), Dot(a, a, n))
  {
    if n == 0 {
      assert Times(k, 0.0) == 0.0 && Times(Times(k, k), 0.0) == 0.0;
    } else {
      hide Times;
      ScaledDots(a, b, c, k, n - 1);
      var x, y := a[n - 1], b[n - 1];
      Regroup(k, x, y, 0.0);
      Regroup(k, x, k, x);
      Spread(k, Dot(a, b, n - 1), Times(x, y));
      Spread(Times(k, k), Dot(a, a, n - 1), Times(x, x));
    }
  }

  /** A change of units leaves the correlation as it is; a change that turns the series upside down negates it. */
  lemma UnitsDoNotMatter(xs: seq<real>, ys: seq<real>, a: real, b: real, sqrt: real -> real)
    requires IsSqrt(sqrt) && a != 0.0
    ensures Pearson(Affine(xs, a, b), ys, sqrt)
              == if a > 0.0 then Pearson(xs, ys, sqrt) else -Pearson(xs, ys, sqrt)
  {
    var n := |xs|;
    if n >= 2 {
      hide Times, Average, IsSqrt, Ratio, Dot;
      var dx, dy, dz := Deviations(xs, n), Deviations(ys, n), Deviations(Affine(xs, a, b), n);
      AffineAverage(xs, a, b);
      forall i | 0 <= i < n
        ensures dz[i] == Times(a, dx[i])
      {
        Spread(a, At(xs, i), Average(xs));
      }
      hide Deviations;
      ScaledDots(dx, dy, dz, a, n);
      SquaresNonNegative(dx, n);
      SquaresNonNegative(dy, n);
      RatioScaled(Dot(dx, dy, n), Dot(dx, dx, n), Dot(dy, dy, n), a, sqrt);
    } else {
      hide Deviations, Dot;
    }
  }

  lemma RatioScaled(m: real, x: real, y: real, a: real, sqrt: real -> real)
    requires IsSqrt(sqrt) && a != 0.0 && x >= 0.0 && y >= 0.0
    ensures Ratio(Times(a, m), sqrt(Times(Times(Times(a, a), x), y)))
              == if a > 0.0 then Ratio(m, sqrt(Times(x, y))) else -Ratio(m, sqrt(Times(x, y)))
  {
    hide Times, Ratio;
    var k := if a > 0.0 then a else -a;
    var d, e := sqrt(Times(x, y)), sqrt(Times(Times(Times(a, a), x), y));
    Product(x, y);
    Square(a);
    Product(Times(a, a), Times(x, y));
    Regroup(Times(a, a), x, y, 0.0);
    Product(k, d);
    Regroup(k, d, k, d);
    Product(a, a);
    Product(a, -a);
    RootUnique(e, Times(k, d));
    ScaledRatio(m, d, a, k);
  }

  lemma ScaledRatio(m: real, d: real, a: real, k: real)
    requires a != 0.0 && k == (if a > 0.0 then a else -a) && d >= 0.0
    ensures Ratio(Times(a, m), Times(k, d)) == if a > 0.0 then Ratio(m, d) else -Ratio(m, d)
  {
    Product(k, d);
    if d > 0.0 {
      var q := Ratio(m, d);
      RatioTimes(0.0, m, d);
      var r := if a > 0.0 then q else -q;
      assert Times(r, Times(k, d)) == Times(a, Times(q, d));
      RatioTimes(r, Times(a, m), Times(k, d));
    }
  }

  /** A series that varies at all correlates perfectly with itself. */
  lemma {:induction false} SelfCorrelation(xs: seq<real>, sqrt: real -> real)
    requires IsSqrt(sqrt) && |xs| >= 2
    ensures var spread := Dot(Deviations(xs, |xs|), Deviations(xs, |xs|), |xs|);
            Pearson(xs, xs, sqrt) == if spread == 0.0 then 0.0 else 1.0
  {
    hide Deviations, Times, Dot;
    var x := Dot(Deviations(xs, |xs|), Deviations(xs, |xs|), |xs|);
    SquaresNonNegative(Deviations(xs, |xs|), |xs|);
    Product(x, x);
    RootUnique(sqrt(Times(x, x)), x);
    Unit(x);
    Product(1.0, x);
    RatioTimes(1.0, x, x);
  }

  // ---------------------------------------------------------------- the deviations, in plain sums

  lemma SumNext(values: seq<real>, x: real)
    ensures Sum(values + [x]) == Sum(values) + x
  {
    assert (values + [x])[..|values|] == values;
  }

  lemma NextTimes(n: int, c: real)
    ensures Times(n as real, c) == Times((n - 1) as real, c) + c
    ensures Times(0.0, c) == 0.0 && Times(c, 0.0) == 0.0
  {
  }

  lemma AverageTimes(values: seq<real>)
    requires values != []
    ensures Times(Average(values), |values| as real) == Sum(values)
    ensures Times(|values| as real, Average(values)) == Sum(values)
  {
    Restored(Sum(values), |values| as real);
  }

  /** Values less a constant sum up to that many constants less. */
  lemma {:induction false} ShiftedSum(values: seq<real>, d: seq<real>, c: real, n: nat)
    requires n <= |values| && n <= |d| && forall i | 0 <= i < n :: d[i] == values[i] - c
    ensures Sum(d[..n]) == Sum(values[..n]) - Times(n as real, c)
  {
    hide Times, Sum;
    NextTimes(n, c);
    if n == 0 {
      NoSum(d[..0]);
      NoSum(values[..0]);
    } else {
      assert d[..n] == d[..n - 1] + [d[n - 1]];
      assert values[..n] == values[..n - 1] + [values[n - 1]];
      ShiftedSum(values, d, c, n - 1);
      SumNext(d[..n - 1], d[n - 1]);
      SumNext(values[..n - 1], values[n - 1]);
    }
  }

  lemma NoSum(values: seq<real>)
    requires values == []
    ensures Sum(values) == 0.0
  {
  }

  /** The deviations from the mean add up to nothing. */
  lemma DeviationsCancel(values: seq<real>)
    requires values != []
    ensures Sum(Deviations(values, |values|)) == 0.0
  {
    hide Times, Sum, Average;
    var n, d := |values|, Deviations(values, |values|);
    ShiftedSum(values, d, Average(values), n);
    assert values[..n] == values && d[..n] == d;
    AverageTimes(values);
  }

  /** The sum of the products of the deviations, as one computes it by hand: n * sum(x * y) - sum(x) * sum(y). */
  lemma CovarianceByHand(xs: seq<real>, ys: seq<real>)
    requires |xs| == |ys| && xs != []
    ensures var n := |xs|;
            Times(n as real, Dot(Deviations(xs, n), Deviations(ys, n), n))
              == Times(n as real, Dot(xs, ys, n)) - Times(Sum(xs), Sum(ys))
  {
    hide Times, Sum, Average, Dot;
    var n := |xs|;
    var dx, dy, mx, my := Deviations(xs, n), Deviations(ys, n), Average(xs), Average(ys);
    assert xs[..n] == xs && ys[..n] == ys;
    DotOfShifted(xs, ys, dx, dy, mx, my, n);
    AverageTimes(xs);
    AverageTimes(ys);
    ByHand(n as real, Dot(xs, ys, n), Sum(xs), Sum(ys), mx, my, Dot(dx, dy, n));
  }

  lemma ByHand(n: real, xy: real, x: real, y: real, mx: real, my: real, dot: real)
    requires Times(mx, n) == x && Times(my, n) == y
    requires dot == xy - Times(mx, y) - Times(my, x) + Times(n, Times(mx, my))
    ensures Times(n, dot) == Times(n, xy) - Times(x, y)
  {
    var a, b, c := Times(mx, y), Times(my, x), Times(n, Times(mx, my));
    ThreeProducts(n, mx, my);
    hide Times;
    assert c == a;
    assert dot == xy - b;
    Spread(n, xy, b);
  }

  lemma ThreeProducts(n: real, mx: real, my: real)
    ensures Times(n, Times(mx, my)) == Times(mx, Times(my, n))
    ensures Times(n, Times(my, Times(mx, n))) == Times(Times(mx, n), Times(my, n))
  {
  }

  lemma {:induction false} DotOfShifted(
    xs: seq<real>, ys: seq<real>, dx: seq<real>, dy: seq<real>, mx: real, my: real, n: nat)
    requires n <= |xs| && n <= |ys| && n <= |dx| && n <= |dy|
    requires forall i | 0 <= i < n :: dx[i] == xs[i] - mx && dy[i] == ys[i] - my
    ensures Dot(dx, dy, n)
              == Dot(xs, ys, n) - Times(mx, Sum(ys[..n])) - Times(my, Sum(xs[..n])) + Times(n as real, Times(mx, my))
  {
    hide Times, Sum;
    NextTimes(n, Times(mx, my));
    if n == 0 {
      NextTimes(0, mx);
      NextTimes(0, my);
      NoSum(xs[..0]);
      NoSum(ys[..0]);
    } else {
      var x, y := xs[n - 1], ys[n - 1];
      DotOfShifted(xs, ys, dx, dy, mx, my, n - 1);
      assert xs[..n] == xs[..n - 1] + [x] && ys[..n] == ys[..n - 1] + [y];
      SumNext(xs[..n - 1], x);
      SumNext(ys[..n - 1], y);
      Shifted(x, y, mx, my);
      Spread(mx, Sum(ys[..n - 1]), y);
      Spread(my, Sum(xs[..n - 1]), x);
    }
  }

  lemma Shifted(x: real, y: real, mx: real, my: real)
    ensures Times(x - mx, y - my) == Times(x, y) - Times(mx, y) - Times(my, x) + Times(mx, my)
  {
  }

  /** What a shorter second series lacks counts as 0, against the average of what it has. */
  lemma ShorterSeries(values: seq<real>, n: nat, i: nat)
    requires i < n
    ensures Deviations(values, n)[i]
              == (if i < |values| then values[i] else 0.0)
                 - if values == [] then 0.0 else Sum(values) / |values| as real
  {
  }

  /** n * sum(x * y) - sum(x) * sum(y). */
  function Moment(xs: seq<real>, ys: seq<real>): real
    requires |xs| == |ys|
  {
    Times(|xs| as real, Dot(xs, ys, |xs|)) - Times(Sum(xs), Sum(ys))
  }

  /**
   The textbook formula: the square of the correlation times the two variances is the square of the covariance, whose
   sign it has; it is 0 when one of the series does not vary.
   */
  lemma PearsonByHand(xs: seq<real>, ys: seq<real>, sqrt: real -> real)
    requires IsSqrt(sqrt) && |xs| == |ys| >= 2
    ensures var r, c := Pearson(xs, ys, sqrt), Moment(xs, ys);
            var v := Times(Moment(xs, xs), Moment(ys, ys));
            && Times(Times(r, r), v) == (if v == 0.0 then 0.0 else Times(c, c))
            && Times(r, c) >= 0.0
            && (v == 0.0 ==> r == 0.0)
  {
    hide Times, Sum, Average, Dot, Deviations, Ratio, IsSqrt;
    var n := |xs|;
    var dx, dy := Deviations(xs, n), Deviations(ys, n);
    CovarianceByHand(xs, ys);
    CovarianceByHand(xs, xs);
    CovarianceByHand(ys, ys);
    SquaresNonNegative(dx, n);
    SquaresNonNegative(dy, n);
    RatioByHand(n as real, Dot(dx, dy, n), Dot(dx, dx, n), Dot(dy, dy, n), sqrt);
  }

  lemma RatioByHand(n: real, dot: real, sx: real, sy: real, sqrt: real -> real)
    requires IsSqrt(sqrt) && n >= 2.0 && sx >= 0.0 && sy >= 0.0
    ensures var r, c := Ratio(dot, sqrt(Times(sx, sy))), Times(n, dot);
            var v := Times(Times(n, sx), Times(n, sy));
            && Times(Times(r, r), v) == (if v == 0.0 then 0.0 else Times(c, c))
            && Times(r, c) >= 0.0
            && (v == 0.0 ==> r == 0.0)
  {
    hide Times, Ratio;
    var d := sqrt(Times(sx, sy));
    var r, c, v := Ratio(dot, d), Times(n, dot), Times(Times(n, sx), Times(n, sy));
    Product(sx, sy);
    assert d >= 0.0 && Times(d, d) == Times(sx, sy);
    Regroup(n, sx, n, sy);
    NonZero(n, d, v);
    if d == 0.0 {
      RatioOfNothing(dot);
      ZeroTimes(c);
      ZeroTimes(0.0);
      ZeroTimes(v);
    } else {
      RatioTimes(0.0, dot, d);
      SquaresByHand(r, d, n, dot, c, v);
    }
  }

  lemma RatioOfNothing(n: real)
    ensures Ratio(n, 0.0) == 0.0
  {
  }

  lemma ZeroTimes(x: real)
    ensures Times(0.0, x) == 0.0 && Times(x, 0.0) == 0.0
  {
  }

  lemma NonZero(n: real, d: real, v: real)
    requires n >= 2.0 && d >= 0.0 && v == Times(Times(n, n), Times(d, d))
    ensures v == 0.0 <==> d == 0.0
  {
    Product(n, n);
    Product(d, d);
    Product(Times(n, n), Times(d, d));
    ZeroTimes(0.0);
    ZeroTimes(Times(n, n));
    hide Times;
  }

  lemma SquaresByHand(r: real, d: real, n: real, dot: real, c: real, v: real)
    requires n >= 2.0 && d > 0.0 && Times(r, d) == dot && c == Times(n, dot) && v == Times(Times(n, n), Times(d, d))
    ensures Times(Times(r, r), v) == Times(c, c) && Times(r, c) >= 0.0
  {
    FourFactors(r, n, d);
    hide Times;
    Product(n, d);
    Square(r);
    Product(Times(r, r), Times(n, d));
  }

  lemma FourFactors(r: real, n: real, d: real)
    ensures Times(r, Times(n, Times(r, d))) == Times(Times(r, r), Times(n, d))
    ensures Times(Times(r, r), Times(Times(n, n), Times(d, d))) == Times(Times(n, Times(r, d)), Times(n, Times(r, d)))
  {
  }
}
