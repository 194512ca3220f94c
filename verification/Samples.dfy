/**
 Mean, variance, covariance and correlation of equal-length samples.

 The covariance is bounded by the variances, so a correlation lies in [-1, 1];
 it reaches an end of that range exactly when one sample is an affine function
 of the other.
 */
module Samples {
  import opened Arithmetic

  type Sample = s: seq<real> | |s| >= 2 witness [0.0, 0.0]

  /** Sum of the first n values. */
  function Sum(xs: seq<real>, n: nat): real
    requires n <= |xs|
  {
    if n == 0 then 0.0 else Sum(xs, n - 1) + xs[n - 1]
  }

  function Mean(xs: Sample): real {
    Sum(xs, |xs|) / |xs| as real
  }

  function Square(x: real): real {
    x * x
  }

  /** Sum of the first n squared distances from c. */
  function SquareSum(xs: seq<real>, c: real, n: nat): real
    requires n <= |xs|
  {
    if n == 0 then 0.0 else SquareSum(xs, c, n - 1) + Square(xs[n - 1] - c)
  }

  function Variance(xs: Sample): real {
    SquareSum(xs, Mean(xs), |xs|) / (|xs| - 1) as real
  }

  /** Sum of the first n products of distances from c and from d. */
  function CrossSum(xs: seq<real>, ys: seq<real>, c: real, d: real, n: nat): real
    requires n <= |xs| && n <= |ys|
  {
    if n == 0 then 0.0 else CrossSum(xs, ys, c, d, n - 1) + Product(xs[n - 1] - c, ys[n - 1] - d)
  }

  function Covariance(xs: Sample, ys: Sample): real
    requires |xs| == |ys|
  {
    CrossSum(xs, ys, Mean(xs), Mean(ys), |xs|) / (|xs| - 1) as real
  }

  function StdDev(xs: Sample, sqrt: real -> real): real {
    sqrt(Variance(xs))
  }

  /** Pearson correlation, defined when neither deviation is zero. */
  function Correlation(xs: Sample, ys: Sample, sqrt: real -> real): real
    requires |xs| == |ys| && StdDev(xs, sqrt) != 0.0 && StdDev(ys, sqrt) != 0.0
  {
    ProductNonZero(StdDev(xs, sqrt), StdDev(ys, sqrt));
    Covariance(xs, ys) / (StdDev(xs, sqrt) * StdDev(ys, sqrt))
  }

  // ----- Signs -----

  lemma ProductNonZero(x: real, y: real)
    requires x != 0.0 && y != 0.0
    ensures x * y != 0.0
  {
  }

  lemma SquareSign(x: real)
    ensures Square(x) >= 0.0
    ensures x == 0.0 ==> Square(x) == 0.0
    ensures x != 0.0 ==> Square(x) > 0.0
  {
    SquareIsProduct(x);
    if x == 0.0 {
      ProductOfZero(x);
    } else {
      hide Square, Product;
      ProductSameSign(x, x);
    }
  }

  lemma ProductSameSign(x: real, y: real)
    requires (x > 0.0 && y > 0.0) || (x < 0.0 && y < 0.0)
    ensures Product(x, y) > 0.0
  {
  }

  lemma SquareIsProduct(x: real)
    ensures Square(x) == Product(x, x)
  {
  }

  lemma SignOfProduct(r: real, x: real)
    requires x > 0.0
    ensures r >= 0.0 <==> r * x >= 0.0
    ensures r == 0.0 <==> r * x == 0.0
  {
  }

  // ----- Least squares -----

  /** How far the point (x, y) is from the line of slope t through (c, d). */
  function Miss(x: real, y: real, c: real, d: real, t: real): real {
    y - d - t * (x - c)
  }

  /** Sum of the first n squared misses. */
  function ResidualSum(xs: seq<real>, ys: seq<real>, c: real, d: real, t: real, n: nat): real
    requires n <= |xs| && n <= |ys|
  {
    if n == 0 then 0.0 else
    ResidualSum(xs, ys, c, d, t, n - 1) + Square(Miss(xs[n - 1], ys[n - 1], c, d, t))
  }

  /** The first n points lie on the line of slope t through (c, d). */
  ghost predicate OnLine(xs: seq<real>, ys: seq<real>, c: real, d: real, t: real, n: nat)
    requires n <= |xs| && n <= |ys|
  {
    forall i :: 0 <= i < n ==> Miss(xs[i], ys[i], c, d, t) == 0.0
  }

  /** The residual is never negative, and vanishes exactly when every point is on the line. */
  lemma {:induction false} ResidualSign(xs: seq<real>, ys: seq<real>, c: real, d: real, t: real, n: nat)
    requires n <= |xs| && n <= |ys|
    ensures ResidualSum(xs, ys, c, d, t, n) >= 0.0
    ensures ResidualSum(xs, ys, c, d, t, n) == 0.0 <==> OnLine(xs, ys, c, d, t, n)
  {
    hide Miss, Square;
    if n == 0 {
    } else {
      ResidualSign(xs, ys, c, d, t, n - 1);
      SquareSign(Miss(xs[n - 1], ys[n - 1], c, d, t));
    }
  }

  /** The residual as a quadratic in the slope. */
  function Quadratic(t: real, yy: real, xy: real, xx: real): real {
    yy - 2.0 * t * xy + t * t * xx
  }

  lemma SquareOfMiss(x: real, y: real, c: real, d: real, t: real)
    ensures Square(Miss(x, y, c, d, t)) == Quadratic(t, Square(y - d), Product(x - c, y - d), Square(x - c))
  {
    var a, b := x - c, y - d;
    var e := b - t * a;
    assert e * e == b * b - 2.0 * (t * (a * b)) + t * (t * (a * a));
    assert 2.0 * t * (a * b) == 2.0 * (t * (a * b));
    assert t * t * (a * a) == t * (t * (a * a));
  }

  lemma QuadraticAdds(t: real, yy: real, xy: real, xx: real, yy': real, xy': real, xx': real)
    ensures Quadratic(t, yy, xy, xx) + Quadratic(t, yy', xy', xx') == Quadratic(t, yy + yy', xy + xy', xx + xx')
  {
  }

  lemma {:induction false} ResidualIsQuadratic(xs: seq<real>, ys: seq<real>, c: real, d: real, t: real, n: nat)
    requires n <= |xs| && n <= |ys|
    ensures ResidualSum(xs, ys, c, d, t, n)
         == Quadratic(t, SquareSum(ys, d, n), CrossSum(xs, ys, c, d, n), SquareSum(xs, c, n))
  {
    if n == 0 {
    } else {
      hide Miss, Square, Product, Quadratic;
      ResidualIsQuadratic(xs, ys, c, d, t, n - 1);
      var x, y := xs[n - 1], ys[n - 1];
      SquareOfMiss(x, y, c, d, t);
      QuadraticAdds(t, SquareSum(ys, d, n - 1), CrossSum(xs, ys, c, d, n - 1), SquareSum(xs, c, n - 1),
        Square(y - d), Product(x - c, y - d), Square(x - c));
    }
  }

  lemma {:induction false} SquareSumSign(xs: seq<real>, c: real, n: nat)
    requires n <= |xs|
    ensures SquareSum(xs, c, n) >= 0.0
  {
    hide Square;
    if n == 0 {
    } else {
      SquareSumSign(xs, c, n - 1);
      SquareSign(xs[n - 1] - c);
    }
  }

  // ----- The Cauchy-Schwarz inequality -----

  /** At the best slope the quadratic is the gap in the inequality, up to scale. */
  lemma BestSlope(yy: real, xy: real, xx: real, t: real)
    requires xx > 0.0 && t == xy / xx
    ensures Quadratic(t, yy, xy, xx) * xx == Product(xx, yy) - Square(xy)
  {
    assert t * xx == xy;
    var r := Quadratic(t, yy, xy, xx);
    assert t * t * xx == t * xy;
    assert r == yy - t * xy;
    assert t * xy * xx == xy * xy;
  }

  /** Without spread in x, a steep enough line has a negative quadratic. */
  lemma FlatSample(yy: real, xy: real, t: real)
    requires xy != 0.0 && t == (yy + 1.0) / (2.0 * xy)
    ensures Quadratic(t, yy, xy, 0.0) < 0.0
  {
    assert t * (2.0 * xy) == yy + 1.0;
    assert t * t * 0.0 == 0.0;
  }

  lemma ZeroQuadratic(yy: real, xy: real, xx: real, t: real)
    requires Quadratic(t, yy, xy, xx) == 0.0
    ensures Square(xy) >= Product(xx, yy)
  {
    var e := t * xx - xy;
    SquareSign(e);
    assert e * e == xx * (t * t * xx - 2.0 * t * xy) + xy * xy;
    assert xx * (t * t * xx - 2.0 * t * xy) == xx * (0.0 - yy);
  }

  lemma CauchySchwarz(xs: seq<real>, ys: seq<real>, c: real, d: real, n: nat)
    requires n <= |xs| && n <= |ys|
    ensures Square(CrossSum(xs, ys, c, d, n)) <= Product(SquareSum(xs, c, n), SquareSum(ys, d, n))
  {
    var yy, xy, xx := SquareSum(ys, d, n), CrossSum(xs, ys, c, d, n), SquareSum(xs, c, n);
    SquareSumSign(xs, c, n);
    var t := if xx > 0.0 then xy / xx else if xy == 0.0 then 0.0 else (yy + 1.0) / (2.0 * xy);
    ResidualSign(xs, ys, c, d, t, n);
    ResidualIsQuadratic(xs, ys, c, d, t, n);
    hide SquareSum, CrossSum, ResidualSum, Quadratic, OnLine, Square, Product;
    if xx > 0.0 {
      BestSlope(yy, xy, xx, t);
      SignOfProduct(Quadratic(t, yy, xy, xx), xx);
    } else if xy != 0.0 {
      ProductOfZero(yy);
      FlatSample(yy, xy, t);
    } else {
      SquareSign(xy);
      ProductOfZero(yy);
    }
  }

  /** Equality holds exactly when one slope explains every point. */
  lemma CauchySchwarzTight(xs: seq<real>, ys: seq<real>, c: real, d: real, n: nat)
    requires n <= |xs| && n <= |ys| && SquareSum(xs, c, n) > 0.0
    ensures Square(CrossSum(xs, ys, c, d, n)) == Product(SquareSum(xs, c, n), SquareSum(ys, d, n))
            <==> exists t: real :: OnLine(xs, ys, c, d, t, n)
  {
    var yy, xy, xx := SquareSum(ys, d, n), CrossSum(xs, ys, c, d, n), SquareSum(xs, c, n);
    CauchySchwarz(xs, ys, c, d, n);
    hide SquareSum, CrossSum, ResidualSum, Quadratic, OnLine, Square, Product;
    if Square(xy) == Product(xx, yy) {
      var t := xy / xx;
      ResidualSign(xs, ys, c, d, t, n);
      ResidualIsQuadratic(xs, ys, c, d, t, n);
      BestSlope(yy, xy, xx, t);
      SignOfProduct(Quadratic(t, yy, xy, xx), xx);
    }
    forall t: real | OnLine(xs, ys, c, d, t, n)
      ensures Square(xy) >= Product(xx, yy)
    {
      ResidualSign(xs, ys, c, d, t, n);
      ResidualIsQuadratic(xs, ys, c, d, t, n);
      ZeroQuadratic(yy, xy, xx, t);
    }
  }

  // ----- Variance and covariance -----

  lemma {:induction false} CrossSumSquare(xs: seq<real>, c: real, n: nat)
    requires n <= |xs|
    ensures CrossSum(xs, xs, c, c, n) == SquareSum(xs, c, n)
  {
    if n == 0 {
    } else {
      CrossSumSquare(xs, c, n - 1);
    }
  }

  /** The variance of a sample is its covariance with itself, and is never negative. */
  lemma VarianceIsSelfCovariance(xs: Sample)
    ensures Variance(xs) == Covariance(xs, xs) >= 0.0
  {
    CrossSumSquare(xs, Mean(xs), |xs|);
    SquareSumSign(xs, Mean(xs), |xs|);
  }

  lemma QuotientSquares(a: real, b: real, c: real, k: real, a': real, b': real, c': real)
    requires k > 0.0 && a' == a / k && b' == b / k && c' == c / k
    ensures Square(c) <= Product(a, b) <==> Square(c') <= Product(a', b')
    ensures Square(c) == Product(a, b) <==> Square(c') == Product(a', b')
  {
    assert a == a' * k && b == b' * k && c == c' * k;
    hide Square, Product;
    SquareSign(k);
    SquareOfProduct(c', k, c);
    ProductScales(a', b', k, a, b);
    ScaleCompares(Square(c'), Product(a', b'), Square(k));
  }

  lemma ProductScales(a: real, b: real, k: real, a': real, b': real)
    requires a' == a * k && b' == b * k
    ensures Product(a', b') == Product(Product(a, b), Square(k))
  {
    assert (a * k) * (b * k) == (a * b) * (k * k);
  }

  lemma ScaleCompares(l: real, r: real, k: real)
    requires k > 0.0
    ensures l <= r <==> Product(l, k) <= Product(r, k)
    ensures l == r <==> Product(l, k) == Product(r, k)
  {
    SignOfProduct(r - l, k);
    assert (r - l) * k == r * k - l * k;
  }

  lemma SquareOfProduct(x: real, y: real, p: real)
    requires p == x * y
    ensures Square(p) == Product(Square(x), Square(y))
  {
    assert (x * y) * (x * y) == (x * x) * (y * y);
  }

  /**
   The squared covariance never exceeds the product of the variances, and equals it
   exactly when one of the samples is an affine function of the other.
   */
  lemma CovarianceBound(xs: Sample, ys: Sample)
    requires |xs| == |ys|
    ensures Square(Covariance(xs, ys)) <= Product(Variance(xs), Variance(ys))
    ensures Square(Covariance(xs, ys)) == Product(Variance(xs), Variance(ys)) <==> Affine(xs, ys) || Affine(ys, xs)
  {
    hide *;
    CovarianceTight(xs, ys);
    CovarianceTight(ys, xs);
    CovarianceCommutes(xs, ys);
    ProductCommutes(Variance(xs), Variance(ys));
    VarianceIsSelfCovariance(xs);
    VarianceIsSelfCovariance(ys);
  }

  lemma ProductCommutes(x: real, y: real)
    ensures Product(x, y) == Product(y, x)
  {
  }

  lemma CovarianceCommutes(xs: Sample, ys: Sample)
    requires |xs| == |ys|
    ensures Covariance(xs, ys) == Covariance(ys, xs)
  {
    CrossSumCommutes(xs, ys, Mean(xs), Mean(ys), |xs|);
  }

  lemma {:induction false} CrossSumCommutes(xs: seq<real>, ys: seq<real>, c: real, d: real, n: nat)
    requires n <= |xs| && n <= |ys|
    ensures CrossSum(xs, ys, c, d, n) == CrossSum(ys, xs, d, c, n)
  {
    if n == 0 {
    } else {
      CrossSumCommutes(xs, ys, c, d, n - 1);
    }
  }

  /** The bound seen from one sample: how it is met with and without spread in that sample. */
  lemma CovarianceTight(xs: Sample, ys: Sample)
    requires |xs| == |ys|
    ensures Square(Covariance(xs, ys)) <= Product(Variance(xs), Variance(ys))
    ensures Variance(xs) > 0.0 ==>
              (Square(Covariance(xs, ys)) == Product(Variance(xs), Variance(ys)) <==> Affine(xs, ys))
    ensures Variance(xs) == 0.0 ==>
              Square(Covariance(xs, ys)) == Product(Variance(xs), Variance(ys)) && Affine(ys, xs)
  {
    var n, c, d, k := |xs|, Mean(xs), Mean(ys), (|xs| - 1) as real;
    var xx, yy, xy := SquareSum(xs, c, n), SquareSum(ys, d, n), CrossSum(xs, ys, c, d, n);
    assert Variance(xs) == xx / k && Variance(ys) == yy / k && Covariance(xs, ys) == xy / k;
    CauchySchwarz(xs, ys, c, d, n);
    hide *;
    QuotientSquares(xx, yy, xy, k, Variance(xs), Variance(ys), Covariance(xs, ys));
    if Variance(xs) > 0.0 {
      SpreadPositive(xx, k);
      CauchySchwarzTight(xs, ys, c, d, n);
      AffineThroughMeans(xs, ys);
    } else if Variance(xs) == 0.0 {
      SquareSign(Covariance(xs, ys));
      ProductOfZero(Variance(ys));
      SpreadZero(xx, k);
      ConstantIsAffine(ys, xs, c);
    }
  }

  lemma SpreadZero(x: real, k: real)
    requires k > 0.0 && x / k == 0.0
    ensures x == 0.0
  {
    assert x == (x / k) * k;
  }

  lemma {:induction false} NoSpread(xs: seq<real>, c: real, n: nat)
    requires n <= |xs| && SquareSum(xs, c, n) == 0.0
    ensures forall i :: 0 <= i < n ==> xs[i] == c
  {
    if n == 0 {
    } else {
      SquareSumSign(xs, c, n - 1);
      SquareSign(xs[n - 1] - c);
      hide Square;
      NoSpread(xs, c, n - 1);
    }
  }

  /** A sample without spread is a constant, which is affine in every sample. */
  lemma ConstantIsAffine(ys: Sample, xs: Sample, c: real)
    requires |xs| == |ys| && SquareSum(xs, c, |xs|) == 0.0
    ensures Affine(ys, xs)
  {
    NoSpread(xs, c, |xs|);
    hide SquareSum;
    assert Line(ys, xs, 0.0, c, |xs|);
  }

  lemma SpreadPositive(x: real, k: real)
    requires k > 0.0 && x / k > 0.0
    ensures x > 0.0
  {
  }

  // ----- Affine samples -----

  /** The point (x, y) lies on the line with slope t and intercept b. */
  predicate LiesOn(x: real, y: real, t: real, b: real) {
    y == t * x + b
  }

  ghost predicate Line(xs: seq<real>, ys: seq<real>, t: real, b: real, n: nat)
    requires n <= |xs| && n <= |ys|
  {
    forall i :: 0 <= i < n ==> LiesOn(xs[i], ys[i], t, b)
  }

  /** The second sample is an affine function of the first. */
  ghost predicate Affine(xs: Sample, ys: Sample)
    requires |xs| == |ys|
  {
    exists t: real, b: real :: Line(xs, ys, t, b, |xs|)
  }

  lemma {:induction false} SumOfLine(xs: seq<real>, ys: seq<real>, t: real, b: real, n: nat)
    requires n <= |xs| && n <= |ys| && Line(xs, ys, t, b, n)
    ensures Sum(ys, n) == t * Sum(xs, n) + b * n as real
  {
    if n == 0 {
    } else {
      SumOfLine(xs, ys, t, b, n - 1);
      LineStep(t, Sum(xs, n - 1), xs[n - 1], b, (n - 1) as real, Sum(xs, n), n as real);
    }
  }

  lemma LineStep(t: real, s: real, x: real, b: real, k: real, s': real, k': real)
    requires s' == s + x && k' == k + 1.0
    ensures t * s + b * k + (t * x + b) == t * s' + b * k'
  {
  }

  lemma MeanOfLine(xs: Sample, ys: Sample, t: real, b: real)
    requires |xs| == |ys| && Line(xs, ys, t, b, |xs|)
    ensures LiesOn(Mean(xs), Mean(ys), t, b)
  {
    SumOfLine(xs, ys, t, b, |xs|);
    hide Sum;
    QuotientOfLine(t, Sum(xs, |xs|), b, |xs| as real, Sum(ys, |ys|));
  }

  lemma QuotientOfLine(t: real, s: real, b: real, k: real, s': real)
    requires k > 0.0 && s' == t * s + b * k
    ensures s' / k == t * (s / k) + b
  {
    var q := s / k;
    assert q * k == s;
    assert s' == (t * q + b) * k;
  }

  lemma LineMisses(x: real, y: real, c: real, d: real, t: real, b: real)
    requires LiesOn(c, d, t, b)
    ensures LiesOn(x, y, t, b) <==> Miss(x, y, c, d, t) == 0.0
  {
    assert t * (x - c) == t * x - t * c;
  }

  /** A line through every point passes through the means. */
  lemma LineThroughMeans(xs: Sample, ys: Sample, t: real, b: real)
    requires |xs| == |ys| && Line(xs, ys, t, b, |xs|)
    ensures OnLine(xs, ys, Mean(xs), Mean(ys), t, |xs|)
  {
    MeanOfLine(xs, ys, t, b);
    hide Miss, Mean, LiesOn;
    forall i | 0 <= i < |xs|
      ensures Miss(xs[i], ys[i], Mean(xs), Mean(ys), t) == 0.0
    {
      LineMisses(xs[i], ys[i], Mean(xs), Mean(ys), t, b);
    }
  }

  lemma LineExists(c: real, d: real, t: real) returns (b: real)
    ensures LiesOn(c, d, t, b)
  {
    b := d - t * c;
  }

  /** Points that miss no line through the means of slope t all lie on it. */
  lemma MeansGiveLine(xs: Sample, ys: Sample, t: real)
    requires |xs| == |ys| && OnLine(xs, ys, Mean(xs), Mean(ys), t, |xs|)
    ensures Affine(xs, ys)
  {
    hide Miss, Mean, LiesOn;
    var b := LineExists(Mean(xs), Mean(ys), t);
    forall i | 0 <= i < |xs|
      ensures LiesOn(xs[i], ys[i], t, b)
    {
      LineMisses(xs[i], ys[i], Mean(xs), Mean(ys), t, b);
    }
    assert Line(xs, ys, t, b, |xs|);
  }

  lemma AffineThroughMeans(xs: Sample, ys: Sample)
    requires |xs| == |ys|
    ensures Affine(xs, ys) <==> exists t: real :: OnLine(xs, ys, Mean(xs), Mean(ys), t, |xs|)
  {
    hide Line, OnLine, Mean;
    if Affine(xs, ys) {
      var t, b :| Line(xs, ys, t, b, |xs|);
      LineThroughMeans(xs, ys, t, b);
    }
    if t: real :| OnLine(xs, ys, Mean(xs), Mean(ys), t, |xs|) {
      MeansGiveLine(xs, ys, t);
    }
  }

  // ----- Correlation -----

  lemma RootPositive(x: real, sqrt: real -> real)
    requires IsSquareRoot(sqrt) && x >= 0.0 && sqrt(x) != 0.0
    ensures sqrt(x) > 0.0 && Square(sqrt(x)) == x > 0.0
  {
    SquareSign(sqrt(x));
  }

  lemma RatioInRange(c: real, sx: real, sy: real, p: real, r: real)
    requires sx > 0.0 && sy > 0.0 && p == sx * sy && p != 0.0 && r == c / p
    requires Square(c) <= Product(Square(sx), Square(sy))
    ensures -1.0 <= r <= 1.0
    ensures r == 1.0 || r == -1.0 <==> Square(c) == Product(Square(sx), Square(sy))
  {
    assert r * p == c;
    hide Square, Product;
    SquareOfProduct(sx, sy, p);
    SquareOfProduct(r, p, c);
    SquareSign(p);
    UnitSquare(r, Square(p));
  }

  lemma UnitSquare(r: real, q: real)
    requires q > 0.0 && Product(Square(r), q) <= q
    ensures -1.0 <= r <= 1.0
    ensures r == 1.0 || r == -1.0 <==> Product(Square(r), q) == q
  {
    var x, y, s := 1.0 - r, 1.0 + r, Square(r);
    assert x * y == 1.0 - s;
    assert (1.0 - s) * q == q - s * q;
    SignOfProduct(1.0 - s, q);
    UnitFactors(x, y);
  }

  lemma UnitFactors(x: real, y: real)
    requires x + y == 2.0 && x * y >= 0.0
    ensures x >= 0.0 && y >= 0.0
    ensures x == 0.0 || y == 0.0 <==> x * y == 0.0
  {
    if x != 0.0 && y != 0.0 {
      ProductNonZero(x, y);
    }
  }

  /**
   Whenever both deviations are non-zero the correlation lies in [-1, 1], and it
   is an end of that range exactly when one sample is affine in the other.
   */
  lemma CorrelationInRange(xs: Sample, ys: Sample, sqrt: real -> real)
    requires |xs| == |ys| && IsSquareRoot(sqrt)
    requires StdDev(xs, sqrt) != 0.0 && StdDev(ys, sqrt) != 0.0
    ensures -1.0 <= Correlation(xs, ys, sqrt) <= 1.0
    ensures Correlation(xs, ys, sqrt) in {-1.0, 1.0} <==> Affine(xs, ys)
  {
    hide Variance, Covariance, Affine, Square, Product, IsSquareRoot;
    VarianceIsSelfCovariance(xs);
    VarianceIsSelfCovariance(ys);
    CovarianceTight(xs, ys);
    RootPositive(Variance(xs), sqrt);
    RootPositive(Variance(ys), sqrt);
    var sx, sy := StdDev(xs, sqrt), StdDev(ys, sqrt);
    ProductNonZero(sx, sy);
    RatioInRange(Covariance(xs, ys), sx, sy, sx * sy, Correlation(xs, ys, sqrt));
  }

  // ----- Laws that fix the divisor and the sign -----

  /** Products of the differences between one value and the first n. */
  function PairRow(xs: seq<real>, ys: seq<real>, i: nat, n: nat): real
    requires i < |xs| == |ys| && n <= |xs|
  {
    if n == 0 then 0.0 else PairRow(xs, ys, i, n - 1) + Product(xs[i] - xs[n - 1], ys[i] - ys[n - 1])
  }

  /** The same over the first m values. */
  function PairSum(xs: seq<real>, ys: seq<real>, m: nat): real
    requires |xs| == |ys| && m <= |xs|
  {
    if m == 0 then 0.0 else PairSum(xs, ys, m - 1) + PairRow(xs, ys, m - 1, |xs|)
  }

  /** Sum of the first n products. */
  function DotSum(xs: seq<real>, ys: seq<real>, n: nat): real
    requires n <= |xs| && n <= |ys|
  {
    if n == 0 then 0.0 else DotSum(xs, ys, n - 1) + Product(xs[n - 1], ys[n - 1])
  }

  lemma PairTerm(x: real, y: real, u: real, v: real)
    ensures Product(x - u, y - v) == Product(x, y) - Product(x, v) - Product(y, u) + Product(u, v)
  {
  }

  lemma {:induction false} PairRowExpands(xs: seq<real>, ys: seq<real>, i: nat, n: nat)
    requires i < |xs| == |ys| && n <= |xs|
    ensures PairRow(xs, ys, i, n)
         == Product(n as real, Product(xs[i], ys[i])) - Product(xs[i], Sum(ys, n)) - Product(ys[i], Sum(xs, n))
            + DotSum(xs, ys, n)
  {
    if n == 0 {
      ProductOfZero(Product(xs[i], ys[i]));
      ProductOfZero(xs[i]);
      ProductOfZero(ys[i]);
    } else {
      PairRowExpands(xs, ys, i, n - 1);
      PairTerm(xs[i], ys[i], xs[n - 1], ys[n - 1]);
      ProductDistributes((n - 1) as real, 1.0, Product(xs[i], ys[i]));
      ProductOfOne(Product(xs[i], ys[i]));
      ProductDistributes(Sum(ys, n - 1), ys[n - 1], xs[i]);
      ProductDistributes(Sum(xs, n - 1), xs[n - 1], ys[i]);
      hide Product;
    }
  }

  lemma {:induction false} PairSumExpands(xs: seq<real>, ys: seq<real>, m: nat)
    requires |xs| == |ys| && m <= |xs|
    ensures PairSum(xs, ys, m)
         == Product(|xs| as real, DotSum(xs, ys, m)) - Product(Sum(xs, m), Sum(ys, |xs|)) - Product(Sum(ys, m), Sum(xs, |xs|))
            + Product(m as real, DotSum(xs, ys, |xs|))
  {
    var n := |xs|;
    if m == 0 {
      ProductOfZero(n as real);
      ProductOfZero(Sum(ys, n));
      ProductOfZero(Sum(xs, n));
      ProductOfZero(DotSum(xs, ys, n));
    } else {
      PairSumExpands(xs, ys, m - 1);
      PairRowExpands(xs, ys, m - 1, n);
      ProductDistributes(DotSum(xs, ys, m - 1), Product(xs[m - 1], ys[m - 1]), n as real);
      ProductDistributes(Sum(xs, m - 1), xs[m - 1], Sum(ys, n));
      ProductDistributes(Sum(ys, m - 1), ys[m - 1], Sum(xs, n));
      ProductDistributes((m - 1) as real, 1.0, DotSum(xs, ys, n));
      ProductOfOne(DotSum(xs, ys, n));
      hide Product, PairRow;
    }
  }

  lemma {:induction false} CrossSumExpands(xs: seq<real>, ys: seq<real>, c: real, d: real, n: nat)
    requires n <= |xs| && n <= |ys|
    ensures CrossSum(xs, ys, c, d, n)
         == DotSum(xs, ys, n) - Product(d, Sum(xs, n)) - Product(c, Sum(ys, n)) + Product(n as real, Product(c, d))
  {
    if n == 0 {
      ProductOfZero(c);
      ProductOfZero(d);
      ProductOfZero(Product(c, d));
    } else {
      CrossSumExpands(xs, ys, c, d, n - 1);
      PairTerm(xs[n - 1], ys[n - 1], c, d);
      ProductDistributes(Sum(xs, n - 1), xs[n - 1], d);
      ProductDistributes(Sum(ys, n - 1), ys[n - 1], c);
      ProductDistributes((n - 1) as real, 1.0, Product(c, d));
      ProductOfOne(Product(c, d));
      LastCross(xs, ys, c, d, n);
      hide Product, CrossSum;
    }
  }

  lemma LastCross(xs: seq<real>, ys: seq<real>, c: real, d: real, n: nat)
    requires 0 < n <= |xs| && n <= |ys|
    ensures CrossSum(xs, ys, c, d, n) == CrossSum(xs, ys, c, d, n - 1) + Product(xs[n - 1] - c, ys[n - 1] - d)
  {
  }

  /** Covariance from sums of n values: n (n - 1) times it is n times the sum of products less the product of the sums. */
  lemma ScaledCovariance(xs: Sample, ys: Sample)
    requires |xs| == |ys|
    ensures var n := |xs|;
            Product(n as real, Product((n - 1) as real, Covariance(xs, ys)))
              == Product(n as real, DotSum(xs, ys, n)) - Product(Sum(xs, n), Sum(ys, n))
  {
    var n, c, d := |xs|, Mean(xs), Mean(ys);
    CrossSumExpands(xs, ys, c, d, n);
    QuotientTimes(CrossSum(xs, ys, c, d, n), (n - 1) as real);
    QuotientTimes(Sum(xs, n), n as real);
    QuotientTimes(Sum(ys, n), n as real);
    assert Covariance(xs, ys) == CrossSum(xs, ys, c, d, n) / (n - 1) as real;
    hide Sum, CrossSum, DotSum;
    ScaledAlgebra(n as real, c, d, Sum(xs, n), Sum(ys, n), DotSum(xs, ys, n), CrossSum(xs, ys, c, d, n));
    assert Product((n - 1) as real, Covariance(xs, ys)) == CrossSum(xs, ys, c, d, n);
  }

  lemma ScaledAlgebra(n: real, c: real, d: real, sx: real, sy: real, dot: real, cross: real)
    requires Product(c, n) == sx && Product(d, n) == sy
    requires cross == dot - Product(d, sx) - Product(c, sy) + Product(n, Product(c, d))
    ensures Product(n, cross) == Product(n, dot) - Product(sx, sy)
  {
    assert sx == c * n && sy == d * n;
    assert n * (d * sx) == sx * sy && n * (c * sy) == sx * sy && n * (n * (c * d)) == sx * sy;
  }

  /**
   The products of differences over all ordered pairs of a sample of n add up to
   2 n (n - 1) times the covariance, and for one sample to that of the variance.
   */
  lemma PairsMeasureCovariance(xs: Sample, ys: Sample)
    requires |xs| == |ys|
    ensures var n := |xs| as real;
            PairSum(xs, ys, |xs|) == Product(2.0, Product(n, Product(n - 1.0, Covariance(xs, ys))))
    ensures var n := |xs| as real;
            PairSum(xs, xs, |xs|) == Product(2.0, Product(n, Product(n - 1.0, Variance(xs))))
  {
    VarianceIsSelfCovariance(xs);
    hide Variance, Covariance, DotSum, PairSum, Sum;
    PairsMeasureOne(xs, ys);
    PairsMeasureOne(xs, xs);
  }

  lemma PairsMeasureOne(xs: Sample, ys: Sample)
    requires |xs| == |ys|
    ensures var n := |xs| as real;
            PairSum(xs, ys, |xs|) == Product(2.0, Product(n, Product(n - 1.0, Covariance(xs, ys))))
  {
    hide Covariance, DotSum, PairSum, Sum;
    PairSumExpands(xs, ys, |xs|);
    ScaledCovariance(xs, ys);
    ProductCommutes(Sum(xs, |xs|), Sum(ys, |xs|));
    assert (|xs| - 1) as real == |xs| as real - 1.0;
  }

  lemma ScaleBack(c: real, p: real, r: real)
    requires p != 0.0 && r == c / p
    ensures r * p == c
  {
  }

  /** The size of a correlation: its square times both variances is the squared covariance. */
  lemma CorrelationSquared(xs: Sample, ys: Sample, sqrt: real -> real)
    requires |xs| == |ys| && IsSquareRoot(sqrt)
    requires StdDev(xs, sqrt) != 0.0 && StdDev(ys, sqrt) != 0.0
    ensures Product(Square(Correlation(xs, ys, sqrt)), Product(Variance(xs), Variance(ys))) == Square(Covariance(xs, ys))
  {
    VarianceIsSelfCovariance(xs);
    VarianceIsSelfCovariance(ys);
    hide Variance, Covariance, IsSquareRoot, Square, Product;
    RootPositive(Variance(xs), sqrt);
    RootPositive(Variance(ys), sqrt);
    var sx, sy, c := StdDev(xs, sqrt), StdDev(ys, sqrt), Covariance(xs, ys);
    ProductNonZero(sx, sy);
    SquareOfProduct(sx, sy, sx * sy);
    var p, r := sx * sy, Correlation(xs, ys, sqrt);
    ScaleBack(c, p, r);
    SquareOfProduct(r, p, c);
  }

  /** A sample is fully correlated with itself. */
  lemma CorrelationWithItself(xs: Sample, sqrt: real -> real)
    requires IsSquareRoot(sqrt) && StdDev(xs, sqrt) != 0.0
    ensures Correlation(xs, xs, sqrt) == 1.0
  {
    VarianceIsSelfCovariance(xs);
    hide Variance, Covariance, Square;
    RootPositive(Variance(xs), sqrt);
    var s := StdDev(xs, sqrt);
    assert s == sqrt(Variance(xs));
    OwnQuotient(Variance(xs), s * s);
  }

  lemma OwnQuotient(x: real, y: real)
    requires x == y != 0.0
    ensures x / y == 1.0
  {
  }

  /** The correlation has the sign of the covariance. */
  lemma CorrelationSign(xs: Sample, ys: Sample, sqrt: real -> real)
    requires |xs| == |ys| && IsSquareRoot(sqrt)
    requires StdDev(xs, sqrt) != 0.0 && StdDev(ys, sqrt) != 0.0
    ensures Correlation(xs, ys, sqrt) > 0.0 <==> Covariance(xs, ys) > 0.0
  {
    VarianceIsSelfCovariance(xs);
    VarianceIsSelfCovariance(ys);
    hide Variance, Covariance, IsSquareRoot;
    RootPositive(Variance(xs), sqrt);
    RootPositive(Variance(ys), sqrt);
    ProductPositive(StdDev(xs, sqrt), StdDev(ys, sqrt));
    QuotientSign(Covariance(xs, ys), StdDev(xs, sqrt) * StdDev(ys, sqrt));
  }

  lemma QuotientSign(x: real, y: real)
    requires y > 0.0
    ensures x / y > 0.0 <==> x > 0.0
  {
    assert Product(x / y, y) == x;
    if x / y > 0.0 {
      ProductPositive(x / y, y);
    } else {
      ProductNonNegative(-(x / y), y);
      ProductNegates(x / y, y);
    }
  }
}
