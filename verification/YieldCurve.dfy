/**
 Bootstrapping a zero curve from par swap rates, and reading par rates back.

 `exp` and `ln` are parameters: any pair of functions with exp positive and each
 undoing the other. A curve is its list of points.
 */
module YieldCurve {
  import opened Arithmetic
  import opened Wrappers

  datatype CurvePoint = CurvePoint(tenor: real, zeroRate: real)

  datatype SwapRate = SwapRate(tenor: real, rate: real, frequency: real)

  ghost predicate AreExpAndLn(exp: real -> real, ln: real -> real) {
    && (forall x :: exp(x) > 0.0)
    && forall y :: y > 0.0 ==> exp(ln(y)) == y
  }

  function DiscountFactor(exp: real -> real, rate: real, years: real): real {
    exp(-Product(rate, years))
  }

  function Lerp(x0: real, y0: real, x1: real, y1: real, x: real): real {
    if x1 == x0 then y0 else y0 + Product(y1 - y0, x - x0) / (x1 - x0)
  }

  // ----- Sorting by tenor -----

  function Insert<T>(x: T, sorted: seq<T>, key: T -> real): seq<T> {
    if sorted == [] then [x]
    else if key(x) <= key(sorted[0]) then [x] + sorted
    else [sorted[0]] + Insert(x, sorted[1..], key)
  }

  /** Stable ascending sort. */
  function SortBy<T>(xs: seq<T>, key: T -> real): seq<T> {
    if xs == [] then [] else Insert(xs[0], SortBy(xs[1..], key), key)
  }

  ghost predicate SortedBy<T>(xs: seq<T>, key: T -> real) {
    forall i, j :: 0 <= i < j < |xs| ==> key(xs[i]) <= key(xs[j])
  }

  lemma {:induction false} InsertPermutes<T>(x: T, sorted: seq<T>, key: T -> real)
    ensures multiset(Insert(x, sorted, key)) == multiset{x} + multiset(sorted)
  {
    if sorted == [] {
    } else {
      assert sorted == [sorted[0]] + sorted[1..];
      if key(x) > key(sorted[0]) {
        InsertPermutes(x, sorted[1..], key);
      }
    }
  }

  lemma {:induction false} InsertSorted<T>(x: T, sorted: seq<T>, key: T -> real)
    requires SortedBy(sorted, key)
    ensures SortedBy(Insert(x, sorted, key), key)
  {
    if sorted != [] && key(x) > key(sorted[0]) {
      var head, rest := sorted[0], sorted[1..];
      InsertSorted(x, rest, key);
      InsertPermutes(x, rest, key);
      var r := Insert(x, rest, key);
      forall i | 0 <= i < |r|
        ensures key(head) <= key(r[i])
      {
        assert r[i] in multiset(r);
        assert r[i] == x || r[i] in rest;
      }
    }
  }

  lemma {:induction false} SortBySorts<T>(xs: seq<T>, key: T -> real)
    ensures SortedBy(SortBy(xs, key), key)
    ensures multiset(SortBy(xs, key)) == multiset(xs)
  {
    if xs == [] {
    } else {
      SortBySorts(xs[1..], key);
      InsertSorted(xs[0], SortBy(xs[1..], key), key);
      InsertPermutes(xs[0], SortBy(xs[1..], key), key);
      assert xs == [xs[0]] + xs[1..];
    }
  }

  lemma {:induction false} SortedUnchanged<T>(xs: seq<T>, key: T -> real)
    requires SortedBy(xs, key)
    ensures SortBy(xs, key) == xs
  {
    if xs == [] {
    } else {
      SortedUnchanged(xs[1..], key);
    }
  }

  // ----- Interpolation -----

  /** First i at or after `at` whose successor is not before the tenor. */
  function Segment(points: seq<CurvePoint>, tenor: real, at: nat): (i: nat)
    requires at < |points|
    ensures at <= i < |points|
    ensures i == |points| - 1 || points[i + 1].tenor >= tenor
    ensures forall j :: at < j <= i ==> points[j].tenor < tenor
    decreases |points| - at
  {
    if at < |points| - 1 && points[at + 1].tenor < tenor then Segment(points, tenor, at + 1) else at
  }

  /** Zero rate at a tenor: flat outside the curve, linear between two points. */
  function ZeroRate(points: seq<CurvePoint>, tenor: real): real
    requires points != []
  {
    var last := |points| - 1;
    if tenor <= points[0].tenor then points[0].zeroRate
    else if tenor >= points[last].tenor then points[last].zeroRate
    else
      var i := Segment(points, tenor, 0);
      Lerp(points[i].tenor, points[i].zeroRate, points[i + 1].tenor, points[i + 1].zeroRate, tenor)
  }

  method GetZeroRate(points: seq<CurvePoint>, tenor: real) returns (r: Option<real>)
    ensures r == if points == [] then None else Some(ZeroRate(points, tenor))
  {
    if points == [] {
      return None;
    }
    if tenor <= points[0].tenor {
      return Some(points[0].zeroRate);
    }
    if tenor >= points[|points| - 1].tenor {
      return Some(points[|points| - 1].zeroRate);
    }
    var i := 0;
    while i < |points| - 1 && points[i + 1].tenor < tenor
      invariant i < |points| && Segment(points, tenor, i) == Segment(points, tenor, 0)
    {
      i := i + 1;
    }
    return Some(Lerp(points[i].tenor, points[i].zeroRate, points[i + 1].tenor, points[i + 1].zeroRate, tenor));
  }

  function Discount(points: seq<CurvePoint>, exp: real -> real, tenor: real): real
    requires points != []
  {
    DiscountFactor(exp, ZeroRate(points, tenor), tenor)
  }

  ghost predicate Increasing(points: seq<CurvePoint>) {
    forall i, j :: 0 <= i < j < |points| ==> points[i].tenor < points[j].tenor
  }

  lemma LerpAtRight(x0: real, y0: real, x1: real, y1: real)
    requires x0 != x1
    ensures Lerp(x0, y0, x1, y1, x1) == y1
  {
  }

  /** Interpolation is exact at every point of a strictly increasing curve. */
  lemma ExactAtKnots(points: seq<CurvePoint>, k: nat)
    requires Increasing(points) && k < |points|
    ensures ZeroRate(points, points[k].tenor) == points[k].zeroRate
  {
    hide Lerp;
    if 0 < k < |points| - 1 {
      var i := Segment(points, points[k].tenor, 0);
      assert points[i + 1].tenor >= points[k].tenor && i + 1 == k;
      LerpAtRight(points[i].tenor, points[i].zeroRate, points[k].tenor, points[k].zeroRate);
    }
  }

  // ----- Log-linear interpolation -----

  lemma LerpAtLeft(x0: real, y0: real, x1: real, y1: real)
    ensures Lerp(x0, y0, x1, y1, x0) == y0
  {
  }

  /** Between two neighbouring points the rate is interpolated from those two. */
  lemma RateOnSegment(points: seq<CurvePoint>, i: nat, tenor: real)
    requires Increasing(points) && i + 1 < |points| && points[i].tenor <= tenor <= points[i + 1].tenor
    ensures var p, q := points[i], points[i + 1];
            ZeroRate(points, tenor) == Lerp(p.tenor, p.zeroRate, q.tenor, q.zeroRate, tenor)
  {
    hide Lerp;
    var p, q := points[i], points[i + 1];
    if tenor == p.tenor {
      ExactAtKnots(points, i);
      LerpAtLeft(p.tenor, p.zeroRate, q.tenor, q.zeroRate);
    } else if tenor == q.tenor {
      ExactAtKnots(points, i + 1);
      LerpAtRight(p.tenor, p.zeroRate, q.tenor, q.zeroRate);
    } else {
      assert points[0].tenor <= p.tenor && q.tenor <= points[|points| - 1].tenor;
      var at := Segment(points, tenor, 0);
      assert at + 1 >= i + 1;
      assert at <= i;
    }
  }

  /** How far the exponent of a linear rate is from the linear exponent. */
  function Bend(x0: real, y0: real, x1: real, y1: real, x: real): real
    requires x0 != x1
  {
    Product(y1 - y0, Product(x - x0, x - x1)) / (x1 - x0)
  }

  lemma BendIsDifference(x0: real, y0: real, x1: real, y1: real, x: real)
    requires x0 < x1
    ensures Product(Lerp(x0, y0, x1, y1, x), x) - Lerp(x0, Product(y0, x0), x1, Product(y1, x1), x)
         == Bend(x0, y0, x1, y1, x)
  {
    var w := (x - x0) / (x1 - x0);
    BendOfWeight(x0, y0, x1, y1, x, w);
    WeightOfLerp(x0, y0, x1, y1, x, w);
    WeightOfLerp(x0, Product(y0, x0), x1, Product(y1, x1), x, w);
    hide Lerp, Bend;
    BendAlgebra(x0, y0, x1, y1, x, w);
  }

  lemma BendOfWeight(x0: real, y0: real, x1: real, y1: real, x: real, w: real)
    requires x0 < x1 && w == (x - x0) / (x1 - x0)
    ensures x - x0 == w * (x1 - x0)
    ensures Bend(x0, y0, x1, y1, x) == w * ((y1 - y0) * (x - x1))
  {
    var h, z := x1 - x0, w * ((y1 - y0) * (x - x1));
    assert x - x0 == w * h;
    BendScaled(y1 - y0, x - x0, x - x1, w, h);
    hide Product;
    QuotientUnique(Product(y1 - y0, Product(x - x0, x - x1)), h, z);
  }

  lemma BendScaled(dy: real, a: real, b: real, w: real, h: real)
    requires a == w * h
    ensures Product(dy, Product(a, b)) == (w * (dy * b)) * h
  {
    assert dy * (a * b) == dy * b * (w * h);
  }

  lemma WeightOfLerp(x0: real, y0: real, x1: real, y1: real, x: real, w: real)
    requires x0 < x1 && x - x0 == w * (x1 - x0)
    ensures Lerp(x0, y0, x1, y1, x) == y0 + (y1 - y0) * w
  {
    assert (y1 - y0) * (x - x0) == ((y1 - y0) * w) * (x1 - x0);
  }

  lemma BendAlgebra(x0: real, y0: real, x1: real, y1: real, x: real, w: real)
    requires x - x0 == w * (x1 - x0)
    ensures (y0 + (y1 - y0) * w) * x - (y0 * x0 + (y1 * x1 - y0 * x0) * w) == w * ((y1 - y0) * (x - x1))
  {
    assert y0 * (x - x0) == y0 * w * x1 - y0 * w * x0;
    assert (y0 + (y1 - y0) * w) * x == y0 * x + (y1 - y0) * w * x;
  }

  lemma BendVanishes(x0: real, y0: real, x1: real, y1: real, x: real)
    requires x0 < x1
    ensures Bend(x0, y0, x1, y1, x) == 0.0 <==> y0 == y1 || x == x0 || x == x1
  {
    var inner := Product(x - x0, x - x1);
    QuotientVanishes(Product(y1 - y0, inner), x1 - x0);
    ProductVanishes(y1 - y0, inner);
    ProductVanishes(x - x0, x - x1);
    hide Product;
  }

  lemma QuotientVanishes(x: real, y: real)
    requires y > 0.0
    ensures x / y == 0.0 <==> x == 0.0
  {
    assert x == (x / y) * y;
  }

  /** The logarithm and the exponential undo each other both ways. */
  ghost predicate AreInverse(exp: real -> real, ln: real -> real) {
    AreExpAndLn(exp, ln) && forall x :: ln(exp(x)) == x
  }

  lemma LogOfDiscount(points: seq<CurvePoint>, exp: real -> real, ln: real -> real, tenor: real)
    requires points != [] && AreInverse(exp, ln)
    ensures ln(Discount(points, exp, tenor)) == -Product(ZeroRate(points, tenor), tenor)
  {
    hide ZeroRate, Product;
  }

  lemma LerpNegates(x0: real, y0: real, x1: real, y1: real, x: real)
    ensures Lerp(x0, -y0, x1, -y1, x) == -Lerp(x0, y0, x1, y1, x)
  {
    if x1 != x0 {
      ProductNegates(y1 - y0, x - x0);
      hide Product;
      NegatedQuotient(Product(y1 - y0, x - x0), x1 - x0);
    }
  }

  lemma NegatedQuotient(x: real, y: real)
    requires y != 0.0
    ensures (-x) / y == -(x / y)
  {
  }

  /**
   The discount factors of an increasing curve are interpolated log-linearly exactly at
   its points and between points of equal rates; elsewhere the rate is linear instead.
   */
  lemma LogLinearExactly(points: seq<CurvePoint>, exp: real -> real, ln: real -> real, i: nat, tenor: real)
    requires AreInverse(exp, ln) && Increasing(points)
    requires i + 1 < |points| && points[i].tenor <= tenor <= points[i + 1].tenor
    ensures var p, q := points[i], points[i + 1];
            ln(Discount(points, exp, tenor))
              == Lerp(p.tenor, ln(Discount(points, exp, p.tenor)), q.tenor, ln(Discount(points, exp, q.tenor)), tenor)
            <==> p.zeroRate == q.zeroRate || tenor == p.tenor || tenor == q.tenor
  {
    var p, q := points[i], points[i + 1];
    RateOnSegment(points, i, tenor);
    ExactAtKnots(points, i);
    ExactAtKnots(points, i + 1);
    hide Lerp, Product, ZeroRate, Discount, Bend;
    LogOfDiscount(points, exp, ln, tenor);
    LogOfDiscount(points, exp, ln, p.tenor);
    LogOfDiscount(points, exp, ln, q.tenor);
    LerpNegates(p.tenor, Product(p.zeroRate, p.tenor), q.tenor, Product(q.zeroRate, q.tenor), tenor);
    BendIsDifference(p.tenor, p.zeroRate, q.tenor, q.zeroRate, tenor);
    BendVanishes(p.tenor, p.zeroRate, q.tenor, q.zeroRate, tenor);
  }

  /**
   Between 1% at one year and 3% at two, the discount factor half-way is exp(-0.03),
   and not the log-linear exp(-0.035).
   */
  lemma NotLogLinear(exp: real -> real, ln: real -> real)
    requires AreInverse(exp, ln)
    ensures var curve := [CurvePoint(1.0, 0.01), CurvePoint(2.0, 0.03)];
            && ln(Discount(curve, exp, 1.5)) == -0.03
            && Lerp(1.0, ln(Discount(curve, exp, 1.0)), 2.0, ln(Discount(curve, exp, 2.0)), 1.5) == -0.035
  {
    var curve := [CurvePoint(1.0, 0.01), CurvePoint(2.0, 0.03)];
    RateOnSegment(curve, 0, 1.5);
    ExactAtKnots(curve, 0);
    ExactAtKnots(curve, 1);
    hide ZeroRate, Discount;
    LogOfDiscount(curve, exp, ln, 1.5);
    LogOfDiscount(curve, exp, ln, 1.0);
    LogOfDiscount(curve, exp, ln, 2.0);
  }

  // ----- Coupon dates -----

  /** How many dates t, t + dt, ... are not after the limit. */
  function DatesLeft(dt: real, limit: real, t: real): nat
    requires dt > 0.0
  {
    if t > limit then 0 else
    FloorNonNegative(limit - t, dt);
    ((limit - t) / dt).Floor + 1
  }

  lemma FloorNonNegative(x: real, dt: real)
    requires dt > 0.0 && x >= 0.0
    ensures (x / dt).Floor >= 0
  {
  }

  lemma DatesLeftShrinks(dt: real, limit: real, t: real)
    requires dt > 0.0 && t <= limit
    ensures DatesLeft(dt, limit, t + dt) < DatesLeft(dt, limit, t)
  {
    var q := (limit - t) / dt;
    assert q * dt == limit - t;
    assert (q - 1.0) * dt == limit - (t + dt);
    QuotientUnique(limit - (t + dt), dt, q - 1.0);
  }

  lemma QuotientUnique(x: real, y: real, q: real)
    requires y > 0.0 && x == q * y
    ensures x / y == q
  {
    var z := x / y;
    assert z * y == x;
    assert (z - q) * y == 0.0;
  }

  /** The dates t, t + dt, ... up to the limit. */
  function Coupons(dt: real, limit: real, t: real): seq<real>
    requires dt > 0.0
    decreases DatesLeft(dt, limit, t)
  {
    if t > limit then [] else
    DatesLeftShrinks(dt, limit, t);
    [t] + Coupons(dt, limit, t + dt)
  }

  method CouponDates(dt: real, limit: real) returns (dates: seq<real>)
    requires dt > 0.0
    ensures dates == Coupons(dt, limit, dt)
  {
    dates := [];
    var t := dt;
    while t <= limit
      invariant dates + Coupons(dt, limit, t) == Coupons(dt, limit, dt)
      decreases DatesLeft(dt, limit, t)
    {
      DatesLeftShrinks(dt, limit, t);
      dates := dates + [t];
      t := t + dt;
    }
  }

  // ----- Bootstrapping -----

  function TenorOf(): CurvePoint -> real {
    (p: CurvePoint) => p.tenor
  }

  function SwapTenor(): SwapRate -> real {
    (s: SwapRate) => s.tenor
  }

  /** Discount factor between curve points while the curve is being built. */
  function InterpolatedDf(points: seq<CurvePoint>, exp: real -> real, tenor: real): real {
    var sorted := SortBy(points, TenorOf());
    if sorted == [] then 1.0 else Discount(sorted, exp, tenor)
  }

  /** Present value of the coupons of rate `rate` at the given dates. */
  function CouponValue(points: seq<CurvePoint>, exp: real -> real, dates: seq<real>, rate: real, dt: real): real {
    if dates == [] then 0.0 else
    var last := |dates| - 1;
    CouponValue(points, exp, dates[..last], rate, dt) + Product(InterpolatedDf(points, exp, dates[last]), Product(rate, dt))
  }

  /** Years between coupons. */
  function Period(frequency: real): real
    requires frequency > 0.0
  {
    1.0 / frequency
  }

  lemma PeriodPositive(frequency: real)
    requires frequency > 0.0
    ensures Period(frequency) > 0.0
  {
  }

  /** A swap for which the solved factor is a number. */
  predicate Quoted(s: SwapRate) {
    s.frequency > 0.0 && s.tenor > 0.0 && 1.0 + Product(s.rate, Period(s.frequency)) != 0.0
  }

  predicate AllQuoted(swaps: seq<SwapRate>) {
    forall s :: s in swaps ==> Quoted(s)
  }

  /** Factor that is worth par with coupons of the given value and a last coupon c. */
  function SolvedFactor(coupons: real, c: real): real
    requires 1.0 + c != 0.0
  {
    (1.0 - coupons) / (1.0 + c)
  }

  /** Continuously compounded zero rate of a discount factor. */
  function ContinuousRate(ln: real -> real, df: real, tenor: real): real
    requires tenor > 0.0
  {
    -ln(df) / tenor
  }

  /** Discount factor at the maturity of a swap that makes it worth par. */
  function FinalDf(points: seq<CurvePoint>, exp: real -> real, s: SwapRate): real
    requires Quoted(s)
  {
    PeriodPositive(s.frequency);
    var dt := Period(s.frequency);
    var dates := Coupons(dt, s.tenor - dt / 2.0, dt);
    SolvedFactor(CouponValue(points, exp, dates, s.rate, dt), Product(s.rate, dt))
  }

  function NextPoint(points: seq<CurvePoint>, exp: real -> real, ln: real -> real, s: SwapRate): CurvePoint
    requires Quoted(s)
  {
    CurvePoint(s.tenor, ContinuousRate(ln, FinalDf(points, exp, s), s.tenor))
  }

  function Points(swaps: seq<SwapRate>, exp: real -> real, ln: real -> real): (points: seq<CurvePoint>)
    requires AllQuoted(swaps)
    ensures |points| == |swaps|
  {
    if swaps == [] then [] else
    var points := Points(swaps[..|swaps| - 1], exp, ln);
    points + [NextPoint(points, exp, ln, swaps[|swaps| - 1])]
  }

  /** A curve that starts late gets a first point at 0.0001 years with its first rate. */
  function WithOvernight(points: seq<CurvePoint>): seq<CurvePoint> {
    if |points| > 0 && points[0].tenor > 0.1 then [CurvePoint(0.0001, points[0].zeroRate)] + points else points
  }

  function Bootstrapped(swaps: seq<SwapRate>, exp: real -> real, ln: real -> real): seq<CurvePoint>
    requires AllQuoted(swaps)
  {
    SortKeeps(swaps);
    SortBy(WithOvernight(Points(SortBy(swaps, SwapTenor()), exp, ln)), TenorOf())
  }

  lemma SortKeeps(swaps: seq<SwapRate>)
    ensures forall s :: s in SortBy(swaps, SwapTenor()) <==> s in swaps
  {
    SortBySorts(swaps, SwapTenor());
    forall s
      ensures s in SortBy(swaps, SwapTenor()) <==> s in swaps
    {
      assert s in multiset(SortBy(swaps, SwapTenor())) <==> s in multiset(swaps);
    }
  }

  method InterpolateDiscountFactor(points: seq<CurvePoint>, exp: real -> real, tenor: real) returns (df: real)
    ensures df == InterpolatedDf(points, exp, tenor)
  {
    var sorted := SortBy(points, TenorOf());
    var rate := GetZeroRate(sorted, tenor);
    df := if rate.None? then 1.0 else DiscountFactor(exp, rate.value, tenor);
  }

  method BootstrapFromSwapRates(
    swaps: seq<SwapRate>, exp: real -> real, ln: real -> real) returns (curve: seq<CurvePoint>)
    requires AllQuoted(swaps)
    ensures curve == Bootstrapped(swaps, exp, ln)
  {
    SortKeeps(swaps);
    var sorted := SortBy(swaps, SwapTenor());
    var points: seq<CurvePoint> := [];
    for k := 0 to |sorted|
      invariant points == Points(sorted[..k], exp, ln)
    {
      assert sorted[..k + 1][..k] == sorted[..k];
      var swap := sorted[k];
      assert Quoted(swap);
      hide FinalDf, ContinuousRate;
      var df := SolveFinalDf(points, exp, swap);
      points := points + [CurvePoint(swap.tenor, ContinuousRate(ln, df, swap.tenor))];
    }
    assert sorted[..|sorted|] == sorted;
    if |points| > 0 && points[0].tenor > 0.1 {
      points := [CurvePoint(0.0001, points[0].zeroRate)] + points;
    }
    curve := SortBy(points, TenorOf());
  }

  /** The inner loop: discounts the coupons before maturity and solves for the last factor. */
  method SolveFinalDf(points: seq<CurvePoint>, exp: real -> real, swap: SwapRate) returns (df: real)
    requires Quoted(swap)
    ensures df == FinalDf(points, exp, swap)
  {
    PeriodPositive(swap.frequency);
    var dt := Period(swap.frequency);
    hide Period, Product, InterpolatedDf;
    var dates := CouponDates(dt, swap.tenor - dt / 2.0);
    var sumDf := 0.0;
    for j := 0 to |dates|
      invariant sumDf == CouponValue(points, exp, dates[..j], swap.rate, dt)
    {
      assert dates[..j + 1][..j] == dates[..j];
      var d := InterpolateDiscountFactor(points, exp, dates[j]);
      sumDf := sumDf + Product(d, Product(swap.rate, dt));
    }
    assert dates[..|dates|] == dates;
    df := SolvedFactor(sumDf, Product(swap.rate, dt));
  }

  /** Sum of the curve's discount factors at the given dates. */
  function DiscountSum(points: seq<CurvePoint>, exp: real -> real, dates: seq<real>): real
    requires points != []
  {
    if dates == [] then 0.0 else
    DiscountSum(points, exp, dates[..|dates| - 1]) + Discount(points, exp, dates[|dates| - 1])
  }

  /** The error thrown for an empty curve, and a quotient by zero, which is not a number. */
  datatype CurveError = NoPoints | NotFinite

  function ParRate(points: seq<CurvePoint>, exp: real -> real, tenor: real, frequency: real): Result<real, CurveError>
    requires frequency > 0.0
  {
    if points == [] then Err(NoPoints) else
    PeriodPositive(frequency);
    var dt := Period(frequency);
    var annuity := Product(DiscountSum(points, exp, Coupons(dt, tenor, dt)), dt);
    if annuity == 0.0 then Err(NotFinite) else Ok((1.0 - Discount(points, exp, tenor)) / annuity)
  }

  method GetParRate(
    points: seq<CurvePoint>, exp: real -> real, tenor: real, frequency: real) returns (r: Result<real, CurveError>)
    requires frequency > 0.0
    ensures r == ParRate(points, exp, tenor, frequency)
  {
    hide Period, Product, DiscountFactor, ZeroRate, Coupons;
    PeriodPositive(frequency);
    var dt := Period(frequency);
    var dates := CouponDates(dt, tenor);
    if points == [] {
      return Err(NoPoints);
    }
    var sumDf := 0.0;
    for j := 0 to |dates|
      invariant sumDf == DiscountSum(points, exp, dates[..j])
    {
      assert dates[..j + 1][..j] == dates[..j];
      var rate := GetZeroRate(points, dates[j]);
      sumDf := sumDf + DiscountFactor(exp, rate.value, dates[j]);
    }
    assert dates[..|dates|] == dates;
    var rate := GetZeroRate(points, tenor);
    var annuity := Product(sumDf, dt);
    r := if annuity == 0.0 then Err(NotFinite) else Ok((1.0 - DiscountFactor(exp, rate.value, tenor)) / annuity);
  }

  // ----- Par rates come back -----

  /** k periods of length dt. */
  function Grid(dt: real, k: int): real {
    Product(k as real, dt)
  }

  lemma GridStep(dt: real, k: int)
    requires dt > 0.0
    ensures Grid(dt, k + 1) == Grid(dt, k) + dt > Grid(dt, k)
  {
    ProductDistributes(k as real, 1.0, dt);
    ProductOfOne(dt);
    hide Product;
  }

  lemma {:induction false} GridIncreases(dt: real, j: int, k: int)
    requires dt > 0.0 && j < k
    ensures Grid(dt, j) < Grid(dt, k)
    decreases k - j
  {
    GridStep(dt, k - 1);
    if j < k - 1 {
      GridIncreases(dt, j, k - 1);
    }
  }

  /** Between n and n + 1 periods, the coupon dates from period j on are the periods j to n. */
  lemma {:induction false} CouponsOnGrid(dt: real, limit: real, n: nat, j: nat)
    requires dt > 0.0 && j <= n + 1 && Grid(dt, n) <= limit < Grid(dt, n + 1)
    ensures Coupons(dt, limit, Grid(dt, j)) == seq(n + 1 - j, i => Grid(dt, j + i))
    decreases n + 1 - j
  {
    hide Grid;
    if j <= n {
      if j < n {
        GridIncreases(dt, j, n);
      }
      GridStep(dt, j);
      CouponsOnGrid(dt, limit, n, j + 1);
      var rest := seq(n - j, i => Grid(dt, j + 1 + i));
      assert [Grid(dt, j)] + rest == seq(n + 1 - j, i => Grid(dt, j + i));
    }
  }

  function GridDates(dt: real, n: nat): seq<real> {
    seq(n, i => Grid(dt, 1 + i))
  }

  lemma CouponsToMaturity(dt: real, n: nat, limit: real)
    requires dt > 0.0 && Grid(dt, n) <= limit < Grid(dt, n + 1)
    ensures Coupons(dt, limit, dt) == GridDates(dt, n)
  {
    ProductOfOne(dt);
    assert Grid(dt, 1) == dt;
    CouponsOnGrid(dt, limit, n, 1);
  }

  /** Swaps of one frequency, maturing after 1, 2, 3, ... coupon periods. */
  ghost predicate IsLadder(swaps: seq<SwapRate>, frequency: real) {
    && frequency > 0.0
    && forall k :: 0 <= k < |swaps| ==>
         Quoted(swaps[k]) && swaps[k].frequency == frequency && swaps[k].tenor == Grid(Period(frequency), k + 1)
  }

  /** The discount factor that bootstrapping solves for at the k-th maturity. */
  function LadderDf(swaps: seq<SwapRate>, exp: real -> real, ln: real -> real, k: nat): real
    requires k < |swaps| && AllQuoted(swaps)
  {
    FinalDf(Points(swaps[..k], exp, ln), exp, swaps[k])
  }

  ghost predicate PositiveFactors(swaps: seq<SwapRate>, exp: real -> real, ln: real -> real)
    requires AllQuoted(swaps)
  {
    forall k: nat :: k < |swaps| ==> LadderDf(swaps, exp, ln, k) > 0.0
  }

  lemma {:induction false} PointsAt(swaps: seq<SwapRate>, exp: real -> real, ln: real -> real, k: nat)
    requires k < |swaps| && AllQuoted(swaps)
    ensures swaps[k].tenor > 0.0
    ensures Points(swaps, exp, ln)[k] == CurvePoint(swaps[k].tenor, ContinuousRate(ln, LadderDf(swaps, exp, ln, k), swaps[k].tenor))
    ensures forall m: nat :: k < m <= |swaps| ==> LadderDf(swaps[..m], exp, ln, k) == LadderDf(swaps, exp, ln, k)
  {
    assert Quoted(swaps[k]);
    hide FinalDf, Quoted;
    forall m: nat | k < m <= |swaps|
      ensures LadderDf(swaps[..m], exp, ln, k) == LadderDf(swaps, exp, ln, k)
    {
      assert swaps[..m][..k] == swaps[..k];
    }
    if k < |swaps| - 1 {
      var before := swaps[..|swaps| - 1];
      PointsAt(before, exp, ln, k);
    }
  }

  ghost predicate OnGrid(points: seq<CurvePoint>, dt: real) {
    forall k :: 0 <= k < |points| ==> points[k].tenor == Grid(dt, k + 1)
  }

  lemma GridPointsIncrease(points: seq<CurvePoint>, dt: real)
    requires dt > 0.0 && OnGrid(points, dt)
    ensures Increasing(points)
  {
    hide Grid;
    forall i, j | 0 <= i < j < |points|
      ensures points[i].tenor < points[j].tenor
    {
      GridIncreases(dt, i + 1, j + 1);
    }
  }

  lemma LadderPoints(swaps: seq<SwapRate>, frequency: real, exp: real -> real, ln: real -> real)
    requires IsLadder(swaps, frequency) && AllQuoted(swaps)
    ensures OnGrid(Points(swaps, exp, ln), Period(frequency)) && Increasing(Points(swaps, exp, ln))
  {
    var points, dt := Points(swaps, exp, ln), Period(frequency);
    PeriodPositive(frequency);
    hide Grid, Points, Period, ContinuousRate;
    forall k: nat | k < |swaps|
      ensures points[k].tenor == Grid(dt, k + 1)
    {
      PointsAt(swaps, exp, ln, k);
    }
    GridPointsIncrease(points, dt);
  }

  /** A point whose rate was solved from a positive factor gives that factor back. */
  lemma PointDiscounts(exp: real -> real, ln: real -> real, df: real, tenor: real)
    requires AreExpAndLn(exp, ln) && df > 0.0 && tenor > 0.0
    ensures DiscountFactor(exp, ContinuousRate(ln, df, tenor), tenor) == df
  {
    var y := ln(df);
    RateTimesTenor(y, tenor);
    assert exp(y) == df;
    hide Product;
  }

  lemma RateTimesTenor(y: real, tenor: real)
    requires tenor > 0.0
    ensures -Product(-y / tenor, tenor) == y
  {
  }

  lemma KnotDiscounts(curve: seq<CurvePoint>, exp: real -> real, ln: real -> real, k: nat, df: real)
    requires AreExpAndLn(exp, ln) && Increasing(curve) && k < |curve| && df > 0.0
    requires curve[k].tenor > 0.0 && curve[k].zeroRate == ContinuousRate(ln, df, curve[k].tenor)
    ensures Discount(curve, exp, curve[k].tenor) == df
  {
    ExactAtKnots(curve, k);
    hide ZeroRate, DiscountFactor;
    PointDiscounts(exp, ln, df, curve[k].tenor);
  }

  /** A swap ladder whose solved factors are all positive, so that every logarithm is defined. */
  ghost predicate GoodLadder(swaps: seq<SwapRate>, frequency: real, exp: real -> real, ln: real -> real) {
    && AreExpAndLn(exp, ln)
    && IsLadder(swaps, frequency)
    && AllQuoted(swaps)
    && PositiveFactors(swaps, exp, ln)
  }

  lemma LadderPrefix(swaps: seq<SwapRate>, frequency: real, exp: real -> real, ln: real -> real, m: nat)
    requires m <= |swaps| && IsLadder(swaps, frequency) && AllQuoted(swaps)
    ensures IsLadder(swaps[..m], frequency) && AllQuoted(swaps[..m])
  {
  }

  /** While building, interpolation at an earlier maturity returns the factor solved there. */
  lemma InterpolatedAtMaturity(
    swaps: seq<SwapRate>, frequency: real, exp: real -> real, ln: real -> real, m: nat, k: nat)
    requires GoodLadder(swaps, frequency, exp, ln) && k < m <= |swaps|
    ensures AllQuoted(swaps[..m])
    ensures InterpolatedDf(Points(swaps[..m], exp, ln), exp, Grid(Period(frequency), k + 1)) == LadderDf(swaps, exp, ln, k)
  {
    hide Grid, Points, LadderDf, Quoted, Discount, Period, ContinuousRate, AreExpAndLn;
    LadderPrefix(swaps, frequency, exp, ln, m);
    var prefix := swaps[..m];
    LadderPoints(prefix, frequency, exp, ln);
    PointsAt(prefix, exp, ln, k);
    PointsAt(swaps, exp, ln, k);
    var points := Points(prefix, exp, ln);
    SortedUnchanged(points, TenorOf());
    KnotDiscounts(points, exp, ln, k, LadderDf(swaps, exp, ln, k));
  }

  /** Sum of the first j solved factors. */
  function LadderSum(swaps: seq<SwapRate>, exp: real -> real, ln: real -> real, j: nat): real
    requires j <= |swaps| && AllQuoted(swaps)
  {
    if j == 0 then 0.0 else LadderSum(swaps, exp, ln, j - 1) + LadderDf(swaps, exp, ln, j - 1)
  }

  lemma {:induction false} LadderSumPositive(swaps: seq<SwapRate>, exp: real -> real, ln: real -> real, j: nat)
    requires j <= |swaps| && AllQuoted(swaps) && PositiveFactors(swaps, exp, ln)
    ensures LadderSum(swaps, exp, ln, j) >= 0.0 && (j > 0 ==> LadderSum(swaps, exp, ln, j) > 0.0)
  {
    hide LadderDf;
    if j == 0 {
    } else {
      LadderSumPositive(swaps, exp, ln, j - 1);
    }
  }

  lemma {:induction false} CouponValueOfLadder(
    swaps: seq<SwapRate>, frequency: real, exp: real -> real, ln: real -> real, m: nat, j: nat, rate: real)
    requires GoodLadder(swaps, frequency, exp, ln) && j <= m <= |swaps|
    ensures AllQuoted(swaps[..m])
    ensures var dt := Period(frequency);
            CouponValue(Points(swaps[..m], exp, ln), exp, GridDates(dt, j), rate, dt)
              == Product(LadderSum(swaps, exp, ln, j), Product(rate, dt))
  {
    hide Grid, Points, LadderDf, InterpolatedDf, Product, Quoted, PositiveFactors, AreExpAndLn, Period;
    var dt := Period(frequency);
    LadderPrefix(swaps, frequency, exp, ln, m);
    if j == 0 {
      ProductOfZero(Product(rate, dt));
    } else {
      CouponValueOfLadder(swaps, frequency, exp, ln, m, j - 1, rate);
      InterpolatedAtMaturity(swaps, frequency, exp, ln, m, j - 1);
      assert GridDates(dt, j)[..j - 1] == GridDates(dt, j - 1);
      ProductDistributes(LadderSum(swaps, exp, ln, j - 1), LadderDf(swaps, exp, ln, j - 1), Product(rate, dt));
    }
  }

  /** The equation bootstrapping solves: coupons and principal are worth par. */
  lemma LadderEquation(swaps: seq<SwapRate>, frequency: real, exp: real -> real, ln: real -> real, k: nat)
    requires GoodLadder(swaps, frequency, exp, ln) && k < |swaps|
    ensures Product(LadderSum(swaps, exp, ln, k + 1), Product(swaps[k].rate, Period(frequency)))
         == 1.0 - LadderDf(swaps, exp, ln, k)
  {
    hide Grid, Points, LadderDf, LadderSum, CouponValue, SolvedFactor, Product, Quoted, PositiveFactors, AreExpAndLn, Period;
    LadderPrefix(swaps, frequency, exp, ln, k);
    UnfoldLadderDf(swaps, frequency, exp, ln, k);
    CouponValueOfLadder(swaps, frequency, exp, ln, k, k, swaps[k].rate);
    ParEquation(LadderDf(swaps, exp, ln, k), LadderSum(swaps, exp, ln, k), Product(swaps[k].rate, Period(frequency)));
    LadderSumStep(swaps, exp, ln, k);
  }

  lemma UnfoldLadderDf(swaps: seq<SwapRate>, frequency: real, exp: real -> real, ln: real -> real, k: nat)
    requires k < |swaps| && IsLadder(swaps, frequency) && AllQuoted(swaps)
    ensures AllQuoted(swaps[..k])
    ensures var dt := Period(frequency);
            && 1.0 + Product(swaps[k].rate, dt) != 0.0
            && LadderDf(swaps, exp, ln, k)
                 == SolvedFactor(CouponValue(Points(swaps[..k], exp, ln), exp, GridDates(dt, k), swaps[k].rate, dt),
                                 Product(swaps[k].rate, dt))
  {
    hide Grid, Points, CouponValue, SolvedFactor, Product, Period;
    LadderPrefix(swaps, frequency, exp, ln, k);
    assert Quoted(swaps[k]);
    PeriodPositive(frequency);
    var dt := Period(frequency);
    GridStep(dt, k);
    CouponsToMaturity(dt, k, swaps[k].tenor - dt / 2.0);
  }

  lemma LadderSumStep(swaps: seq<SwapRate>, exp: real -> real, ln: real -> real, k: nat)
    requires k < |swaps| && AllQuoted(swaps)
    ensures LadderSum(swaps, exp, ln, k + 1) == LadderSum(swaps, exp, ln, k) + LadderDf(swaps, exp, ln, k)
  {
    hide LadderDf;
  }

  lemma ParEquation(df: real, sum: real, c: real)
    requires 1.0 + c != 0.0 && df == SolvedFactor(Product(sum, c), c)
    ensures Product(sum + df, c) == 1.0 - df
  {
    var x := 1.0 - Product(sum, c);
    assert df * (1.0 + c) == x;
    assert Product(sum + df, c) == Product(sum, c) + df * c;
  }

  // ----- Rates that give positive factors -----

  /**
   Rates that are not negative, and each not above the one before it or below one over
   the maturity before it, such as any ladder of rates below 5% up to twenty years.
   */
  ghost predicate ModerateRates(swaps: seq<SwapRate>) {
    forall k: nat :: k < |swaps| ==> ModerateRate(swaps, k)
  }

  predicate ModerateRate(swaps: seq<SwapRate>, k: nat)
    requires k < |swaps|
  {
    && swaps[k].rate >= 0.0
    && (k == 0 || swaps[k].rate <= swaps[k - 1].rate || Product(swaps[k].rate, swaps[k - 1].tenor) < 1.0)
  }

  /** Every factor before the k-th is positive. */
  ghost predicate FactorsPositive(swaps: seq<SwapRate>, exp: real -> real, ln: real -> real, k: nat)
    requires k <= |swaps| && AllQuoted(swaps)
  {
    forall j: nat :: j < k ==> LadderDf(swaps, exp, ln, j) > 0.0
  }

  /** Every factor before the k-th is positive and at most 1. */
  ghost predicate FactorsInRange(swaps: seq<SwapRate>, exp: real -> real, ln: real -> real, k: nat)
    requires k <= |swaps| && AllQuoted(swaps)
  {
    forall j: nat :: j < k ==> 0.0 < LadderDf(swaps, exp, ln, j) <= 1.0
  }

  lemma {:induction false} LadderSumOfPrefix(swaps: seq<SwapRate>, exp: real -> real, ln: real -> real, m: nat, j: nat)
    requires j <= m <= |swaps| && AllQuoted(swaps)
    ensures AllQuoted(swaps[..m]) && LadderSum(swaps[..m], exp, ln, j) == LadderSum(swaps, exp, ln, j)
  {
    hide LadderDf;
    if j == 0 {
    } else {
      LadderSumOfPrefix(swaps, exp, ln, m, j - 1);
      PointsAt(swaps, exp, ln, j - 1);
    }
  }

  lemma GoodPrefix(swaps: seq<SwapRate>, frequency: real, exp: real -> real, ln: real -> real, k: nat)
    requires AreExpAndLn(exp, ln) && IsLadder(swaps, frequency) && AllQuoted(swaps) && k <= |swaps|
    requires FactorsPositive(swaps, exp, ln, k)
    ensures GoodLadder(swaps[..k], frequency, exp, ln)
  {
    hide LadderDf, AreExpAndLn, Grid;
    LadderPrefix(swaps, frequency, exp, ln, k);
    forall j: nat | j < k
      ensures LadderDf(swaps[..k], exp, ln, j) > 0.0
    {
      PointsAt(swaps, exp, ln, j);
    }
  }

  lemma {:induction false} LadderSumBounds(swaps: seq<SwapRate>, exp: real -> real, ln: real -> real, j: nat)
    requires j <= |swaps| && AllQuoted(swaps) && FactorsInRange(swaps, exp, ln, j)
    ensures 0.0 <= LadderSum(swaps, exp, ln, j) <= j as real
  {
    hide LadderDf;
    if j == 0 {
    } else {
      LadderSumBounds(swaps, exp, ln, j - 1);
    }
  }

  /** The k-th factor is the one solved from the factors before it. */
  lemma FactorFromSum(swaps: seq<SwapRate>, frequency: real, exp: real -> real, ln: real -> real, k: nat)
    requires AreExpAndLn(exp, ln) && IsLadder(swaps, frequency) && AllQuoted(swaps) && k < |swaps|
    requires FactorsPositive(swaps, exp, ln, k)
    ensures var c := Product(swaps[k].rate, Period(frequency));
            1.0 + c != 0.0 && LadderDf(swaps, exp, ln, k) == SolvedFactor(Product(LadderSum(swaps, exp, ln, k), c), c)
  {
    hide Grid, Points, LadderDf, LadderSum, CouponValue, SolvedFactor, Product, Quoted, AreExpAndLn, Period, PositiveFactors;
    var prefix := swaps[..k];
    GoodPrefix(swaps, frequency, exp, ln, k);
    UnfoldLadderDf(swaps, frequency, exp, ln, k);
    assert prefix[..k] == prefix;
    CouponValueOfLadder(prefix, frequency, exp, ln, k, k, swaps[k].rate);
    LadderSumOfPrefix(swaps, exp, ln, k, k);
  }

  lemma SolvedFactorSign(coupons: real, c: real)
    requires 1.0 + c > 0.0
    ensures SolvedFactor(coupons, c) > 0.0 <==> coupons < 1.0
  {
    var v := SolvedFactor(coupons, c);
    assert Product(v, 1.0 + c) == 1.0 - coupons;
    if v > 0.0 {
      ProductPositive(v, 1.0 + c);
    } else {
      ProductNonNegative(-v, 1.0 + c);
      ProductNegates(v, 1.0 + c);
    }
  }

  /** What the k-th swap pays at its rate before maturity, valued by the factors before it. */
  function CouponsBefore(swaps: seq<SwapRate>, exp: real -> real, ln: real -> real, k: nat): real
    requires k < |swaps| && AllQuoted(swaps)
  {
    assert Quoted(swaps[k]);
    Product(LadderSum(swaps, exp, ln, k), Product(swaps[k].rate, Period(swaps[k].frequency)))
  }

  /** No rate is so negative that its last coupon takes more than the principal. */
  ghost predicate CouponsAboveMinusPar(swaps: seq<SwapRate>)
    requires AllQuoted(swaps)
  {
    forall k: nat :: k < |swaps| ==>
      assert Quoted(swaps[k]);
      1.0 + Product(swaps[k].rate, Period(swaps[k].frequency)) > 0.0
  }

  /** After positive factors, the next is positive exactly when its coupons are worth less than par. */
  lemma FactorPositiveExactly(swaps: seq<SwapRate>, frequency: real, exp: real -> real, ln: real -> real, k: nat)
    requires AreExpAndLn(exp, ln) && IsLadder(swaps, frequency) && AllQuoted(swaps) && k < |swaps|
    requires FactorsPositive(swaps, exp, ln, k) && CouponsAboveMinusPar(swaps)
    ensures LadderDf(swaps, exp, ln, k) > 0.0 <==> CouponsBefore(swaps, exp, ln, k) < 1.0
  {
    hide LadderDf, LadderSum, SolvedFactor, AreExpAndLn, Grid, Product;
    FactorFromSum(swaps, frequency, exp, ln, k);
    assert swaps[k].frequency == frequency;
    SolvedFactorSign(CouponsBefore(swaps, exp, ln, k), Product(swaps[k].rate, Period(frequency)));
  }

  /** All factors of a ladder are positive exactly when the coupons before each maturity are worth less than par. */
  lemma {:induction false} FactorsPositiveExactly(
    swaps: seq<SwapRate>, frequency: real, exp: real -> real, ln: real -> real, k: nat)
    requires AreExpAndLn(exp, ln) && IsLadder(swaps, frequency) && AllQuoted(swaps) && k <= |swaps|
    requires CouponsAboveMinusPar(swaps)
    ensures FactorsPositive(swaps, exp, ln, k) <==> forall j: nat :: j < k ==> CouponsBefore(swaps, exp, ln, j) < 1.0
  {
    hide LadderDf, CouponsBefore, AreExpAndLn, IsLadder, CouponsAboveMinusPar;
    if k == 0 {
    } else {
      FactorsPositiveExactly(swaps, frequency, exp, ln, k - 1);
      if FactorsPositive(swaps, exp, ln, k - 1) {
        FactorPositiveExactly(swaps, frequency, exp, ln, k - 1);
      }
    }
  }

  lemma SolvedFactorBounds(coupons: real, c: real)
    requires c >= 0.0 && 0.0 <= coupons < 1.0
    ensures 0.0 < SolvedFactor(coupons, c) <= 1.0
  {
    var v := SolvedFactor(coupons, c);
    assert v * (1.0 + c) == 1.0 - coupons;
  }

  lemma ProductGrows(x: real, y: real, c: real)
    requires x <= y && c >= 0.0
    ensures Product(x, c) <= Product(y, c) && Product(c, x) <= Product(c, y)
  {
    ProductNonNegative(y - x, c);
  }

  /** The coupons before the k-th maturity are worth less than par. */
  lemma ModerateCoupons(swaps: seq<SwapRate>, frequency: real, exp: real -> real, ln: real -> real, k: nat)
    requires AreExpAndLn(exp, ln) && IsLadder(swaps, frequency) && AllQuoted(swaps) && k < |swaps|
    requires FactorsInRange(swaps, exp, ln, k) && ModerateRate(swaps, k) && (k > 0 ==> ModerateRate(swaps, k - 1))
    ensures Product(swaps[k].rate, Period(frequency)) >= 0.0
    ensures 0.0 <= Product(LadderSum(swaps, exp, ln, k), Product(swaps[k].rate, Period(frequency))) < 1.0
  {
    hide LadderDf, LadderSum, Product, AreExpAndLn, Period, PositiveFactors;
    var dt := Period(frequency);
    PeriodPositive(frequency);
    LadderSumBounds(swaps, exp, ln, k);
    var sum, c := LadderSum(swaps, exp, ln, k), Product(swaps[k].rate, dt);
    ProductNonNegative(swaps[k].rate, dt);
    ProductNonNegative(sum, c);
    if k == 0 {
      NothingSummed(swaps, exp, ln);
      ProductOfZero(c);
    } else if swaps[k].rate <= swaps[k - 1].rate {
      var before := Product(swaps[k - 1].rate, dt);
      ProductGrows(swaps[k].rate, swaps[k - 1].rate, dt);
      ProductGrows(c, before, sum);
      CouponsWereWorthLess(swaps, frequency, exp, ln, k);
    } else {
      ProductGrows(sum, k as real, c);
      PeriodsTimesCoupon(swaps[k].rate, dt, k);
    }
  }

  lemma NothingSummed(swaps: seq<SwapRate>, exp: real -> real, ln: real -> real)
    requires AllQuoted(swaps)
    ensures LadderSum(swaps, exp, ln, 0) == 0.0
  {
  }

  lemma PeriodsTimesCoupon(rate: real, dt: real, k: nat)
    ensures Product(k as real, Product(rate, dt)) == Product(rate, Grid(dt, k))
  {
  }

  lemma CouponsWereWorthLess(swaps: seq<SwapRate>, frequency: real, exp: real -> real, ln: real -> real, k: nat)
    requires AreExpAndLn(exp, ln) && IsLadder(swaps, frequency) && AllQuoted(swaps) && 0 < k <= |swaps|
    requires FactorsInRange(swaps, exp, ln, k)
    ensures Product(LadderSum(swaps, exp, ln, k), Product(swaps[k - 1].rate, Period(frequency))) < 1.0
  {
    hide Grid, LadderDf, LadderSum, Product, AreExpAndLn, Period, PositiveFactors, Quoted;
    var prefix := swaps[..k];
    GoodPrefix(swaps, frequency, exp, ln, k);
    LadderEquation(prefix, frequency, exp, ln, k - 1);
    LadderSumOfPrefix(swaps, exp, ln, k, k);
    PointsAt(swaps, exp, ln, k - 1);
  }

  lemma {:induction false} ModerateFactors(
    swaps: seq<SwapRate>, frequency: real, exp: real -> real, ln: real -> real, k: nat)
    requires AreExpAndLn(exp, ln) && IsLadder(swaps, frequency) && AllQuoted(swaps) && k <= |swaps| && ModerateRates(swaps)
    ensures FactorsInRange(swaps, exp, ln, k)
  {
    if k == 0 {
    } else {
      hide Grid, LadderDf, LadderSum, Product, AreExpAndLn, Period, Quoted, ModerateRate, IsLadder, FactorsInRange;
      ModerateFactors(swaps, frequency, exp, ln, k - 1);
      ModerateCoupons(swaps, frequency, exp, ln, k - 1);
      InRangeIsPositive(swaps, exp, ln, k - 1);
      FactorFromSum(swaps, frequency, exp, ln, k - 1);
      var c := Product(swaps[k - 1].rate, Period(frequency));
      SolvedFactorBounds(Product(LadderSum(swaps, exp, ln, k - 1), c), c);
      OneMoreInRange(swaps, exp, ln, k);
    }
  }

  lemma InRangeIsPositive(swaps: seq<SwapRate>, exp: real -> real, ln: real -> real, k: nat)
    requires k <= |swaps| && AllQuoted(swaps) && FactorsInRange(swaps, exp, ln, k)
    ensures FactorsPositive(swaps, exp, ln, k)
  {
    hide LadderDf;
  }

  lemma OneMoreInRange(swaps: seq<SwapRate>, exp: real -> real, ln: real -> real, k: nat)
    requires 0 < k <= |swaps| && AllQuoted(swaps)
    requires FactorsInRange(swaps, exp, ln, k - 1) && 0.0 < LadderDf(swaps, exp, ln, k - 1) <= 1.0
    ensures FactorsInRange(swaps, exp, ln, k)
  {
    hide LadderDf;
  }

  /** A ladder of moderate rates has positive factors only, whatever the exponential. */
  lemma ModerateRatesAreGood(swaps: seq<SwapRate>, frequency: real, exp: real -> real, ln: real -> real)
    requires AreExpAndLn(exp, ln) && IsLadder(swaps, frequency) && ModerateRates(swaps)
    ensures GoodLadder(swaps, frequency, exp, ln)
  {
    hide Grid, LadderDf, AreExpAndLn, ModerateRate, Quoted;
    ModerateFactors(swaps, frequency, exp, ln, |swaps|);
  }

  // ----- The finished curve -----

  /** The finished curve: strictly increasing, and still discounting each maturity by its solved factor. */
  lemma FinishedCurve(swaps: seq<SwapRate>, frequency: real, exp: real -> real, ln: real -> real, k: nat)
    requires var sorted := SortBy(swaps, SwapTenor()); GoodLadder(sorted, frequency, exp, ln) && k < |sorted|
    ensures AllQuoted(swaps)
    ensures var sorted := SortBy(swaps, SwapTenor());
            var curve := Bootstrapped(swaps, exp, ln);
            && Increasing(curve)
            && curve != [] && Discount(curve, exp, Grid(Period(frequency), k + 1)) == LadderDf(sorted, exp, ln, k)
  {
    hide Grid, Points, LadderDf, Quoted, Discount, AreExpAndLn, Period, ContinuousRate;
    SortKeeps(swaps);
    var sorted, dt := SortBy(swaps, SwapTenor()), Period(frequency);
    var points := Points(sorted, exp, ln);
    var curve := WithOvernight(points);
    LadderPoints(sorted, frequency, exp, ln);
    PointsAt(sorted, exp, ln, k);
    OvernightIncreases(points);
    SortedUnchanged(curve, TenorOf());
    var at := if |curve| == |points| then k else k + 1;
    assert curve[at] == points[k];
    KnotDiscounts(curve, exp, ln, at, LadderDf(sorted, exp, ln, k));
  }

  lemma OvernightIncreases(points: seq<CurvePoint>)
    requires Increasing(points)
    ensures Increasing(WithOvernight(points))
    ensures |WithOvernight(points)| == |points| || WithOvernight(points)[1..] == points
  {
  }

  lemma {:induction false} FinishedSum(
    swaps: seq<SwapRate>, frequency: real, exp: real -> real, ln: real -> real, j: nat)
    requires var sorted := SortBy(swaps, SwapTenor()); GoodLadder(sorted, frequency, exp, ln) && 0 < j <= |sorted|
    ensures AllQuoted(swaps)
    ensures var sorted := SortBy(swaps, SwapTenor());
            var curve := Bootstrapped(swaps, exp, ln);
            curve != [] && DiscountSum(curve, exp, GridDates(Period(frequency), j)) == LadderSum(sorted, exp, ln, j)
  {
    hide Grid, Points, LadderDf, Quoted, Discount, Bootstrapped, AreExpAndLn, Period, Increasing, PositiveFactors;
    var dt := Period(frequency);
    FinishedCurve(swaps, frequency, exp, ln, j - 1);
    assert GridDates(dt, j)[..j - 1] == GridDates(dt, j - 1);
    if j > 1 {
      FinishedSum(swaps, frequency, exp, ln, j - 1);
    }
  }

  /**
   Bootstrapping and asking for the par rate is the identity: for swaps in any order
   that make up a ladder with positive factors, the curve's par rate at each maturity
   is the rate that was put in.
   */
  lemma ParRateReturns(swaps: seq<SwapRate>, frequency: real, exp: real -> real, ln: real -> real, k: nat)
    requires var sorted := SortBy(swaps, SwapTenor()); GoodLadder(sorted, frequency, exp, ln) && k < |sorted|
    ensures AllQuoted(swaps)
    ensures var s := SortBy(swaps, SwapTenor())[k];
            ParRate(Bootstrapped(swaps, exp, ln), exp, s.tenor, frequency) == Ok(s.rate)
  {
    hide Grid, Coupons, GridDates, Discount, DiscountSum, Bootstrapped, LadderDf, LadderSum, Product, Quoted, Points,
      Period, SortBy, PositiveFactors, AreExpAndLn;
    PeriodPositive(frequency);
    SortKeeps(swaps);
    MaturityCoupons(SortBy(swaps, SwapTenor()), frequency, k);
    FinishedCurve(swaps, frequency, exp, ln, k);
    FinishedSum(swaps, frequency, exp, ln, k + 1);
    RateOfLadder(SortBy(swaps, SwapTenor()), frequency, exp, ln, k);
  }

  /** The same for every ladder of moderate rates, a condition on the inputs alone. */
  lemma ModerateParRateReturns(swaps: seq<SwapRate>, frequency: real, exp: real -> real, ln: real -> real, k: nat)
    requires AreExpAndLn(exp, ln) && k < |SortBy(swaps, SwapTenor())|
    requires IsLadder(SortBy(swaps, SwapTenor()), frequency) && ModerateRates(SortBy(swaps, SwapTenor()))
    ensures AllQuoted(swaps)
    ensures var s := SortBy(swaps, SwapTenor())[k];
            ParRate(Bootstrapped(swaps, exp, ln), exp, s.tenor, frequency) == Ok(s.rate)
  {
    hide *;
    ModerateRatesAreGood(SortBy(swaps, SwapTenor()), frequency, exp, ln);
    ParRateReturns(swaps, frequency, exp, ln, k);
  }

  lemma MaturityCoupons(swaps: seq<SwapRate>, frequency: real, k: nat)
    requires IsLadder(swaps, frequency) && k < |swaps|
    ensures Period(frequency) > 0.0
    ensures Coupons(Period(frequency), swaps[k].tenor, Period(frequency)) == GridDates(Period(frequency), k + 1)
    ensures swaps[k].tenor == Grid(Period(frequency), k + 1)
  {
    hide Grid, Coupons, GridDates, Quoted, Period;
    PeriodPositive(frequency);
    GridStep(Period(frequency), k + 1);
    CouponsToMaturity(Period(frequency), k + 1, swaps[k].tenor);
  }

  lemma RateOfLadder(swaps: seq<SwapRate>, frequency: real, exp: real -> real, ln: real -> real, k: nat)
    requires GoodLadder(swaps, frequency, exp, ln) && k < |swaps|
    ensures var annuity := Product(LadderSum(swaps, exp, ln, k + 1), Period(frequency));
            annuity != 0.0 && (1.0 - LadderDf(swaps, exp, ln, k)) / annuity == swaps[k].rate
  {
    hide Grid, LadderDf, LadderSum, Product, Quoted, Period, PositiveFactors, AreExpAndLn;
    PeriodPositive(frequency);
    LadderEquation(swaps, frequency, exp, ln, k);
    LadderSumPositive(swaps, exp, ln, k + 1);
    RateFromEquation(LadderSum(swaps, exp, ln, k + 1), swaps[k].rate, Period(frequency), 1.0 - LadderDf(swaps, exp, ln, k));
  }

  lemma RateFromEquation(sum: real, rate: real, dt: real, x: real)
    requires sum > 0.0 && dt > 0.0 && Product(sum, Product(rate, dt)) == x
    ensures Product(sum, dt) != 0.0 && x / Product(sum, dt) == rate
  {
    var a := Product(sum, dt);
    ProductPositive(sum, dt);
    assert rate * a == x;
    QuotientUnique(x, a, rate);
  }

  // ----- Any swap, any tenor -----

  /** Sum of the discount factors interpolated at the first n coupon dates. */
  function InterpolatedSum(points: seq<CurvePoint>, exp: real -> real, dt: real, n: nat): real {
    if n == 0 then 0.0 else InterpolatedSum(points, exp, dt, n - 1) + InterpolatedDf(points, exp, Grid(dt, n))
  }

  lemma {:induction false} CouponsAreWorth(points: seq<CurvePoint>, exp: real -> real, rate: real, dt: real, n: nat)
    ensures CouponValue(points, exp, GridDates(dt, n), rate, dt)
         == Product(InterpolatedSum(points, exp, dt, n), Product(rate, dt))
  {
    hide Grid, InterpolatedDf, Product;
    if n == 0 {
      ProductOfZero(Product(rate, dt));
    } else {
      CouponsAreWorth(points, exp, rate, dt, n - 1);
      assert GridDates(dt, n)[..n - 1] == GridDates(dt, n - 1);
      ProductDistributes(InterpolatedSum(points, exp, dt, n - 1), InterpolatedDf(points, exp, Grid(dt, n)), Product(rate, dt));
    }
  }

  /** n is the number of whole periods up to a limit, 0 when there are none. */
  predicate LastCoupon(limit: real, dt: real, n: nat) {
    (n == 0 || Grid(dt, n) <= limit) && limit < Grid(dt, n + 1)
  }

  lemma CouponsCounted(dt: real, n: nat, limit: real)
    requires dt > 0.0 && LastCoupon(limit, dt, n)
    ensures Coupons(dt, limit, dt) == GridDates(dt, n)
  {
    if n == 0 {
      ProductOfOne(dt);
      assert Grid(dt, 1) == dt;
    } else {
      hide Grid;
      CouponsToMaturity(dt, n, limit);
    }
  }

  /**
   Any swap, on any curve: its coupons fall after 1, 2, ... n periods, where n is the last
   one at least half a period before maturity, and at maturity; together with the
   principal they are worth par.
   */
  lemma SwapIsWorthPar(points: seq<CurvePoint>, exp: real -> real, s: SwapRate, n: nat)
    requires Quoted(s)
    requires LastCoupon(s.tenor - 1.0 / s.frequency / 2.0, 1.0 / s.frequency, n)
    ensures var dt := 1.0 / s.frequency;
            Product(InterpolatedSum(points, exp, dt, n) + FinalDf(points, exp, s), Product(s.rate, dt))
              == 1.0 - FinalDf(points, exp, s)
  {
    var dt := Period(s.frequency);
    PeriodPositive(s.frequency);
    assert dt == 1.0 / s.frequency;
    hide Grid, CouponValue, InterpolatedSum, Coupons, GridDates, Product, SolvedFactor, Period;
    CouponsCounted(dt, n, s.tenor - dt / 2.0);
    CouponsAreWorth(points, exp, s.rate, dt, n);
    ParEquation(FinalDf(points, exp, s), InterpolatedSum(points, exp, dt, n), Product(s.rate, dt));
  }

  lemma {:induction false} UndiscountedSum(exp: real -> real, dt: real, n: nat)
    ensures InterpolatedSum([], exp, dt, n) == n as real
  {
    if n == 0 {
    } else {
      UndiscountedSum(exp, dt, n - 1);
    }
  }

  /** The coupons of the first swap are not discounted before its maturity. */
  lemma FirstSwapFactor(exp: real -> real, s: SwapRate, n: nat)
    requires Quoted(s)
    requires LastCoupon(s.tenor - 1.0 / s.frequency / 2.0, 1.0 / s.frequency, n)
    ensures Product(n as real + FinalDf([], exp, s), Product(s.rate, 1.0 / s.frequency)) == 1.0 - FinalDf([], exp, s)
  {
    hide Grid, FinalDf, Product, InterpolatedSum;
    SwapIsWorthPar([], exp, s, n);
    UndiscountedSum(exp, 1.0 / s.frequency, n);
  }

  /** Sum of the curve's discount factors at the first n coupon dates. */
  function DiscountedSum(curve: seq<CurvePoint>, exp: real -> real, dt: real, n: nat): real
    requires curve != []
  {
    if n == 0 then 0.0 else DiscountedSum(curve, exp, dt, n - 1) + Discount(curve, exp, Grid(dt, n))
  }

  lemma {:induction false} SumAtDates(curve: seq<CurvePoint>, exp: real -> real, dt: real, n: nat)
    requires curve != []
    ensures DiscountSum(curve, exp, GridDates(dt, n)) == DiscountedSum(curve, exp, dt, n)
  {
    hide Grid, Discount;
    if n == 0 {
    } else {
      SumAtDates(curve, exp, dt, n - 1);
      assert GridDates(dt, n)[..n - 1] == GridDates(dt, n - 1);
    }
  }

  /** On any curve, a bond that pays the par rate at 1, 2, ... n periods up to the tenor loses what discounting takes. */
  lemma ParRateIsPar(curve: seq<CurvePoint>, exp: real -> real, tenor: real, frequency: real, n: nat)
    requires curve != [] && frequency > 0.0 && LastCoupon(tenor, 1.0 / frequency, n)
    ensures var annuity := Product(DiscountedSum(curve, exp, 1.0 / frequency, n), 1.0 / frequency);
            match ParRate(curve, exp, tenor, frequency)
            case Ok(par) => annuity != 0.0 && Product(par, annuity) == 1.0 - Discount(curve, exp, tenor)
            case Err(_) => annuity == 0.0
  {
    var dt := Period(frequency);
    PeriodPositive(frequency);
    assert dt == 1.0 / frequency;
    hide Grid, DiscountSum, DiscountedSum, Coupons, GridDates, Discount, Period, Product, LastCoupon;
    CouponsCounted(dt, n, tenor);
    SumAtDates(curve, exp, dt, n);
    var annuity := Product(DiscountedSum(curve, exp, dt, n), dt);
    if annuity != 0.0 {
      QuotientTimes(1.0 - Discount(curve, exp, tenor), annuity);
    }
  }

  // ----- Outside the points -----

  /** Before the first point and after the last the rate is held flat. */
  lemma FlatOutside(curve: seq<CurvePoint>, tenor: real)
    requires Increasing(curve) && curve != []
    ensures tenor <= curve[0].tenor ==> ZeroRate(curve, tenor) == curve[0].zeroRate
    ensures tenor >= curve[|curve| - 1].tenor ==> ZeroRate(curve, tenor) == curve[|curve| - 1].zeroRate
  {
    hide Lerp, Segment;
    if |curve| > 1 {
      assert curve[0].tenor < curve[|curve| - 1].tenor;
    }
  }

  /** Between neighbouring points the rate runs on the straight line through them. */
  lemma StraightBetween(curve: seq<CurvePoint>, i: nat, tenor: real)
    requires Increasing(curve) && i + 1 < |curve| && curve[i].tenor <= tenor <= curve[i + 1].tenor
    ensures var p, q := curve[i], curve[i + 1];
            Product(ZeroRate(curve, tenor) - p.zeroRate, q.tenor - p.tenor)
            == Product(q.zeroRate - p.zeroRate, tenor - p.tenor)
  {
    RateOnSegment(curve, i, tenor);
    var p, q := curve[i], curve[i + 1];
    hide ZeroRate, Product;
    QuotientTimes(Product(q.zeroRate - p.zeroRate, tenor - p.tenor), q.tenor - p.tenor);
    assert ZeroRate(curve, tenor) - p.zeroRate
        == Product(q.zeroRate - p.zeroRate, tenor - p.tenor) / (q.tenor - p.tenor);
  }

  lemma LerpOfEquals(x0: real, y: real, x1: real, x: real)
    ensures Lerp(x0, y, x1, y, x) == y
  {
    ProductOfZero(x - x0);
  }

  /** The swap of the earliest maturity, first among equals. */
  function Earliest(swaps: seq<SwapRate>): SwapRate
    requires swaps != []
  {
    SortPermutes(swaps);
    SortBy(swaps, SwapTenor())[0]
  }

  lemma SortPermutes(swaps: seq<SwapRate>)
    ensures |SortBy(swaps, SwapTenor())| == |swaps|
  {
    SortBySorts(swaps, SwapTenor());
    assert |multiset(SortBy(swaps, SwapTenor()))| == |multiset(swaps)|;
  }

  lemma EarliestIsFirst(swaps: seq<SwapRate>)
    requires swaps != []
    ensures Earliest(swaps) in swaps && forall s :: s in swaps ==> Earliest(swaps).tenor <= s.tenor
  {
    var sorted := SortBy(swaps, SwapTenor());
    SortPermutes(swaps);
    SortBySorts(swaps, SwapTenor());
    assert sorted[0] in multiset(sorted);
    forall s | s in swaps
      ensures sorted[0].tenor <= s.tenor
    {
      assert s in multiset(sorted);
      var k :| 0 <= k < |sorted| && sorted[k] == s;
      assert SwapTenor()(sorted[0]) <= SwapTenor()(sorted[k]);
    }
  }

  /** The rate solved for the earliest maturity, from its swap alone. */
  function FirstRate(swaps: seq<SwapRate>, exp: real -> real, ln: real -> real): real
    requires swaps != [] && Quoted(Earliest(swaps))
  {
    -ln(FinalDf([], exp, Earliest(swaps))) / Earliest(swaps).tenor
  }

  lemma {:induction false} FirstPoint(swaps: seq<SwapRate>, exp: real -> real, ln: real -> real)
    requires swaps != [] && AllQuoted(swaps)
    ensures Points(swaps, exp, ln)[0] == NextPoint([], exp, ln, swaps[0])
  {
    hide NextPoint, Quoted;
    if |swaps| == 1 {
      assert swaps[..0] == [];
    } else {
      FirstPoint(swaps[..|swaps| - 1], exp, ln);
    }
  }

  /** Points in the order of their tenors. */
  ghost predicate InOrder(curve: seq<CurvePoint>) {
    forall i, j :: 0 <= i < j < |curve| ==> curve[i].tenor <= curve[j].tenor
  }

  lemma {:induction false} PointTenors(swaps: seq<SwapRate>, exp: real -> real, ln: real -> real)
    requires AllQuoted(swaps)
    ensures forall k :: 0 <= k < |swaps| ==> Points(swaps, exp, ln)[k].tenor == swaps[k].tenor
  {
    hide FinalDf, Quoted, ContinuousRate;
    if swaps == [] {
    } else {
      PointTenors(swaps[..|swaps| - 1], exp, ln);
    }
  }

  /** The points before the short one is added: sorted, one a swap, and the first from the earliest swap alone. */
  lemma SortedPoints(swaps: seq<SwapRate>, exp: real -> real, ln: real -> real)
    requires AllQuoted(swaps) && swaps != []
    ensures AllQuoted(SortBy(swaps, SwapTenor())) && Quoted(Earliest(swaps))
    ensures var points := Points(SortBy(swaps, SwapTenor()), exp, ln);
            && points != [] && |points| == |swaps|
            && points[0] == CurvePoint(Earliest(swaps).tenor, FirstRate(swaps, exp, ln))
  {
    hide FinalDf, ContinuousRate, NextPoint, Quoted;
    SortKeeps(swaps);
    SortPermutes(swaps);
    var sorted := SortBy(swaps, SwapTenor());
    assert sorted[0] in sorted;
    FirstPoint(sorted, exp, ln);
    FirstPointOf(exp, ln, sorted[0]);
  }

  lemma PointsInOrder(swaps: seq<SwapRate>, exp: real -> real, ln: real -> real)
    requires AllQuoted(SortBy(swaps, SwapTenor()))
    ensures InOrder(Points(SortBy(swaps, SwapTenor()), exp, ln))
  {
    var sorted := SortBy(swaps, SwapTenor());
    SortBySorts(swaps, SwapTenor());
    PointTenors(sorted, exp, ln);
    hide Points, SortBy, Quoted;
    var points := Points(sorted, exp, ln);
    forall i, j | 0 <= i < j < |points|
      ensures points[i].tenor <= points[j].tenor
    {
      assert SwapTenor()(sorted[i]) <= SwapTenor()(sorted[j]);
    }
  }

  /** A finished curve is those points, after the short point when there is one. */
  lemma BootstrappedPoints(swaps: seq<SwapRate>, exp: real -> real, ln: real -> real)
    requires AllQuoted(swaps) && swaps != []
    ensures AllQuoted(SortBy(swaps, SwapTenor()))
    ensures var points := Points(SortBy(swaps, SwapTenor()), exp, ln);
            InOrder(points) && Bootstrapped(swaps, exp, ln) == WithOvernight(points)
  {
    hide Points, Quoted;
    SortKeeps(swaps);
    PointsInOrder(swaps, exp, ln);
    var points := Points(SortBy(swaps, SwapTenor()), exp, ln);
    OvernightInOrder(points);
    SortedCurveUnchanged(WithOvernight(points));
    hide SortBy, InOrder;
  }

  lemma FirstPointOf(exp: real -> real, ln: real -> real, s: SwapRate)
    requires Quoted(s)
    ensures NextPoint([], exp, ln, s) == CurvePoint(s.tenor, -ln(FinalDf([], exp, s)) / s.tenor)
  {
  }

  lemma OvernightInOrder(points: seq<CurvePoint>)
    requires InOrder(points)
    ensures InOrder(WithOvernight(points))
  {
  }

  lemma SortedCurveUnchanged(curve: seq<CurvePoint>)
    requires InOrder(curve)
    ensures SortBy(curve, TenorOf()) == curve
  {
    SortedUnchanged(curve, TenorOf());
  }

  /** Some maturity is after the earliest, or there is only one swap. */
  predicate Spread(swaps: seq<SwapRate>)
    requires swaps != []
  {
    |swaps| == 1 || exists s :: s in swaps && s.tenor > Earliest(swaps).tenor
  }

  /** The rate of a curve that starts with one rate at a short tenor and at its next point. */
  lemma RateUpToSecond(curve: seq<CurvePoint>, tenor: real)
    requires InOrder(curve) && |curve| >= 2 && curve[0].zeroRate == curve[1].zeroRate
    requires tenor < curve[1].tenor || (tenor == curve[1].tenor && (|curve| == 2 || tenor < curve[|curve| - 1].tenor))
    ensures ZeroRate(curve, tenor) == curve[0].zeroRate
  {
    hide Lerp;
    if curve[0].tenor < tenor < curve[|curve| - 1].tenor {
      assert Segment(curve, tenor, 0) == 0;
      LerpOfEquals(curve[0].tenor, curve[0].zeroRate, curve[1].tenor, tenor);
    } else if tenor > curve[0].tenor {
      assert curve[1].tenor <= curve[|curve| - 1].tenor;
    }
  }

  lemma LastIsLater(swaps: seq<SwapRate>, exp: real -> real, ln: real -> real)
    requires AllQuoted(swaps) && swaps != [] && AllQuoted(SortBy(swaps, SwapTenor()))
    ensures var points := Points(SortBy(swaps, SwapTenor()), exp, ln);
            Spread(swaps) && |swaps| > 1 ==> |points| > 1 && points[|points| - 1].tenor > Earliest(swaps).tenor
  {
    var sorted := SortBy(swaps, SwapTenor());
    SortPermutes(swaps);
    SortBySorts(swaps, SwapTenor());
    SortKeeps(swaps);
    PointTenors(sorted, exp, ln);
    hide Points, SortBy, Quoted;
    if Spread(swaps) && |swaps| > 1 {
      var s :| s in swaps && s.tenor > Earliest(swaps).tenor;
      var k :| 0 <= k < |sorted| && sorted[k] == s;
      if k < |sorted| - 1 {
        assert SwapTenor()(sorted[k]) <= SwapTenor()(sorted[|sorted| - 1]);
      }
    }
  }

  /**
   The short end of every bootstrapped curve: one point is added exactly when the earliest
   maturity is after 0.1 years, and the rate is that of the earliest maturity at every tenor
   before it, and at it unless all of several swaps mature together.
   */
  lemma ShortEnd(swaps: seq<SwapRate>, exp: real -> real, ln: real -> real, tenor: real)
    requires AllQuoted(swaps) && swaps != []
    ensures Quoted(Earliest(swaps))
    ensures var curve, first := Bootstrapped(swaps, exp, ln), Earliest(swaps).tenor;
            && |curve| == |swaps| + (if first > 0.1 then 1 else 0)
            && curve != []
            && (tenor < first || (tenor == first && Spread(swaps)) ==>
                  ZeroRate(curve, tenor) == FirstRate(swaps, exp, ln))
  {
    hide Points, SortBy, Quoted, FirstRate, ZeroRate;
    SortedPoints(swaps, exp, ln);
    BootstrappedPoints(swaps, exp, ln);
    LastIsLater(swaps, exp, ln);
    var points := Points(SortBy(swaps, SwapTenor()), exp, ln);
    hide Bootstrapped, Earliest, Spread;
    OvernightInOrder(points);
    if tenor < points[0].tenor || (tenor == points[0].tenor && Spread(swaps)) {
      if points[0].tenor > 0.1 {
        RateUpToSecond(WithOvernight(points), tenor);
      } else {
        RateAtFirst(points, tenor);
      }
    }
  }

  lemma RateAtFirst(points: seq<CurvePoint>, tenor: real)
    requires points != [] && tenor <= points[0].tenor
    ensures ZeroRate(points, tenor) == points[0].zeroRate
  {
  }

  /** When the earliest swap pays at maturity only, its factor is 1 / (1 + rate * period). */
  lemma OneCouponFactor(exp: real -> real, s: SwapRate)
    requires Quoted(s) && s.tenor == 1.0 / s.frequency
    ensures FinalDf([], exp, s) * (1.0 + s.rate / s.frequency) == 1.0
  {
    var dt := 1.0 / s.frequency;
    assert Grid(dt, 0) == 0.0 && Grid(dt, 1) == dt;
    hide Grid, FinalDf;
    FirstSwapFactor(exp, s, 0);
    var df := FinalDf([], exp, s);
    assert s.rate * dt == s.rate / s.frequency;
    assert Product(0.0 + df, Product(s.rate, dt)) == df * (s.rate * dt);
  }
}
