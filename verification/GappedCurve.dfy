/**
 Par rates across one missing maturity. While the curve is built, the missing coupon date
 is discounted at the last rate so far; on the finished curve it lies between two points
 and gets the rate half-way between theirs.
 */
module GappedCurve {
  import opened Arithmetic
  import opened Wrappers
  import opened YieldCurve

  /** A good ladder of n swaps, and one swap that matures after n + 2 periods. */
  ghost predicate SkipsOne(ladder: seq<SwapRate>, s: SwapRate, frequency: real, exp: real -> real, ln: real -> real) {
    && AreInverse(exp, ln)
    && ladder != [] && GoodLadder(ladder, frequency, exp, ln)
    && Quoted(s) && s.frequency == frequency && s.tenor == Grid(Period(frequency), |ladder| + 2)
  }

  /** The factor solved for that swap is positive as well. */
  ghost predicate IsGapped(ladder: seq<SwapRate>, s: SwapRate, frequency: real, exp: real -> real, ln: real -> real) {
    SkipsOne(ladder, s, frequency, exp, ln) && FinalDf(Points(ladder, exp, ln), exp, s) > 0.0
  }

  /** The zero rate at the end of the ladder. */
  function LastRate(ladder: seq<SwapRate>, exp: real -> real, ln: real -> real): real
    requires ladder != [] && AllQuoted(ladder)
  {
    Points(ladder, exp, ln)[|ladder| - 1].zeroRate
  }

  /** The discount factor when that rate is held flat beyond the ladder. */
  function FlatFactor(ladder: seq<SwapRate>, exp: real -> real, ln: real -> real, tenor: real): real
    requires ladder != [] && AllQuoted(ladder)
  {
    DiscountFactor(exp, LastRate(ladder, exp, ln), tenor)
  }

  /** The discount factor solved for the swap after the gap. */
  function GapDf(ladder: seq<SwapRate>, s: SwapRate, exp: real -> real, ln: real -> real): real
    requires AllQuoted(ladder) && Quoted(s)
  {
    FinalDf(Points(ladder, exp, ln), exp, s)
  }

  function GapRate(ladder: seq<SwapRate>, s: SwapRate, exp: real -> real, ln: real -> real): real
    requires AllQuoted(ladder) && Quoted(s)
  {
    ContinuousRate(ln, GapDf(ladder, s, exp, ln), s.tenor)
  }

  // ----- While the curve is built -----

  lemma FlatBeyond(points: seq<CurvePoint>, exp: real -> real, tenor: real)
    requires Increasing(points) && points != [] && tenor >= points[|points| - 1].tenor
    ensures InterpolatedDf(points, exp, tenor) == DiscountFactor(exp, points[|points| - 1].zeroRate, tenor)
  {
    hide DiscountFactor, Lerp, Segment;
    SortedUnchanged(points, TenorOf());
    if |points| > 1 {
      assert points[0].tenor < points[|points| - 1].tenor;
    }
  }

  /** The factor after the gap is solved with the missing date discounted at the last rate. */
  lemma GapFactor(ladder: seq<SwapRate>, s: SwapRate, frequency: real, exp: real -> real, ln: real -> real)
    requires SkipsOne(ladder, s, frequency, exp, ln)
    ensures var dt, n := Period(frequency), |ladder|;
            var c := Product(s.rate, dt);
            && 1.0 + c != 0.0
            && GapDf(ladder, s, exp, ln)
                 == SolvedFactor(
                      Product(LadderSum(ladder, exp, ln, n) + FlatFactor(ladder, exp, ln, Grid(dt, n + 1)), c), c)
  {
    hide Grid, Points, LadderDf, LadderSum, InterpolatedDf, SolvedFactor, Product, Period, PositiveFactors, AreInverse,
      AreExpAndLn, DiscountFactor, Coupons, Increasing;
    var dt, n := Period(frequency), |ladder|;
    var points, c := Points(ladder, exp, ln), Product(s.rate, dt);
    PeriodPositive(frequency);
    GridStep(dt, n);
    GridStep(dt, n + 1);
    CouponsToMaturity(dt, n + 1, s.tenor - dt / 2.0);
    assert GridDates(dt, n + 1)[..n] == GridDates(dt, n);
    assert ladder[..n] == ladder;
    LadderPoints(ladder, frequency, exp, ln);
    FlatBeyond(points, exp, Grid(dt, n + 1));
    InverseIsExpAndLn(exp, ln);
    CouponValueOfLadder(ladder, frequency, exp, ln, n, n, s.rate);
    ProductDistributes(LadderSum(ladder, exp, ln, n), FlatFactor(ladder, exp, ln, Grid(dt, n + 1)), c);
  }

  lemma InverseIsExpAndLn(exp: real -> real, ln: real -> real)
    requires AreInverse(exp, ln)
    ensures AreExpAndLn(exp, ln)
  {
  }

  // ----- The finished curve -----

  function GapCurve(ladder: seq<SwapRate>, s: SwapRate, exp: real -> real, ln: real -> real): seq<CurvePoint>
    requires AllQuoted(ladder) && Quoted(s)
  {
    WithOvernight(Points(ladder, exp, ln) + [CurvePoint(s.tenor, GapRate(ladder, s, exp, ln))])
  }

  lemma GapCurveIncreases(ladder: seq<SwapRate>, s: SwapRate, frequency: real, exp: real -> real, ln: real -> real)
    requires IsGapped(ladder, s, frequency, exp, ln)
    ensures Increasing(GapCurve(ladder, s, exp, ln))
  {
    hide Grid, Points, AreInverse, PositiveFactors, FinalDf;
    var points, dt := Points(ladder, exp, ln), Period(frequency);
    PeriodPositive(frequency);
    LadderPoints(ladder, frequency, exp, ln);
    var all := points + [CurvePoint(s.tenor, GapRate(ladder, s, exp, ln))];
    forall k | 0 <= k < |points|
      ensures points[k].tenor < s.tenor
    {
      GridIncreases(dt, k + 1, |ladder| + 2);
    }
    OvernightIncreases(all);
  }

  /** Where the points of the curve stand on the finished one. */
  function Offset(ladder: seq<SwapRate>, s: SwapRate, exp: real -> real, ln: real -> real): nat
    requires AllQuoted(ladder) && Quoted(s)
  {
    if |GapCurve(ladder, s, exp, ln)| == |ladder| + 1 then 0 else 1
  }

  lemma GapPoints(ladder: seq<SwapRate>, s: SwapRate, exp: real -> real, ln: real -> real, k: nat)
    requires AllQuoted(ladder) && Quoted(s) && k <= |ladder|
    ensures var curve, at := GapCurve(ladder, s, exp, ln), Offset(ladder, s, exp, ln) + k;
            && at < |curve|
            && curve[at] == if k < |ladder| then Points(ladder, exp, ln)[k] else CurvePoint(s.tenor, GapRate(ladder, s, exp, ln))
  {
    hide Points, GapRate;
  }

  /** The finished curve discounts every maturity of the ladder by its factor. */
  lemma GapKnot(ladder: seq<SwapRate>, s: SwapRate, frequency: real, exp: real -> real, ln: real -> real, k: nat)
    requires IsGapped(ladder, s, frequency, exp, ln) && k < |ladder|
    ensures GapCurve(ladder, s, exp, ln) != []
    ensures Discount(GapCurve(ladder, s, exp, ln), exp, Grid(Period(frequency), k + 1)) == LadderDf(ladder, exp, ln, k)
  {
    hide Grid, Points, LadderDf, Discount, GapCurve, ContinuousRate, FinalDf, Offset, Period, Increasing;
    InverseIsExpAndLn(exp, ln);
    GapCurveIncreases(ladder, s, frequency, exp, ln);
    GapPoints(ladder, s, exp, ln, k);
    PointsAt(ladder, exp, ln, k);
    KnotDiscounts(GapCurve(ladder, s, exp, ln), exp, ln, Offset(ladder, s, exp, ln) + k, LadderDf(ladder, exp, ln, k));
  }

  /** The finished curve discounts the last maturity by the factor solved for it. */
  lemma GapLast(ladder: seq<SwapRate>, s: SwapRate, frequency: real, exp: real -> real, ln: real -> real)
    requires IsGapped(ladder, s, frequency, exp, ln)
    ensures GapCurve(ladder, s, exp, ln) != []
    ensures Discount(GapCurve(ladder, s, exp, ln), exp, s.tenor) == GapDf(ladder, s, exp, ln)
  {
    hide Grid, Points, LadderDf, Discount, GapCurve, ContinuousRate, FinalDf, Offset, Increasing;
    InverseIsExpAndLn(exp, ln);
    GapCurveIncreases(ladder, s, frequency, exp, ln);
    GapPoints(ladder, s, exp, ln, |ladder|);
    KnotDiscounts(
      GapCurve(ladder, s, exp, ln), exp, ln, Offset(ladder, s, exp, ln) + |ladder|, GapDf(ladder, s, exp, ln));
  }

  lemma LerpHalfWay(x: real, h: real, y0: real, y1: real)
    requires h > 0.0
    ensures Lerp(x - h, y0, x + h, y1, x) == (y0 + y1) / 2.0
  {
    HalfOfQuotient(y1 - y0, h);
  }

  lemma HalfOfQuotient(y: real, h: real)
    requires h > 0.0
    ensures Product(y, h) / (2.0 * h) == y / 2.0
  {
    assert Product(y, h) == (y / 2.0) * (2.0 * h);
  }

  /** The finished curve gives the missing date the rate half-way between its neighbours. */
  lemma GapBetween(ladder: seq<SwapRate>, s: SwapRate, frequency: real, exp: real -> real, ln: real -> real)
    requires IsGapped(ladder, s, frequency, exp, ln)
    ensures GapCurve(ladder, s, exp, ln) != []
    ensures ZeroRate(GapCurve(ladder, s, exp, ln), Grid(Period(frequency), |ladder| + 1))
         == (LastRate(ladder, exp, ln) + GapRate(ladder, s, exp, ln)) / 2.0
  {
    hide Grid, Points, LadderDf, ZeroRate, GapCurve, GapRate, FinalDf, Offset, Period, Increasing, Lerp, AreInverse,
      PositiveFactors;
    var n, dt, curve := |ladder|, Period(frequency), GapCurve(ladder, s, exp, ln);
    PeriodPositive(frequency);
    GapCurveIncreases(ladder, s, frequency, exp, ln);
    GapPoints(ladder, s, exp, ln, n - 1);
    GapPoints(ladder, s, exp, ln, n);
    LadderPoints(ladder, frequency, exp, ln);
    GridStep(dt, n);
    GridStep(dt, n + 1);
    RateOnSegment(curve, Offset(ladder, s, exp, ln) + n - 1, Grid(dt, n + 1));
    LerpHalfWay(Grid(dt, n + 1), dt, LastRate(ladder, exp, ln), GapRate(ladder, s, exp, ln));
  }

  lemma GridSumStep(curve: seq<CurvePoint>, exp: real -> real, dt: real, j: nat)
    requires curve != []
    ensures DiscountSum(curve, exp, GridDates(dt, j + 1))
         == DiscountSum(curve, exp, GridDates(dt, j)) + Discount(curve, exp, Grid(dt, j + 1))
  {
    hide Grid, Discount;
    assert GridDates(dt, j + 1)[..j] == GridDates(dt, j);
  }

  lemma {:induction false} GapSum(
    ladder: seq<SwapRate>, s: SwapRate, frequency: real, exp: real -> real, ln: real -> real, j: nat)
    requires IsGapped(ladder, s, frequency, exp, ln) && j <= |ladder|
    ensures GapCurve(ladder, s, exp, ln) != []
    ensures DiscountSum(GapCurve(ladder, s, exp, ln), exp, GridDates(Period(frequency), j)) == LadderSum(ladder, exp, ln, j)
  {
    hide Grid, Points, LadderDf, Discount, GapCurve, Period, FinalDf, PositiveFactors, AreInverse;
    GapLast(ladder, s, frequency, exp, ln);
    if j == 0 {
    } else {
      GapSum(ladder, s, frequency, exp, ln, j - 1);
      GapKnot(ladder, s, frequency, exp, ln, j - 1);
      GridSumStep(GapCurve(ladder, s, exp, ln), exp, Period(frequency), j - 1);
    }
  }

  /** The rate that the finished curve gives the missing date. */
  function BetweenFactor(ladder: seq<SwapRate>, s: SwapRate, exp: real -> real, ln: real -> real, tenor: real): real
    requires ladder != [] && AllQuoted(ladder) && Quoted(s)
  {
    DiscountFactor(exp, (LastRate(ladder, exp, ln) + GapRate(ladder, s, exp, ln)) / 2.0, tenor)
  }

  lemma GapBetweenFactor(ladder: seq<SwapRate>, s: SwapRate, frequency: real, exp: real -> real, ln: real -> real)
    requires IsGapped(ladder, s, frequency, exp, ln)
    ensures GapCurve(ladder, s, exp, ln) != []
    ensures var t := Grid(Period(frequency), |ladder| + 1);
            Discount(GapCurve(ladder, s, exp, ln), exp, t) == BetweenFactor(ladder, s, exp, ln, t)
  {
    hide Grid, GapCurve, Period, ZeroRate, DiscountFactor, LastRate, GapRate, IsLadder, PositiveFactors, AreInverse;
    GapBetween(ladder, s, frequency, exp, ln);
  }

  lemma GapSumToMaturity(ladder: seq<SwapRate>, s: SwapRate, frequency: real, exp: real -> real, ln: real -> real)
    requires IsGapped(ladder, s, frequency, exp, ln)
    ensures GapCurve(ladder, s, exp, ln) != []
    ensures var dt, n := Period(frequency), |ladder|;
            DiscountSum(GapCurve(ladder, s, exp, ln), exp, GridDates(dt, n + 2))
              == LadderSum(ladder, exp, ln, n) + BetweenFactor(ladder, s, exp, ln, Grid(dt, n + 1)) + GapDf(ladder, s, exp, ln)
  {
    hide Grid, LadderSum, GapCurve, Period, Discount, DiscountSum, GridDates, FinalDf, BetweenFactor, AreInverse, AreExpAndLn,
      PositiveFactors, GapDf;
    var n, dt := |ladder|, Period(frequency);
    GapSum(ladder, s, frequency, exp, ln, n);
    GapBetweenFactor(ladder, s, frequency, exp, ln);
    GapLast(ladder, s, frequency, exp, ln);
    GridSumStep(GapCurve(ladder, s, exp, ln), exp, dt, n);
    GridSumStep(GapCurve(ladder, s, exp, ln), exp, dt, n + 1);
  }

  // ----- When the par rate returns -----

  /** Equal discount factors at a positive tenor come from equal rates. */
  lemma FactorsDiffer(exp: real -> real, ln: real -> real, r: real, r': real, tenor: real)
    requires AreInverse(exp, ln) && tenor > 0.0
    ensures DiscountFactor(exp, r, tenor) == DiscountFactor(exp, r', tenor) <==> r == r'
  {
    assert ln(exp(-Product(r, tenor))) == -Product(r, tenor) && ln(exp(-Product(r', tenor))) == -Product(r', tenor);
    RatesDiffer(r, r', tenor);
    hide Product;
  }

  lemma RatesDiffer(r: real, r': real, tenor: real)
    requires tenor > 0.0
    ensures Product(r, tenor) == Product(r', tenor) <==> r == r'
  {
    ProductDistributes(r - r', r', tenor);
    ProductVanishes(r - r', tenor);
    hide Product;
  }

  /** Two annuities value the same coupon alike exactly when they agree or there is no coupon. */
  lemma AnnuitiesAgree(sum: real, sum': real, rate: real, dt: real, x: real)
    requires sum' > 0.0 && dt > 0.0 && Product(sum, Product(rate, dt)) == x
    ensures Product(sum', dt) > 0.0
    ensures x / Product(sum', dt) == rate <==> rate == 0.0 || sum == sum'
  {
    ProductPositive(sum', dt);
    var a, c := Product(sum', dt), Product(rate, dt);
    assert Product(sum', c) == rate * a;
    assert x / a == rate <==> x == rate * a;
    ProductDistributes(sum - sum', sum', c);
    ProductVanishes(sum - sum', c);
    ProductVanishes(rate, dt);
    hide Product;
  }

  lemma GapCurveIsBootstrapped(
    swaps: seq<SwapRate>, ladder: seq<SwapRate>, s: SwapRate, frequency: real, exp: real -> real, ln: real -> real)
    requires IsGapped(ladder, s, frequency, exp, ln)
    ensures SortBy(swaps, SwapTenor()) == ladder + [s] ==>
              AllQuoted(swaps) && Bootstrapped(swaps, exp, ln) == GapCurve(ladder, s, exp, ln)
  {
    hide Quoted, AreInverse, PositiveFactors, IsLadder, SortBy, FinalDf, ContinuousRate, WithOvernight, Increasing;
    SortKeeps(swaps);
    var sorted := ladder + [s];
    assert sorted[..|sorted| - 1] == ladder;
    assert forall t :: t in sorted <==> t in ladder || t == s;
    GapCurveIncreases(ladder, s, frequency, exp, ln);
    SortedCurve(GapCurve(ladder, s, exp, ln));
  }

  lemma SortedCurve(curve: seq<CurvePoint>)
    requires Increasing(curve)
    ensures SortBy(curve, TenorOf()) == curve
  {
    SortedUnchanged(curve, TenorOf());
  }

  /**
   Across one missing maturity the par rate returns the input rate exactly when that rate
   is zero or the solved zero rate continues the last one flat.
   */
  lemma GapReturnsExactly(
    swaps: seq<SwapRate>, ladder: seq<SwapRate>, s: SwapRate, frequency: real, exp: real -> real, ln: real -> real)
    requires IsGapped(ladder, s, frequency, exp, ln)
    ensures SortBy(swaps, SwapTenor()) == ladder + [s] ==>
              && AllQuoted(swaps)
              && (ParRate(Bootstrapped(swaps, exp, ln), exp, s.tenor, frequency) == Ok(s.rate) <==>
                  s.rate == 0.0 || GapRate(ladder, s, exp, ln) == LastRate(ladder, exp, ln))
  {
    hide Grid, Points, LadderDf, LadderSum, GapCurve, Period, FinalDf, LastRate, GapRate, Discount, DiscountSum, SolvedFactor,
      Bootstrapped, SortBy, DiscountFactor, Product, Coupons, GridDates, GapDf, AreExpAndLn, PositiveFactors, AreInverse;
    var n, dt := |ladder|, Period(frequency);
    PeriodPositive(frequency);
    GapCurveIsBootstrapped(swaps, ladder, s, frequency, exp, ln);
    GapFactor(ladder, s, frequency, exp, ln);
    GapSumToMaturity(ladder, s, frequency, exp, ln);
    GapLast(ladder, s, frequency, exp, ln);
    GridStep(dt, n + 2);
    CouponsToMaturity(dt, n + 2, s.tenor);
    var sum, df := LadderSum(ladder, exp, ln, n), GapDf(ladder, s, exp, ln);
    var flat, between := FlatFactor(ladder, exp, ln, Grid(dt, n + 1)), BetweenFactor(ladder, s, exp, ln, Grid(dt, n + 1));
    ParEquation(df, sum + flat, Product(s.rate, dt));
    LadderSumPositive(ladder, exp, ln, n);
    FactorIsPositive(exp, ln, (LastRate(ladder, exp, ln) + GapRate(ladder, s, exp, ln)) / 2.0, Grid(dt, n + 1));
    GapFactorIsPositive(ladder, s, frequency, exp, ln);
    AnnuitiesAgree(sum + flat + df, sum + between + df, s.rate, dt, 1.0 - df);
    GridIncreases(dt, 0, n + 1);
    GridStartsAtZero(dt);
    FactorsDiffer(exp, ln, LastRate(ladder, exp, ln), (LastRate(ladder, exp, ln) + GapRate(ladder, s, exp, ln)) / 2.0, Grid(dt, n + 1));
  }

  lemma GridStartsAtZero(dt: real)
    ensures Grid(dt, 0) == 0.0
  {
  }

  lemma FactorIsPositive(exp: real -> real, ln: real -> real, rate: real, tenor: real)
    requires AreInverse(exp, ln)
    ensures DiscountFactor(exp, rate, tenor) > 0.0
  {
  }

  lemma GapFactorIsPositive(ladder: seq<SwapRate>, s: SwapRate, frequency: real, exp: real -> real, ln: real -> real)
    requires IsGapped(ladder, s, frequency, exp, ln)
    ensures GapDf(ladder, s, exp, ln) > 0.0
  {
    hide FinalDf;
  }

  /** The solved rate continues the last one exactly when the input is the par rate of the earlier curve held flat. */
  lemma FlatExactly(ladder: seq<SwapRate>, s: SwapRate, frequency: real, exp: real -> real, ln: real -> real)
    requires IsGapped(ladder, s, frequency, exp, ln)
    ensures var dt, n := Period(frequency), |ladder|;
            var last := FlatFactor(ladder, exp, ln, s.tenor);
            GapRate(ladder, s, exp, ln) == LastRate(ladder, exp, ln) <==>
            Product(LadderSum(ladder, exp, ln, n) + FlatFactor(ladder, exp, ln, Grid(dt, n + 1)) + last, Product(s.rate, dt))
              == 1.0 - last
  {
    hide Grid, Points, LadderDf, LadderSum, FinalDf, LastRate, SolvedFactor, DiscountFactor, Product, GapDf, AreExpAndLn, Period;
    var dt, n := Period(frequency), |ladder|;
    GapFactor(ladder, s, frequency, exp, ln);
    InverseIsExpAndLn(exp, ln);
    GapFactorIsPositive(ladder, s, frequency, exp, ln);
    PointDiscounts(exp, ln, GapDf(ladder, s, exp, ln), s.tenor);
    FactorsDiffer(exp, ln, GapRate(ladder, s, exp, ln), LastRate(ladder, exp, ln), s.tenor);
    var sum := LadderSum(ladder, exp, ln, n) + FlatFactor(ladder, exp, ln, Grid(dt, n + 1));
    SolvedExactly(GapDf(ladder, s, exp, ln), sum, Product(s.rate, dt), FlatFactor(ladder, exp, ln, s.tenor));
  }

  lemma SolvedExactly(df: real, sum: real, c: real, last: real)
    requires 1.0 + c != 0.0 && df == SolvedFactor(Product(sum, c), c)
    ensures df == last <==> Product(sum + last, c) == 1.0 - last
  {
    assert Product(df, 1.0 + c) == 1.0 - Product(sum, c);
    ProductDistributes(sum, last, c);
    ProductDistributes(1.0, c, last);
    ProductOfOne(last);
    ProductDistributes(last - df, df, 1.0 + c);
    ProductVanishes(last - df, 1.0 + c);
    hide Product, SolvedFactor;
  }

  // ----- A par rate that does not return -----

  const FIRST := SwapRate(1.0, 0.0, 1.0)
  const THIRD := SwapRate(3.0, 0.25, 1.0)

  lemma YearlyGrid(k: int)
    ensures Period(1.0) == 1.0 && Grid(Period(1.0), k) == k as real
  {
  }

  lemma FirstIsLadder()
    ensures IsLadder([FIRST], 1.0) && AllQuoted([FIRST]) && Quoted(THIRD) && THIRD.tenor == Grid(Period(1.0), 3)
  {
    YearlyGrid(1);
    YearlyGrid(3);
    hide Grid, Period;
    assert Product(0.0, 1.0) == 0.0 && Product(0.25, 1.0) == 0.25;
  }

  lemma NoFactorsYet(swaps: seq<SwapRate>, exp: real -> real, ln: real -> real)
    requires AllQuoted(swaps)
    ensures FactorsPositive(swaps, exp, ln, 0)
  {
  }

  lemma FirstDf(exp: real -> real, ln: real -> real)
    requires AreInverse(exp, ln)
    ensures AllQuoted([FIRST]) && LadderDf([FIRST], exp, ln, 0) == 1.0
  {
    hide *;
    FirstIsLadder();
    InverseIsExpAndLn(exp, ln);
    NothingSummed([FIRST], exp, ln);
    NoFactorsYet([FIRST], exp, ln);
    NoCoupons();
    FactorFromSum([FIRST], 1.0, exp, ln, 0);
  }

  lemma NoCoupons()
    ensures Product(FIRST.rate, Period(1.0)) == 0.0 && SolvedFactor(Product(0.0, 0.0), 0.0) == 1.0
  {
  }

  lemma FirstSum(exp: real -> real, ln: real -> real)
    requires AreInverse(exp, ln)
    ensures AllQuoted([FIRST]) && LadderSum([FIRST], exp, ln, 1) == 1.0
  {
    hide *;
    FirstDf(exp, ln);
    NothingSummed([FIRST], exp, ln);
    LadderSumStep([FIRST], exp, ln, 0);
  }

  lemma FirstRate(exp: real -> real, ln: real -> real)
    requires AreInverse(exp, ln) && exp(0.0) == 1.0
    ensures AllQuoted([FIRST]) && LastRate([FIRST], exp, ln) == 0.0
  {
    FirstDf(exp, ln);
    assert ln(exp(0.0)) == 0.0;
    assert ContinuousRate(ln, 1.0, 1.0) == 0.0;
    hide Points, LadderDf, Quoted, AreInverse, ContinuousRate;
    PointsAt([FIRST], exp, ln, 0);
  }

  /** The first swap pays nothing, so its factor is 1 and its rate 0. */
  lemma FirstFactor(exp: real -> real, ln: real -> real)
    requires AreInverse(exp, ln) && exp(0.0) == 1.0
    ensures AllQuoted([FIRST]) && LadderSum([FIRST], exp, ln, 1) == 1.0
    ensures LastRate([FIRST], exp, ln) == 0.0
    ensures GoodLadder([FIRST], 1.0, exp, ln)
  {
    FirstIsLadder();
    InverseIsExpAndLn(exp, ln);
    FirstDf(exp, ln);
    FirstSum(exp, ln);
    FirstRate(exp, ln);
    hide Points, LadderDf, LadderSum, Quoted, AreExpAndLn, IsLadder, LastRate, AllQuoted, AreInverse;
  }

  lemma ThirdFactor(exp: real -> real, ln: real -> real)
    requires AreInverse(exp, ln) && exp(0.0) == 1.0
    ensures IsGapped([FIRST], THIRD, 1.0, exp, ln) && GapDf([FIRST], THIRD, exp, ln) == 0.4
  {
    FirstIsLadder();
    FirstFactor(exp, ln);
    hide Points, LadderDf, LadderSum, Quoted, AreExpAndLn, IsLadder, Grid, PositiveFactors, FinalDf, LastRate, Period, AllQuoted;
    YearlyGrid(2);
    GapFactor([FIRST], THIRD, 1.0, exp, ln);
    assert FlatFactor([FIRST], exp, ln, 2.0) == 1.0 by {
      ProductOfZero(2.0);
      assert -Product(0.0, 2.0) == 0.0;
    }
    assert Product(THIRD.rate, 1.0) == 0.25;
    assert Product(2.0, 0.25) == 0.5;
    assert SolvedFactor(0.5, 0.25) == 0.4;
  }

  /** Swaps at 0% for one year and 25% for three: the three-year par rate of the finished curve is not 25%. */
  lemma GapBreaksReturn(exp: real -> real, ln: real -> real)
    requires AreInverse(exp, ln) && exp(0.0) == 1.0
    ensures AllQuoted([FIRST, THIRD])
    ensures ParRate(Bootstrapped([FIRST, THIRD], exp, ln), exp, 3.0, 1.0) != Ok(0.25)
  {
    ThirdFactor(exp, ln);
    FirstFactor(exp, ln);
    assert SortBy([FIRST, THIRD], SwapTenor()) == [FIRST] + [THIRD] by {
      SortedUnchanged([FIRST, THIRD], SwapTenor());
    }
    assert exp(ln(0.4)) == 0.4;
    LogOfPart(exp, ln);
    hide SortBy, IsGapped, GapDf, LastRate, Bootstrapped, ParRate, LadderDf, LadderSum, AreInverse, GoodLadder;
    GapReturnsExactly([FIRST, THIRD], [FIRST], THIRD, 1.0, exp, ln);
  }

  lemma LogOfPart(exp: real -> real, ln: real -> real)
    requires AreInverse(exp, ln) && exp(0.0) == 1.0
    ensures ContinuousRate(ln, 0.4, 3.0) != 0.0
  {
    assert exp(ln(0.4)) == 0.4;
    assert ln(0.4) != 0.0;
  }
}
