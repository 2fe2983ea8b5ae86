/** `calculate_metrics`: total return, annualised volatility, Sharpe ratio and
    maximum drawdown of a loaded price series, over exact reals. The square
    root is a parameter: only the guard around it and the shape of each
    formula are modelled, not its numeric value. */
module Metrics {
  import opened Wrappers
  import opened Series
  import opened Returns
  import opened Drawdown

  /** The annual risk-free rate used when the caller gives none. */
  const DefaultRiskFreeRate: real := 0.04

  /** Days per year, for daily rates and for annualising. */
  const DaysPerYear: real := 365.0

  /** The four metrics. A missing volatility stands for NaN, which the source
      produces when there are fewer than two returns. */
  datatype Metrics = Metrics(totalReturn: real, volatility: Option<real>, sharpeRatio: real, maxDrawdown: real)

  /** The Price column of a loaded series. */
  function Prices(s: seq<Dated<real>>): (p: seq<real>)
    ensures |p| == |s|
    ensures forall i :: 0 <= i < |s| ==> p[i] == s[i].value
  {
    seq(|s|, i requires 0 <= i < |s| => s[i].value)
  }

  function Sum(s: seq<real>): real {
    if s == [] then 0.0 else s[0] + Sum(s[1..])
  }

  /** `mean()`: the value whose `|s|` copies add up to the sum. */
  function Mean(s: seq<real>): (mu: real)
    requires |s| > 0
    ensures mu * (|s| as real) == Sum(s)
  {
    Sum(s) / (|s| as real)
  }

  /** Multiplication behind a name, so that a square reaches the solver in
      one form only. */
  function Times(a: real, b: real): real {
    a * b
  }

  lemma TimesSign(a: real, b: real)
    ensures (a > 0.0 && b > 0.0) || (a < 0.0 && b < 0.0) ==> Times(a, b) > 0.0
    ensures a == 0.0 ==> Times(a, b) == 0.0
  {
    if a < 0.0 && b < 0.0 {
      assert a * b == (-a) * (-b);
    }
  }

  function Square(x: real): real {
    Times(x, x)
  }

  /** A square is never negative, and positive unless the number is zero. */
  lemma SquareSign(x: real)
    ensures Square(x) >= 0.0
    ensures x != 0.0 ==> Square(x) > 0.0
  {
    TimesSign(x, x);
  }

  /** The sum of the squared deviations of `s` from `mu`. */
  function SquaredDeviations(s: seq<real>, mu: real): (t: real)
    ensures t >= 0.0
  {
    if s == [] then 0.0
    else
      SquareSign(s[0] - mu);
      Square(s[0] - mu) + SquaredDeviations(s[1..], mu)
  }

  /** `std()` squared: the sample variance, with one degree of freedom
      subtracted from the count. */
  function SampleVariance(s: seq<real>): (v: real)
    requires |s| >= 2
    ensures v >= 0.0
  {
    NonNegativeQuotient(SquaredDeviations(s, Mean(s)), (|s| - 1) as real);
    SquaredDeviations(s, Mean(s)) / ((|s| - 1) as real)
  }

  /** `std()`: missing (NaN) with fewer than two values. */
  function StdDev(r: seq<real>, sqrt: real -> real): (sd: Option<real>)
    ensures sd.None? <==> |r| < 2
  {
    if |r| < 2 then None else Some(sqrt(SampleVariance(r)))
  }

  /** The standard deviation of the returns, annualised by the square root of
      the days per year; missing when the standard deviation is. */
  function Volatility(r: seq<real>, sqrt: real -> real): (v: Option<real>)
    ensures v.None? <==> StdDev(r, sqrt).None?
  {
    match StdDev(r, sqrt)
    case None => None
    case Some(sd) => Some(sd * sqrt(DaysPerYear))
  }

  /** Zero when the standard deviation of the returns is zero or missing,
      otherwise the mean excess daily return over the standard deviation,
      annualised. */
  function SharpeRatio(r: seq<real>, riskFreeRate: real, sqrt: real -> real): (sharpe: real)
    ensures StdDev(r, sqrt) in {None, Some(0.0)} ==> sharpe == 0.0
    ensures StdDev(r, sqrt).Some? && StdDev(r, sqrt).value != 0.0 ==>
              sharpe == (Mean(r) - riskFreeRate / DaysPerYear) / StdDev(r, sqrt).value * sqrt(DaysPerYear)
  {
    if |r| < 2 then 0.0
    else
      var sd := sqrt(SampleVariance(r));
      if sd == 0.0 then 0.0
      else (Mean(r) - riskFreeRate / DaysPerYear) / sd * sqrt(DaysPerYear)
  }

  /** The divisions `calculate_metrics` makes are all by non-zero numbers:
      the total return divides by the first price, each return by the price
      before it (every price but the last) and each drawdown by its running
      peak. */
  predicate Divisible(p: seq<real>) {
    && (|p| > 0 ==> p[0] != 0.0)
    && NonZeroBeforeLast(p)
    && NonZero(CumMax(p))
  }

  /** `calculate_metrics(df, risk_free_rate)` on the loaded series; the rate
      defaults to 4% a year. */
  function CalculateMetrics(series: seq<Dated<real>>, sqrt: real -> real,
                            riskFreeRate: real := DefaultRiskFreeRate): (m: Metrics)
    requires Divisible(Prices(series))
    ensures |series| == 0 ==> m == Metrics(0.0, Some(0.0), 0.0, 0.0)
    ensures |series| == 1 ==> m == Metrics(0.0, None, 0.0, 0.0)
    ensures |series| <= 2 ==> m.sharpeRatio == 0.0
    ensures m.volatility.None? <==> 0 < |series| <= 2
    ensures |series| > 0 ==>
              var p := Prices(series);
              && m.totalReturn == TotalReturn(p)
              && m.volatility == Volatility(PctChange(p), sqrt)
              && m.sharpeRatio == SharpeRatio(PctChange(p), riskFreeRate, sqrt)
              && m.maxDrawdown == MaxDrawdown(p)
    ensures |series| > 0 ==>
              (m.totalReturn == -1.0 <==> series[|series| - 1].value == 0.0)
    ensures NonNegative(Prices(series)) ==>
              -1.0 <= m.totalReturn && -1.0 <= m.maxDrawdown <= 0.0
    ensures NonNegative(Prices(series)) && |series| > 0 ==>
              (m.maxDrawdown == 0.0 <==> NonDecreasing(Prices(series)))
    ensures Positive(Prices(series)) ==> -1.0 < m.totalReturn && -1.0 < m.maxDrawdown
  {
    var p := Prices(series);
    if |p| == 0 then Metrics(0.0, Some(0.0), 0.0, 0.0)
    else
      var r := PctChange(p);
      PriceMetricBounds(p);
      Metrics(TotalReturn(p), Volatility(r, sqrt), SharpeRatio(r, riskFreeRate, sqrt), MaxDrawdown(p))
  }

  /** The bounds the total return and the maximum drawdown keep. */
  lemma PriceMetricBounds(p: seq<real>)
    requires |p| > 0 && Divisible(p)
    ensures |p| == 1 ==> TotalReturn(p) == 0.0 && MaxDrawdown(p) == 0.0
    ensures NonNegative(p) ==>
              && -1.0 <= TotalReturn(p)
              && -1.0 <= MaxDrawdown(p) <= 0.0
              && (MaxDrawdown(p) == 0.0 <==> NonDecreasing(p))
    ensures Positive(p) ==> -1.0 < TotalReturn(p) && -1.0 < MaxDrawdown(p)
  {
    TotalReturnBounds(p);
    if NonNegative(p) {
      MaxDrawdownBounds(p);
      MaxDrawdownZero(p);
    }
    if |p| == 1 {
      OnePointNoDrawdown(p);
    }
  }

  lemma PositiveProduct(a: real, b: real)
    requires a > 0.0 && b > 0.0
    ensures a * b > 0.0
  {
  }

  /** A one-point series has no drawdown. */
  lemma OnePointNoDrawdown(p: seq<real>)
    requires |p| == 1 && NonZero(CumMax(p))
    ensures MaxDrawdown(p) == 0.0
  {
    MinOfOne(Drawdowns(p));
    FirstDrawdownZero(p);
  }

  predicate Constant(s: seq<real>) {
    forall i, j :: 0 <= i < |s| && 0 <= j < |s| ==> s[i] == s[j]
  }

  /** The deviations from `mu` are all zero exactly when every value is `mu`. */
  lemma {:induction false} SquaredDeviationsZero(s: seq<real>, mu: real)
    ensures SquaredDeviations(s, mu) == 0.0 <==> forall i :: 0 <= i < |s| ==> s[i] == mu
  {
    if s != [] {
      SquaredDeviationsZero(s[1..], mu);
      assert forall i :: 1 <= i < |s| ==> s[i] == s[1..][i - 1];
      if s[0] != mu {
        SquareSign(s[0] - mu);
        assert SquaredDeviations(s, mu) > 0.0;
      } else {
        assert Square(s[0] - mu) == 0.0;
      }
    }
  }

  /** The sum of `n` copies of `c` is `n * c`. */
  lemma {:induction false} SumConstant(s: seq<real>, c: real)
    requires forall i :: 0 <= i < |s| ==> s[i] == c
    ensures Sum(s) == (|s| as real) * c
  {
    if s != [] {
      SumConstant(s[1..], c);
      assert (|s| as real) * c == c + ((|s| - 1) as real) * c;
    }
  }

  /** The mean of a constant sequence is that constant. */
  lemma MeanConstant(s: seq<real>)
    requires |s| > 0 && Constant(s)
    ensures Mean(s) == s[0]
  {
    SumConstant(s, s[0]);
    CancelFactor(Sum(s), |s| as real, s[0]);
  }

  /** The sample variance is zero exactly when all values are equal. */
  lemma VarianceZeroIffConstant(s: seq<real>)
    requires |s| >= 2
    ensures SampleVariance(s) == 0.0 <==> Constant(s)
  {
    var mu := Mean(s);
    var n := (|s| - 1) as real;
    SquaredDeviationsZero(s, mu);
    if Constant(s) {
      MeanConstant(s);
      assert SquaredDeviations(s, mu) == 0.0;
    }
    if SampleVariance(s) == 0.0 {
      assert SquaredDeviations(s, mu) / n == 0.0;
      ZeroQuotient(SquaredDeviations(s, mu), n);
    }
  }

  lemma ZeroQuotient(a: real, b: real)
    requires b > 0.0 && a / b == 0.0
    ensures a == 0.0
  {
    assert (a / b) * b == a;
  }

  /** Constant returns have zero standard deviation, so the Sharpe ratio is
      zero, whenever the square root of zero is zero. */
  lemma ConstantReturnsNoSharpe(r: seq<real>, riskFreeRate: real, sqrt: real -> real)
    requires Constant(r) && sqrt(0.0) == 0.0
    ensures SharpeRatio(r, riskFreeRate, sqrt) == 0.0
  {
    if |r| >= 2 {
      VarianceZeroIffConstant(r);
    }
  }

  /** With a positive standard deviation and annualising factor, the Sharpe
      ratio has the sign of the mean excess daily return. */
  lemma SharpeSign(r: seq<real>, riskFreeRate: real, sqrt: real -> real)
    requires |r| >= 2 && sqrt(SampleVariance(r)) > 0.0 && sqrt(DaysPerYear) > 0.0
    ensures SharpeRatio(r, riskFreeRate, sqrt) > 0.0 <==> Mean(r) > riskFreeRate / DaysPerYear
    ensures SharpeRatio(r, riskFreeRate, sqrt) < 0.0 <==> Mean(r) < riskFreeRate / DaysPerYear
  {
    var excess := Mean(r) - riskFreeRate / DaysPerYear;
    var sd := sqrt(SampleVariance(r));
    var k := sqrt(DaysPerYear);
    SignOfScaled(excess, sd, k);
  }

  /** Dividing by and multiplying by positive numbers keeps the sign. */
  lemma SignOfScaled(x: real, d: real, k: real)
    requires d > 0.0 && k > 0.0
    ensures x / d * k > 0.0 <==> x > 0.0
    ensures x / d * k < 0.0 <==> x < 0.0
  {
    var q := x / d;
    assert q * d == x;
    if x > 0.0 {
      PositiveFactor(q, d);
      PositiveProduct(q, k);
    } else if x < 0.0 {
      PositiveFactor(-q, d);
      PositiveProduct(-q, k);
    } else {
      ZeroFactor(q, d);
    }
  }

  lemma PositiveFactor(a: real, b: real)
    requires b > 0.0 && a * b > 0.0
    ensures a > 0.0
  {
  }

  lemma ZeroFactor(a: real, b: real)
    requires b > 0.0 && a * b == 0.0
    ensures a == 0.0
  {
  }

  /** Prices 100, 110, 99, 121: returns 10%, -10% and 22/99, a total return
      of 21% and a maximum drawdown of 10%. */
  lemma WorkedScenario()
    ensures Divisible([100.0, 110.0, 99.0, 121.0])
    ensures PctChange([100.0, 110.0, 99.0, 121.0]) == [0.1, -0.1, 22.0 / 99.0]
    ensures TotalReturn([100.0, 110.0, 99.0, 121.0]) == 0.21
    ensures MaxDrawdown([100.0, 110.0, 99.0, 121.0]) == -0.1
  {
    var p := [100.0, 110.0, 99.0, 121.0];
    ScenarioReturns();
    ScenarioPeaks();
    ScenarioDrawdowns();
    var d := Drawdowns(p);
    assert MaxDrawdown(p) <= d[2];
  }

  lemma ScenarioDrawdowns()
    ensures NonZero(CumMax([100.0, 110.0, 99.0, 121.0]))
    ensures Drawdowns([100.0, 110.0, 99.0, 121.0]) == [0.0, 0.0, -0.1, 0.0]
  {
    ScenarioPeaks();
  }

  lemma ScenarioReturns()
    ensures NonZeroBeforeLast([100.0, 110.0, 99.0, 121.0])
    ensures PctChange([100.0, 110.0, 99.0, 121.0]) == [0.1, -0.1, 22.0 / 99.0]
  {
    var p := [100.0, 110.0, 99.0, 121.0];
    assert p[1..] == [110.0, 99.0, 121.0];
    assert p[1..][1..] == [99.0, 121.0];
    assert p[1..][1..][1..] == [121.0];
  }

  lemma ScenarioPeaks()
    ensures CumMax([100.0, 110.0, 99.0, 121.0]) == [100.0, 110.0, 110.0, 121.0]
  {
    var p := [100.0, 110.0, 99.0, 121.0];
    var m := CumMax(p);
    CumMaxFirst(p);
    CumMaxAtNewHigh(p, 1);
    CumMaxAtNewHigh(p, 3);
    assert m[1] <= m[2];
    var j :| 0 <= j <= 2 && m[2] == p[j];
  }

  /** A coin that goes from 100 to 0: every division is still by a non-zero
      number, the total return and the maximum drawdown are both -100%, the
      single return leaves the volatility missing and the Sharpe ratio 0. */
  lemma ZeroPriceScenario(sqrt: real -> real)
    ensures Divisible([100.0, 0.0])
    ensures CalculateMetrics([Dated(1, 100.0), Dated(2, 0.0)], sqrt) == Metrics(-1.0, None, 0.0, -1.0)
  {
    ZeroPriceDrawdown();
    assert Prices([Dated(1, 100.0), Dated(2, 0.0)]) == [100.0, 0.0];
  }

  lemma ZeroPriceDrawdown()
    ensures Divisible([100.0, 0.0])
    ensures MaxDrawdown([100.0, 0.0]) == -1.0
  {
    var p := [100.0, 0.0];
    ZeroPricePeaks();
    assert Drawdowns(p)[1] == -1.0;
    assert MaxDrawdown(p) <= Drawdowns(p)[1];
  }

  lemma ZeroPricePeaks()
    ensures CumMax([100.0, 0.0]) == [100.0, 100.0]
  {
    var p := [100.0, 0.0];
    var m := CumMax(p);
    CumMaxFirst(p);
    var j :| 0 <= j <= 1 && m[1] == p[j];
  }
}
