/** `Metrics`: summary statistics of a backtest — the annualised Sharpe
    ratio of the strategy returns, the maximum drawdown and the total return
    of the equity curve, and the annualised mean return. */
module Metrics {
  import opened Results
  import opened Numeric
  import opened Series
  import Drawdown
  import opened Backtester
  import opened Strategies
  import Volatility

  /** Below this standard deviation the returns count as flat. */
  const MinStdDev: real := 0.00000001

  /** The Sharpe ratio: 0 for fewer than two returns or flat returns;
      otherwise (252 * mean - rf) / (sd * sqrt(252)), sd the sample standard
      deviation. */
  function SharpeValue(sqrt: real -> real, r: seq<real>, rf: real): (ratio: real)
    requires 0.0 < sqrt(Volatility.TradingDays)
    ensures |r| < 2 ==> ratio == 0.0
  {
    if |r| < 2 then 0.0
    else
      var sd := sqrt(SampleVariance(r));
      if sd < MinStdDev then 0.0
      else
        ProductPositive(sd, sqrt(Volatility.TradingDays), Mul(sd, sqrt(Volatility.TradingDays)));
        Div(Mean(r) * Volatility.TradingDays - rf, Mul(sd, sqrt(Volatility.TradingDays)))
  }

  /** The ratio as the code computes it, with None for the NaN it produces:
      for a single return the sum of squares is divided by size() - 1 == 0,
      and 0 / 0 is NaN, which the `std_dev < 1e-8` guard lets through. */
  function SharpeAsWritten(sqrt: real -> real, r: seq<real>, rf: real): (ratio: Option<real>)
    requires 0.0 < sqrt(Volatility.TradingDays)
    ensures ratio.None? <==> |r| == 1
    ensures |r| != 1 ==> ratio == Some(SharpeValue(sqrt, r, rf))
  {
    if |r| == 0 then Some(0.0)
    else if |r| == 1 then None
    else Some(SharpeValue(sqrt, r, rf))
  }

  /** A single return: the code yields NaN where a ratio of 0 is meant. */
  lemma SharpeSingleReturn(sqrt: real -> real, x: real, rf: real)
    requires 0.0 < sqrt(Volatility.TradingDays)
    ensures SqDev([x], Mean([x])) == 0.0
    ensures SharpeAsWritten(sqrt, [x], rf) == None
    ensures SharpeValue(sqrt, [x], rf) == 0.0
  {
    assert [x][..0] == [];
    assert Sum([x]) == Sum([]) + x;
    ConstantSqDev([x], x);
  }

  /** `sharpe(returns, risk_free_rate)`, with single returns mapped to 0. */
  method Sharpe(rets: TimeSeries, riskFree: real, sqrt: real -> real) returns (ratio: real)
    requires 0.0 < sqrt(Volatility.TradingDays)
    ensures ratio == SharpeValue(sqrt, rets.values, riskFree)
  {
    var s := rets.values;
    var n := rets.Size();
    if n < 2 {
      return 0.0;
    }
    assert s[0..n] == s;
    var mean := WindowMean(s, 0, n);
    var variance := WindowSqDev(s, 0, n, mean);
    variance := variance / ((n - 1) as real);
    var stdDev := sqrt(variance);
    if stdDev < MinStdDev {
      return 0.0;
    }
    var annualizedMean := mean * Volatility.TradingDays - riskFree;
    var annualizedStd := Mul(stdDev, sqrt(Volatility.TradingDays));
    ProductPositive(stdDev, sqrt(Volatility.TradingDays), annualizedStd);
    ratio := Div(annualizedMean, annualizedStd);
  }

  /** Returns that never move have a Sharpe ratio of 0. */
  lemma SharpeConstantIsZero(sqrt: real -> real, r: seq<real>, rf: real)
    requires 0.0 < sqrt(Volatility.TradingDays) && sqrt(0.0) == 0.0 && Constant(r)
    ensures SharpeValue(sqrt, r, rf) == 0.0
  {
    if 2 <= |r| {
      ConstantVariance(r);
    }
  }

  /** Past the flatness guard the ratio has the sign of the annualised excess
      return 252 * mean - rf. */
  lemma SharpeSign(sqrt: real -> real, r: seq<real>, rf: real)
    requires 0.0 < sqrt(Volatility.TradingDays) && 2 <= |r| && MinStdDev <= sqrt(SampleVariance(r))
    ensures SharpeValue(sqrt, r, rf) > 0.0 <==> Mean(r) * Volatility.TradingDays > rf
    ensures SharpeValue(sqrt, r, rf) < 0.0 <==> Mean(r) * Volatility.TradingDays < rf
  {
    var sd := sqrt(SampleVariance(r));
    var k := sqrt(Volatility.TradingDays);
    ProductPositive(sd, k, Mul(sd, k));
    QuotientSign(Mean(r) * Volatility.TradingDays - rf, Mul(sd, k));
  }

  /** A higher risk-free rate never raises the ratio. */
  lemma SharpeRiskFreeAntitone(sqrt: real -> real, r: seq<real>, rf: real, rf': real)
    requires 0.0 < sqrt(Volatility.TradingDays) && rf <= rf'
    ensures SharpeValue(sqrt, r, rf') <= SharpeValue(sqrt, r, rf)
  {
    if 2 <= |r| && MinStdDev <= sqrt(SampleVariance(r)) {
      var sd := sqrt(SampleVariance(r));
      var d := Mul(sd, sqrt(Volatility.TradingDays));
      ProductPositive(sd, sqrt(Volatility.TradingDays), d);
      var x := Mean(r) * Volatility.TradingDays;
      QuotientMonotone(x - rf', x - rf, d, Div(x - rf', d), Div(x - rf, d));
    }
  }

  /** `max_drawdown(equity_curve)`: the drawdown module's maximum drawdown. */
  method MaxDrawdown(equity: TimeSeries) returns (r: real)
    requires Drawdown.PeaksNonZero(equity.values)
    ensures r == Drawdown.MaxDrawdownValue(equity.values)
  {
    r := Drawdown.MaxDrawdown(equity);
  }

  /** `total_return(equity_curve)`: 0 for fewer than two points, otherwise the
      relative change from the first point to the last. */
  function TotalReturn(e: seq<real>): (r: real)
    requires |e| < 2 || e[0] != 0.0
    ensures |e| < 2 ==> r == 0.0
  {
    if |e| < 2 then 0.0 else Div(e[|e| - 1] - e[0], e[0])
  }

  /** A curve that starts positive gains over the period exactly when it ends
      above where it started, and loses exactly when it ends below. */
  lemma TotalReturnSign(e: seq<real>)
    requires 2 <= |e| && 0.0 < e[0]
    ensures 0.0 < TotalReturn(e) <==> e[0] < e[|e| - 1]
    ensures TotalReturn(e) < 0.0 <==> e[|e| - 1] < e[0]
  {
    QuotientSign(e[|e| - 1] - e[0], e[0]);
  }

  /** The total return of a backtest's curve is the compounded growth of its
      returns, less one. */
  lemma TotalReturnCompounds(r: seq<real>)
    requires 1 <= |r|
    ensures TotalReturn(EquityValues(r)) == Compounded(r) - 1.0
  {
    EquityClosedForm(r, |r|);
    assert r[..|r|] == r;
    GrowthLessOne(Compounded(r));
  }

  /** Buy and hold earns the total return of the price series itself. */
  lemma BuyHoldTotalReturn(sqrt: real -> real, p: seq<real>)
    requires 2 <= |p| && Divisible(p)
    ensures TotalReturn(EquityValues(StrategyReturnValues(p, SignalValues(sqrt, BuyHold, p)))) == TotalReturn(p)
  {
    var n := |p| - 1;
    BuyHoldTracksPrice(sqrt, p, n);
    TrackedGrowth(p[0], p[n]);
  }

  /** `annual_return(returns)`: 0 for no returns, otherwise 252 times the
      mean daily return. */
  function AnnualReturnValue(r: seq<real>): real
  {
    if |r| == 0 then 0.0 else Mean(r) * Volatility.TradingDays
  }

  method AnnualReturn(rets: TimeSeries) returns (a: real)
    ensures a == AnnualReturnValue(rets.values)
  {
    var n := rets.Size();
    if n == 0 {
      return 0.0;
    }
    assert rets.values[0..n] == rets.values;
    var meanDaily := WindowMean(rets.values, 0, n);
    a := meanDaily * Volatility.TradingDays;
  }

  /** Daily returns between lo and hi give an annual return between 252 lo
      and 252 hi. */
  lemma AnnualReturnBounds(r: seq<real>, lo: real, hi: real)
    requires 0 < |r| && forall i :: 0 <= i < |r| ==> lo <= r[i] <= hi
    ensures lo * Volatility.TradingDays <= AnnualReturnValue(r) <= hi * Volatility.TradingDays
  {
    var n := |r| as real;
    var low := seq(|r|, _ => lo);
    var high := seq(|r|, _ => hi);
    SumMonotone(low, r);
    SumMonotone(r, high);
    SumConstant(low, lo);
    SumConstant(high, hi);
    MeanBetween(Sum(r), n, lo, hi);
  }

  /** A constant daily return c annualises to 252 c. */
  lemma AnnualReturnConstant(r: seq<real>)
    requires 0 < |r| && Constant(r)
    ensures AnnualReturnValue(r) == r[0] * Volatility.TradingDays
  {
    ConstantMean(r);
  }

  lemma GrowthLessOne(c: real)
    ensures Div(Mul(InitialEquity, c) - InitialEquity, InitialEquity) == c - 1.0
  {
  }

  lemma TrackedGrowth(p0: real, pn: real)
    requires p0 != 0.0
    ensures Div(Mul(InitialEquity, Div(pn, p0)) - InitialEquity, InitialEquity) == Div(pn - p0, p0)
  {
    GrowthLessOne(Div(pn, p0));
    RatioLessOne(p0, pn, pn / p0);
  }

  lemma RatioLessOne(p0: real, pn: real, q: real)
    requires p0 != 0.0 && q == pn / p0
    ensures q - 1.0 == (pn - p0) / p0
  {
    assert (pn - p0) / p0 == pn / p0 - p0 / p0;
  }
}
