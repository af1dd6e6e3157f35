/** The regime attribution of `main.cpp`: the feature matrix fed to k-means,
    the count of periods per regime, and the strategy returns split by the
    regime label at the same index. */
module RegimeReport {
  import opened Results
  import opened Numeric
  import opened Series
  import opened Matrices
  import opened Tally
  import opened Strategies
  import opened Backtester
  import opened Metrics
  import Volatility

  /** `print_regime_stats`'s tally: counts[r] is the number of periods with
      label r, and the counts add up to the number of periods. Every label
      must index the table, which the code does not check. */
  method CountRegimes(regimes: seq<int>, numRegimes: nat) returns (counts: seq<nat>)
    requires InRange(regimes, numRegimes)
    ensures counts == Counts(regimes, numRegimes, |regimes|)
    ensures Total(counts) == |regimes|
  {
    counts := seq(numRegimes, _ => 0);
    var i := 0;
    while i < |regimes|
      invariant 0 <= i <= |regimes|
      invariant counts == Counts(regimes, numRegimes, i)
    {
      CountsStep(regimes, numRegimes, i);
      var r := regimes[i];
      counts := counts[r := counts[r] + 1];
      i := i + 1;
    }
    CountsTotal(regimes, numRegimes, |regimes|);
    AllInRange(regimes, numRegimes, |regimes|);
  }

  /** The number of periods the partition loop visits: it stops at the end
      of the shorter of the labels and the returns. */
  function Bound(values: seq<real>, labels: seq<int>): (n: nat)
    ensures n <= |values| && n <= |labels|
  {
    if |labels| < |values| then |labels| else |values|
  }

  /** values[i] for every i < n labelled r, in index order. */
  function Selected(values: seq<real>, labels: seq<int>, r: int, n: nat): seq<real>
    requires n <= |values| && n <= |labels|
  {
    if n == 0 then []
    else Selected(values, labels, r, n - 1) + (if labels[n - 1] == r then [values[n - 1]] else [])
  }

  /** The inner loop of `print_regime_performance`: the returns of regime r,
      pushed onto a fresh series whose dates stay empty. */
  method PartitionReturns(rets: TimeSeries, regimes: seq<int>, regime: int) returns (part: TimeSeries)
    ensures fresh(part)
    ensures part.values == Selected(rets.values, regimes, regime, Bound(rets.values, regimes))
    ensures part.dates == []
  {
    part := new TimeSeries.Empty();
    var i := 0;
    while i < |regimes| && i < rets.Size()
      invariant 0 <= i <= Bound(rets.values, regimes)
      invariant part.values == Selected(rets.values, regimes, regime, i)
      invariant part.dates == []
    {
      if regimes[i] == regime {
        part.values := part.values + [rets.values[i]];
      }
      i := i + 1;
    }
  }

  /** A regime's partition holds as many returns as the regime has labels
      among the visited periods. */
  lemma {:induction false} PartitionSize(values: seq<real>, labels: seq<int>, r: int, n: nat)
    requires n <= |values| && n <= |labels|
    ensures |Selected(values, labels, r, n)| == CountOf(labels, r, n)
  {
    if n > 0 {
      PartitionSize(values, labels, r, n - 1);
    }
  }

  /** x is in regime r's partition iff some visited period i is labelled r
      and has return x: label i goes with return i, with no offset. */
  lemma {:induction false} PartitionMembers(values: seq<real>, labels: seq<int>, r: int, n: nat, x: real)
    requires n <= |values| && n <= |labels|
    ensures x in Selected(values, labels, r, n) <==> exists i :: 0 <= i < n && labels[i] == r && values[i] == x
  {
    if n > 0 {
      PartitionMembers(values, labels, r, n - 1, x);
      var p := Selected(values, labels, r, n - 1);
      if labels[n - 1] == r {
        assert Selected(values, labels, r, n) == p + [values[n - 1]];
      }
    }
  }

  /** The partitions of regimes 0 .. m - 1 share no period: together they
      hold one return per visited period whose label is in range — all of
      them when every label is. */
  lemma PartitionsCover(values: seq<real>, labels: seq<int>, m: nat)
    ensures Total(seq(m, r requires 0 <= r < m => |Selected(values, labels, r, Bound(values, labels))|))
         == InRangeCount(labels, m, Bound(values, labels))
    ensures InRange(labels, m) ==>
      Total(seq(m, r requires 0 <= r < m => |Selected(values, labels, r, Bound(values, labels))|)) == Bound(values, labels)
  {
    var n := Bound(values, labels);
    forall r | 0 <= r < m
      ensures |Selected(values, labels, r, n)| == CountOf(labels, r, n)
    {
      PartitionSize(values, labels, r, n);
    }
    assert seq(m, r requires 0 <= r < m => |Selected(values, labels, r, n)|) == Counts(labels, m, n);
    CountsTotal(labels, m, n);
    if InRange(labels, m) {
      AllInRange(labels, m, n);
    }
  }

  /** One reported regime: its annual return and Sharpe ratio. */
  datatype RegimeLine = RegimeLine(regime: nat, annualReturn: real, sharpe: real)

  /** The lines printed for regimes 0 .. m - 1: one per regime whose
      partition is not empty, in regime order. */
  function Report(sqrt: real -> real, values: seq<real>, labels: seq<int>, m: nat): seq<RegimeLine>
    requires 0.0 < sqrt(Volatility.TradingDays)
  {
    if m == 0 then []
    else
      var part := Selected(values, labels, m - 1, Bound(values, labels));
      Report(sqrt, values, labels, m - 1)
        + if |part| > 0 then [RegimeLine(m - 1, AnnualReturnValue(part), SharpeValue(sqrt, part, 0.0))] else []
  }

  /** The line printed for regime r, when its partition is not empty. */
  predicate IsRegimeLine(sqrt: real -> real, values: seq<real>, labels: seq<int>, m: nat, line: RegimeLine)
    requires 0.0 < sqrt(Volatility.TradingDays)
  {
    var part := Selected(values, labels, line.regime, Bound(values, labels));
    line.regime < m && 0 < |part|
    && line == RegimeLine(line.regime, AnnualReturnValue(part), SharpeValue(sqrt, part, 0.0))
  }

  /** Every line is the metrics line of a regime below m with a non-empty
      partition. */
  lemma {:induction false} ReportSound(sqrt: real -> real, values: seq<real>, labels: seq<int>, m: nat)
    requires 0.0 < sqrt(Volatility.TradingDays)
    ensures forall k :: 0 <= k < |Report(sqrt, values, labels, m)| ==>
      IsRegimeLine(sqrt, values, labels, m, Report(sqrt, values, labels, m)[k])
  {
    if m > 0 {
      ReportSound(sqrt, values, labels, m - 1);
      var prev := Report(sqrt, values, labels, m - 1);
      forall k | 0 <= k < |prev|
        ensures IsRegimeLine(sqrt, values, labels, m, prev[k])
      {
        assert IsRegimeLine(sqrt, values, labels, m - 1, prev[k]);
      }
    }
  }

  /** Every regime below m with a non-empty partition gets a line. */
  lemma {:induction false} ReportComplete(sqrt: real -> real, values: seq<real>, labels: seq<int>, m: nat, r: nat)
    requires 0.0 < sqrt(Volatility.TradingDays)
    requires r < m && 0 < |Selected(values, labels, r, Bound(values, labels))|
    ensures exists k :: 0 <= k < |Report(sqrt, values, labels, m)| && Report(sqrt, values, labels, m)[k].regime == r
  {
    var prev := Report(sqrt, values, labels, m - 1);
    var part := Selected(values, labels, m - 1, Bound(values, labels));
    if r < m - 1 {
      ReportComplete(sqrt, values, labels, m - 1, r);
      var k :| 0 <= k < |prev| && prev[k].regime == r;
      assert Report(sqrt, values, labels, m)[k] == prev[k];
    } else {
      assert Report(sqrt, values, labels, m)[|prev|].regime == r;
    }
  }

  /** Lines come in strictly increasing regime order, so no regime is
      reported twice. */
  lemma {:induction false} ReportSorted(sqrt: real -> real, values: seq<real>, labels: seq<int>, m: nat)
    requires 0.0 < sqrt(Volatility.TradingDays)
    ensures forall k, k' :: 0 <= k < k' < |Report(sqrt, values, labels, m)| ==>
      Report(sqrt, values, labels, m)[k].regime < Report(sqrt, values, labels, m)[k'].regime
  {
    if m > 0 {
      ReportSorted(sqrt, values, labels, m - 1);
      ReportSound(sqrt, values, labels, m - 1);
      var prev := Report(sqrt, values, labels, m - 1);
      forall k | 0 <= k < |prev|
        ensures prev[k].regime < m - 1
      {
        assert IsRegimeLine(sqrt, values, labels, m - 1, prev[k]);
      }
    }
  }

  /** The regime loop of `print_regime_performance` over the strategy
      returns, with the metrics it prints kept as lines. */
  method RegimePerformance(rets: TimeSeries, regimes: seq<int>, numRegimes: nat, sqrt: real -> real) returns (lines: seq<RegimeLine>)
    requires 0.0 < sqrt(Volatility.TradingDays)
    ensures lines == Report(sqrt, rets.values, regimes, numRegimes)
  {
    lines := [];
    var regime := 0;
    while regime < numRegimes
      invariant 0 <= regime <= numRegimes
      invariant lines == Report(sqrt, rets.values, regimes, regime)
    {
      var part := PartitionReturns(rets, regimes, regime);
      if part.Size() > 0 {
        var sharpe := Sharpe(part, 0.0, sqrt);
        var annual := AnnualReturn(part);
        lines := lines + [RegimeLine(regime, annual, sharpe)];
      }
      regime := regime + 1;
    }
  }

  /** `print_regime_performance(strategy, prices, regimes, m)`: one backtest
      of the whole series, then the report over its returns. */
  method PrintRegimePerformance(strategy: Strategy, prices: TimeSeries, regimes: seq<int>, numRegimes: nat, sqrt: real -> real)
    returns (r: Result<seq<RegimeLine>>)
    requires Supported(strategy) && Divisible(prices.values) && 0.0 < sqrt(Volatility.TradingDays)
    ensures r.Err? <==> TooShort(strategy, prices.Size()) || prices.Size() == 0
    ensures r.Ok? ==> r.value == Report(sqrt, StrategyReturnValues(prices.values, SignalValues(sqrt, strategy, prices.values)), regimes, numRegimes)
  {
    var full := Run(prices, strategy, sqrt);
    if full.Err? {
      return Err(full.error);
    }
    var lines := RegimePerformance(full.value.strategyReturns, regimes, numRegimes, sqrt);
    r := Ok(lines);
  }

  /** The feature matrix: row i is (vol[i], dd[i]) for every i below the
      shorter length, in two columns. */
  method FeatureMatrix(vol: TimeSeries, dd: TimeSeries) returns (x: Matrix)
    ensures fresh(x) && fresh(x.data) && x.Valid()
    ensures x.rows == (if vol.Size() < dd.Size() then vol.Size() else dd.Size()) && x.cols == 2
    ensures forall i :: 0 <= i < x.rows ==> x.Rows()[i] == [vol.values[i], dd.values[i]]
  {
    var minSize := if vol.Size() < dd.Size() then vol.Size() else dd.Size();
    x := new Matrix(minSize, 2);
    var i := 0;
    while i < minSize
      invariant 0 <= i <= minSize
      invariant x.Valid() && fresh(x.data)
      invariant forall k :: 0 <= k < i ==> x.Rows()[k] == [vol.values[k], dd.values[k]]
    {
      var o := x.Set(i, 0, vol.values[i]);
      o := x.Set(i, 1, dd.values[i]);
      assert x.Rows()[i] == [vol.values[i], dd.values[i]];
      i := i + 1;
    }
  }

  /** Date alignment of the pipeline's features, for prices with n points and
      window w: volatility entry i carries the date of price i + w (its
      returns start one price late), drawdown entry i the date of price
      i + w - 1, strategy return i the date of price i + 1. So a feature row
      pairs windows ending one price apart, the drawdown series is one entry
      longer, and the label of row i is attributed to a return that ends
      w - 1 prices before that row's volatility window does. */
  lemma FeatureAlignment(dates: seq<string>, n: nat, w: nat, i: nat)
    requires 2 <= w && w < n && i < n - w && i + w < |dates|
    ensures |ShiftedDates(ShiftedDates(dates, n - 1, 1), n - 1 - w + 1, w - 1)| == n - w
    ensures |ShiftedDates(dates, n - w + 1, w - 1)| == n - w + 1
    ensures ShiftedDates(ShiftedDates(dates, n - 1, 1), n - 1 - w + 1, w - 1)[i] == dates[i + w]
    ensures ShiftedDates(dates, n - w + 1, w - 1)[i] == dates[i + w - 1]
    ensures ShiftedDates(dates, n - 1, 1)[i] == dates[i + 1]
  {
    var rd := ShiftedDates(dates, n - 1, 1);
    assert rd[i + w - 1] == dates[i + w];
  }
}
