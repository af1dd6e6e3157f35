/** The trading strategies: each maps a price series to one signal per price
    (+1 long, -1 short, 0 flat), labelled with the price's date. The abstract
    `Strategy` interface becomes a datatype with one variant per strategy. */
module Strategies {
  import opened Results
  import opened Numeric
  import opened Series

  /** The threshold `MeanReversion(window)` uses when none is given. */
  const DefaultThreshold: real := 1.0

  datatype Strategy =
    | BuyHold
    | Momentum(lookback: nat)
    | MeanReversion(window: nat, threshold: real := DefaultThreshold)

  lemma MeanReversionDefault(window: nat)
    ensures MeanReversion(window).threshold == 1.0
  {
  }

  /** Below this standard deviation the z-score is taken to be 0. */
  const FlatStdDev: real := 0.00000001

  /** Variants whose signal computation divides by a nonzero number: mean
      reversion divides by `window` and by `window - 1`. */
  predicate Supported(s: Strategy)
  {
    s.MeanReversion? ==> 2 <= s.window
  }

  /** The variants that reject a series with `n` prices (invalid_argument). */
  predicate TooShort(s: Strategy, n: nat)
  {
    match s
    case BuyHold => false
    case Momentum(lookback) => n < lookback
    case MeanReversion(window, _) => n < window
  }

  predicate IsSignal(x: real)
  {
    x == -1.0 || x == 0.0 || x == 1.0
  }

  // Buy and hold

  function BuyHoldValues(n: nat): (v: seq<real>)
    ensures |v| == n
  {
    seq(n, _ => 1.0)
  }

  /** Always long; never fails, not even on an empty series. */
  method BuyHoldSignals(prices: TimeSeries) returns (signals: TimeSeries)
    ensures fresh(signals)
    ensures signals.values == BuyHoldValues(prices.Size())
    ensures signals.dates == ShiftedDates(prices.dates, prices.Size(), 0)
  {
    signals := new TimeSeries.Sized(prices.Size());
    var i := 0;
    while i < signals.Size()
      invariant 0 <= i <= |signals.values| == prices.Size() && |signals.dates| == prices.Size()
      invariant forall k :: 0 <= k < i ==> signals.values[k] == 1.0
      invariant forall k :: 0 <= k < |signals.dates| ==>
                  signals.dates[k] == if k < i && k < |prices.dates| then prices.dates[k] else ""
    {
      var o := signals.Set(i, 1.0);
      if i < |prices.dates| {
        signals.dates := signals.dates[i := prices.dates[i]];
      }
      i := i + 1;
    }
  }

  // Momentum

  /** Flat for the first `lookback` prices; then long when the price has
      risen over the last `lookback` steps and short otherwise. */
  function MomentumValues(p: seq<real>, lookback: nat): (v: seq<real>)
    ensures |v| == |p| && forall i :: 0 <= i < |p| ==> v[i] == MomentumAt(p, lookback, i)
  {
    seq(|p|, i requires 0 <= i < |p| => MomentumAt(p, lookback, i))
  }

  /** The momentum signal at index i. */
  function MomentumAt(p: seq<real>, lookback: nat, i: nat): real
    requires i < |p|
  {
    if i < lookback then 0.0 else if p[i] - p[i - lookback] > 0.0 then 1.0 else -1.0
  }

  method MomentumSignals(prices: TimeSeries, lookback: nat) returns (r: Result<TimeSeries>)
    ensures r.Err? <==> prices.Size() < lookback
    ensures r.Err? ==> r.error == InvalidArgument
    ensures r.Ok? ==> fresh(r.value)
    ensures r.Ok? ==> r.value.values == MomentumValues(prices.values, lookback)
    ensures r.Ok? ==> r.value.dates == ShiftedDates(prices.dates, prices.Size(), 0)
  {
    var n := prices.Size();
    if n < lookback {
      return Err(InvalidArgument);
    }
    var p := prices.values;
    var signals := new TimeSeries.Sized(n);
    var i := 0;
    while i < lookback
      invariant 0 <= i <= lookback && |signals.values| == n && |signals.dates| == n
      invariant forall k :: 0 <= k < i ==> signals.values[k] == MomentumAt(p, lookback, k)
      invariant forall k :: 0 <= k < n ==>
                  signals.dates[k] == if k < i && k < |prices.dates| then prices.dates[k] else ""
    {
      var o := signals.Set(i, 0.0);
      if i < |prices.dates| {
        signals.dates := signals.dates[i := prices.dates[i]];
      }
      i := i + 1;
    }
    while i < n
      invariant lookback <= i <= n && |signals.values| == n && |signals.dates| == n
      invariant forall k :: 0 <= k < i ==> signals.values[k] == MomentumAt(p, lookback, k)
      invariant forall k :: 0 <= k < n ==>
                  signals.dates[k] == if k < i && k < |prices.dates| then prices.dates[k] else ""
    {
      var change := p[i] - p[i - lookback];
      var o := signals.Set(i, if change > 0.0 then 1.0 else -1.0);
      if i < |prices.dates| {
        signals.dates := signals.dates[i := prices.dates[i]];
      }
      i := i + 1;
    }
    r := Ok(signals);
  }

  // Mean reversion

  /** The z-score of x against the window: 0 when the window is (nearly)
      flat. */
  function ZScore(sqrt: real -> real, win: seq<real>, x: real): real
    requires 2 <= |win|
  {
    var sd := sqrt(SampleVariance(win));
    if sd > FlatStdDev then Div(x - Mean(win), sd) else 0.0
  }

  /** Short above the band, long below it, flat inside. */
  function Reversion(z: real, threshold: real): real
  {
    if z > threshold then -1.0 else if z < -threshold then 1.0 else 0.0
  }

  /** Flat for the first `window` prices; then the signal at i compares p[i]
      with the `window` prices before it, excluding p[i] itself. */
  function MeanReversionValues(sqrt: real -> real, p: seq<real>, window: nat, threshold: real): (v: seq<real>)
    requires 2 <= window
    ensures |v| == |p| && forall i :: 0 <= i < |p| ==> v[i] == ReversionAt(sqrt, p, window, threshold, i)
  {
    seq(|p|, i requires 0 <= i < |p| => ReversionAt(sqrt, p, window, threshold, i))
  }

  /** The mean-reversion signal at index i. */
  function ReversionAt(sqrt: real -> real, p: seq<real>, window: nat, threshold: real, i: nat): real
    requires 2 <= window && i < |p|
  {
    if i < window then 0.0 else Reversion(ZScore(sqrt, p[i - window..i], p[i]), threshold)
  }

  method MeanReversionSignals(prices: TimeSeries, window: nat, threshold: real, sqrt: real -> real)
    returns (r: Result<TimeSeries>)
    requires 2 <= window
    ensures r.Err? <==> prices.Size() < window
    ensures r.Err? ==> r.error == InvalidArgument
    ensures r.Ok? ==> fresh(r.value)
    ensures r.Ok? ==> r.value.values == MeanReversionValues(sqrt, prices.values, window, threshold)
    ensures r.Ok? ==> r.value.dates == ShiftedDates(prices.dates, prices.Size(), 0)
  {
    var n := prices.Size();
    if n < window {
      return Err(InvalidArgument);
    }
    var signals := new TimeSeries.Sized(n);
    FlatPrefix(prices, signals, window, threshold, sqrt);
    ReversionSuffix(prices, signals, window, threshold, sqrt);
    r := Ok(signals);
  }

  /** The first loop: signal 0.0 and the price's date at every i < window. */
  method FlatPrefix(prices: TimeSeries, signals: TimeSeries, window: nat, threshold: real, sqrt: real -> real)
    requires prices != signals && 2 <= window <= prices.Size()
    requires |signals.values| == prices.Size() && |signals.dates| == prices.Size()
    requires forall k :: 0 <= k < prices.Size() ==> signals.dates[k] == ""
    modifies signals
    ensures |signals.values| == prices.Size() && |signals.dates| == prices.Size()
    ensures forall k :: 0 <= k < window ==> signals.values[k] == ReversionAt(sqrt, prices.values, window, threshold, k)
    ensures forall k :: 0 <= k < prices.Size() ==>
              signals.dates[k] == if k < window && k < |prices.dates| then prices.dates[k] else ""
  {
    var n := prices.Size();
    var i := 0;
    while i < window
      invariant 0 <= i <= window && |signals.values| == n && |signals.dates| == n
      invariant forall k :: 0 <= k < i ==> signals.values[k] == ReversionAt(sqrt, prices.values, window, threshold, k)
      invariant forall k :: 0 <= k < n ==>
                  signals.dates[k] == if k < i && k < |prices.dates| then prices.dates[k] else ""
    {
      var o := signals.Set(i, 0.0);
      if i < |prices.dates| {
        signals.dates := signals.dates[i := prices.dates[i]];
      }
      i := i + 1;
    }
  }

  /** The second loop: the reversion signal and the price's date at every
      i from window on. */
  method ReversionSuffix(prices: TimeSeries, signals: TimeSeries, window: nat, threshold: real, sqrt: real -> real)
    requires prices != signals && 2 <= window <= prices.Size()
    requires |signals.values| == prices.Size() && |signals.dates| == prices.Size()
    requires forall k :: 0 <= k < window ==> signals.values[k] == ReversionAt(sqrt, prices.values, window, threshold, k)
    requires forall k :: 0 <= k < prices.Size() ==>
               signals.dates[k] == if k < window && k < |prices.dates| then prices.dates[k] else ""
    modifies signals
    ensures signals.values == MeanReversionValues(sqrt, prices.values, window, threshold)
    ensures signals.dates == ShiftedDates(prices.dates, prices.Size(), 0)
  {
    var n := prices.Size();
    var p := prices.values;
    var i := window;
    while i < n
      invariant window <= i <= n && |signals.values| == n && |signals.dates| == n
      invariant forall k :: 0 <= k < i ==> signals.values[k] == ReversionAt(sqrt, p, window, threshold, k)
      invariant forall k :: 0 <= k < n ==>
                  signals.dates[k] == if k < i && k < |prices.dates| then prices.dates[k] else ""
    {
      var signal := ReversionSignal(p, i, window, threshold, sqrt);
      var o := signals.Set(i, signal);
      if i < |prices.dates| {
        signals.dates := signals.dates[i := prices.dates[i]];
      }
      i := i + 1;
    }
    assert signals.values == MeanReversionValues(sqrt, p, window, threshold);
  }

  /** The body of the second loop: the signal at i from the mean and
      standard deviation of p[i - window .. i - 1]. */
  method ReversionSignal(p: seq<real>, i: nat, window: nat, threshold: real, sqrt: real -> real)
    returns (signal: real)
    requires 2 <= window <= i < |p|
    ensures signal == ReversionAt(sqrt, p, window, threshold, i)
  {
    var mean := WindowMean(p, i - window, window);
    var variance := WindowSqDev(p, i - window, window, mean);
    variance := variance / ((window - 1) as real);
    var stdDev := sqrt(variance);
    var z := if stdDev > FlatStdDev then Div(p[i] - mean, stdDev) else 0.0;
    signal := Reversion(z, threshold);
  }

  // The interface

  /** What `generate_signals` computes for a series the strategy accepts. */
  function SignalValues(sqrt: real -> real, s: Strategy, p: seq<real>): (v: seq<real>)
    requires Supported(s)
    ensures |v| == |p|
  {
    match s
    case BuyHold => BuyHoldValues(|p|)
    case Momentum(lookback) => MomentumValues(p, lookback)
    case MeanReversion(window, threshold) => MeanReversionValues(sqrt, p, window, threshold)
  }

  /** `strategy.generate_signals(prices)`. */
  method GenerateSignals(s: Strategy, prices: TimeSeries, sqrt: real -> real) returns (r: Result<TimeSeries>)
    requires Supported(s)
    ensures r.Err? <==> TooShort(s, prices.Size())
    ensures r.Err? ==> r.error == InvalidArgument
    ensures r.Ok? ==> fresh(r.value)
    ensures r.Ok? ==> r.value.values == SignalValues(sqrt, s, prices.values)
    ensures r.Ok? ==> r.value.dates == ShiftedDates(prices.dates, prices.Size(), 0)
  {
    match s
    case BuyHold =>
      var signals := BuyHoldSignals(prices);
      r := Ok(signals);
    case Momentum(lookback) =>
      r := MomentumSignals(prices, lookback);
    case MeanReversion(window, threshold) =>
      r := MeanReversionSignals(prices, window, threshold, sqrt);
  }

  // Properties

  /** Every strategy emits only -1, 0 and +1. */
  lemma SignalsAreSignals(sqrt: real -> real, s: Strategy, p: seq<real>, i: nat)
    requires Supported(s) && i < |p|
    ensures IsSignal(SignalValues(sqrt, s, p)[i])
  {
  }

  /** Momentum and mean reversion stay flat during their warm-up. */
  lemma WarmUpIsFlat(sqrt: real -> real, s: Strategy, p: seq<real>, i: nat)
    requires Supported(s) && i < |p|
    requires s.Momentum? ==> i < s.lookback
    requires s.MeanReversion? ==> i < s.window
    requires !s.BuyHold?
    ensures SignalValues(sqrt, s, p)[i] == 0.0
  {
  }

  /** After warm-up, momentum is long exactly when the price rose over the
      lookback; an unchanged price counts as a fall. */
  lemma MomentumDirection(p: seq<real>, lookback: nat, i: nat)
    requires lookback <= i < |p|
    ensures MomentumValues(p, lookback)[i] == 1.0 <==> p[i] > p[i - lookback]
    ensures MomentumValues(p, lookback)[i] == -1.0 <==> p[i] <= p[i - lookback]
  {
  }

  /** No look-ahead: two series that agree up to index i get the same signal
      at i, whichever strategy produces it. */
  lemma SignalsAreCausal(sqrt: real -> real, s: Strategy, p: seq<real>, q: seq<real>, i: nat)
    requires Supported(s) && i < |p| && i < |q| && p[..i + 1] == q[..i + 1]
    ensures SignalValues(sqrt, s, p)[i] == SignalValues(sqrt, s, q)[i]
  {
    assert p[i] == p[..i + 1][i] && q[i] == q[..i + 1][i];
    match s
    case BuyHold =>
    case Momentum(lookback) =>
      if lookback <= i {
        assert p[i - lookback] == p[..i + 1][i - lookback];
        assert q[i - lookback] == q[..i + 1][i - lookback];
      }
    case MeanReversion(window, threshold) =>
      if window <= i {
        forall k | 0 <= k <= i
          ensures p[k] == q[k]
        {
          assert p[k] == p[..i + 1][k] && q[k] == q[..i + 1][k];
        }
        assert p[i - window..i] == q[i - window..i];
      }
  }

  /** A (nearly) flat window gives z-score 0, hence a flat signal when the
      threshold is not negative. */
  lemma FlatWindowIsFlat(sqrt: real -> real, p: seq<real>, window: nat, threshold: real, i: nat)
    requires 2 <= window <= i < |p| && 0.0 <= threshold
    requires sqrt(SampleVariance(p[i - window..i])) <= FlatStdDev
    ensures MeanReversionValues(sqrt, p, window, threshold)[i] == 0.0
  {
  }

  /** With a non-negative threshold mean reversion goes short only above the
      window mean and long only below it. */
  lemma MeanReversionDirection(sqrt: real -> real, p: seq<real>, window: nat, threshold: real, i: nat)
    requires 2 <= window <= i < |p| && 0.0 <= threshold
    ensures MeanReversionValues(sqrt, p, window, threshold)[i] == -1.0 ==> p[i] > Mean(p[i - window..i])
    ensures MeanReversionValues(sqrt, p, window, threshold)[i] == 1.0 ==> p[i] < Mean(p[i - window..i])
  {
    var win := p[i - window..i];
    var sd := sqrt(SampleVariance(win));
    if sd > FlatStdDev {
      QuotientSign(p[i] - Mean(win), sd);
    }
  }
}
