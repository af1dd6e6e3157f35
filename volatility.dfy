/** `Volatility::rolling_vol`: the annualised sample standard deviation of
    every window of consecutive returns, labelled with the window's last
    date. */
module Volatility {
  import opened Results
  import opened Numeric
  import opened Series

  /** Trading days per year, the annualisation factor. */
  const TradingDays: real := 252.0

  /** The annualised volatility of the window r[i .. i + w - 1]:
      sqrt(252 * its sample variance). */
  function VolAt(sqrt: real -> real, r: seq<real>, w: nat, i: nat): real
    requires 2 <= w && i + w <= |r|
  {
    sqrt(SampleVariance(r[i..i + w]) * TradingDays)
  }

  /** One volatility per window of w consecutive returns. */
  function VolValues(sqrt: real -> real, r: seq<real>, w: nat): (v: seq<real>)
    requires 2 <= w <= |r|
    ensures |v| == |r| - w + 1
    ensures forall i :: 0 <= i < |v| ==> v[i] == VolAt(sqrt, r, w, i)
  {
    seq(|r| - w + 1, i requires 0 <= i < |r| - w + 1 => VolAt(sqrt, r, w, i))
  }

  /** The body of the window loop: mean, squared deviations, division by
      window - 1, annualisation. */
  method WindowVol(s: seq<real>, i: nat, window: nat, sqrt: real -> real) returns (v: real)
    requires 2 <= window && i + window <= |s|
    ensures v == VolAt(sqrt, s, window, i)
  {
    var mean := WindowMean(s, i, window);
    var variance := WindowSqDev(s, i, window, mean);
    variance := variance / ((window - 1) as real);
    v := sqrt(variance * TradingDays);
  }

  /** `rolling_vol(returns, window)`: invalid_argument when the window is
      longer than the series; otherwise one value per window, entry i labelled
      with the date of return i + window - 1 when there is one. */
  method RollingVol(rets: TimeSeries, window: nat, sqrt: real -> real) returns (r: Result<TimeSeries>)
    requires 2 <= window
    ensures r.Err? <==> rets.Size() < window
    ensures r.Err? ==> r.error == InvalidArgument
    ensures r.Ok? ==> fresh(r.value)
    ensures r.Ok? ==> r.value.values == VolValues(sqrt, rets.values, window)
    ensures r.Ok? ==> r.value.dates == ShiftedDates(rets.dates, rets.Size() - window + 1, window - 1)
  {
    var n := rets.Size();
    if n < window {
      return Err(InvalidArgument);
    }
    var s := rets.values;
    var out := n - window + 1;
    var vol := new TimeSeries.Sized(out);
    var i := 0;
    while i < out
      invariant 0 <= i <= out
      invariant |vol.values| == out && |vol.dates| == out
      invariant forall k :: 0 <= k < i ==> vol.values[k] == VolAt(sqrt, s, window, k)
      invariant forall k :: 0 <= k < out ==>
                  vol.dates[k] == if k < i && k + window - 1 < |rets.dates| then rets.dates[k + window - 1] else ""
    {
      var v := WindowVol(s, i, window, sqrt);
      var o := vol.Set(i, v);
      if i + window - 1 < |rets.dates| {
        vol.dates := vol.dates[i := rets.dates[i + window - 1]];
      }
      i := i + 1;
    }
    r := Ok(vol);
  }

  /** Volatility is never negative. */
  lemma VolNonNegative(sqrt: real -> real, r: seq<real>, w: nat, i: nat)
    requires IsSqrt(sqrt) && 2 <= w <= |r| && i < |r| - w + 1
    ensures 0.0 <= VolValues(sqrt, r, w)[i]
  {
    SampleVarianceNonNegative(r[i..i + w]);
  }

  /** A window of identical returns has zero volatility. */
  lemma VolConstantWindow(sqrt: real -> real, r: seq<real>, w: nat, i: nat)
    requires IsSqrt(sqrt) && 2 <= w <= |r| && i < |r| - w + 1
    requires Constant(r[i..i + w])
    ensures VolValues(sqrt, r, w)[i] == 0.0
  {
    ConstantVariance(r[i..i + w]);
    SqrtZero(sqrt);
  }

  /** Entry i reads nothing outside its own window: two series that agree on
      r[i .. i + w - 1] give the same entry. */
  lemma VolWindowed(sqrt: real -> real, r: seq<real>, r': seq<real>, w: nat, i: nat)
    requires 2 <= w <= |r| && 2 <= w <= |r'| && i < |r| - w + 1 && i < |r'| - w + 1
    requires r[i..i + w] == r'[i..i + w]
    ensures VolValues(sqrt, r, w)[i] == VolValues(sqrt, r', w)[i]
  {
  }
}
