/** `Drawdown`: the rolling drawdown feature (how far the last price of each
    window sits below the window's highest price) and the maximum drawdown of
    an equity curve (the deepest fall below its running peak). */
module Drawdown {
  import opened Results
  import opened Numeric
  import opened Series

  /** The highest price of the window p[i .. i + w - 1]. */
  function WindowPeak(p: seq<real>, w: nat, i: nat): real
    requires 1 <= w && i + w <= |p|
  {
    Max(p[i..i + w])
  }

  /** The division in `rolling_drawdown` is defined: no window peaks at 0. */
  predicate WindowPeaksNonZero(p: seq<real>, w: nat)
    requires 1 <= w <= |p|
  {
    forall i :: 0 <= i < |p| - w + 1 ==> WindowPeak(p, w, i) != 0.0
  }

  /** (last - peak) / peak for the window p[i .. i + w - 1]. */
  function WindowDrawdown(p: seq<real>, w: nat, i: nat): real
    requires 1 <= w && i + w <= |p|
    requires WindowPeak(p, w, i) != 0.0
  {
    Div(p[i + w - 1] - WindowPeak(p, w, i), WindowPeak(p, w, i))
  }

  function RollingValues(p: seq<real>, w: nat): (d: seq<real>)
    requires 1 <= w <= |p| && WindowPeaksNonZero(p, w)
    ensures |d| == |p| - w + 1
  {
    seq(|p| - w + 1, i requires 0 <= i < |p| - w + 1 => WindowDrawdown(p, w, i))
  }

  /** `rolling_drawdown(prices, window)`: invalid_argument when the window is
      longer than the series; a zero window reads `prices[-1]` through the
      unsigned wrap and fails the range check; otherwise one value per window,
      entry i labelled with the date of price i + window - 1 when there is one. */
  method RollingDrawdown(prices: TimeSeries, window: nat) returns (r: Result<TimeSeries>)
    requires 1 <= window <= prices.Size() ==> WindowPeaksNonZero(prices.values, window)
    ensures r.Err? <==> prices.Size() < window || window == 0
    ensures r.Err? ==> r.error == if prices.Size() < window then InvalidArgument else OutOfRange
    ensures r.Ok? ==> fresh(r.value)
    ensures r.Ok? ==> r.value.values == RollingValues(prices.values, window)
    ensures r.Ok? ==> r.value.dates == ShiftedDates(prices.dates, prices.Size() - window + 1, window - 1)
  {
    var n := prices.Size();
    if n < window {
      return Err(InvalidArgument);
    }
    if window == 0 {
      return Err(OutOfRange);
    }
    var p := prices.values;
    var out := n - window + 1;
    var dd := new TimeSeries.Sized(out);
    var i := 0;
    while i < out
      invariant 0 <= i <= out
      invariant |dd.values| == out && |dd.dates| == out
      invariant forall k :: 0 <= k < i ==> dd.values[k] == WindowDrawdown(p, window, k)
      invariant forall k :: 0 <= k < out ==>
                  dd.dates[k] == if k < i && k + window - 1 < |prices.dates| then prices.dates[k + window - 1] else ""
    {
      var maxPrice := WindowMax(p, i, window);
      var current := p[i + window - 1];
      var o := dd.Set(i, Div(current - maxPrice, maxPrice));
      if i + window - 1 < |prices.dates| {
        dd.dates := dd.dates[i := prices.dates[i + window - 1]];
      }
      i := i + 1;
    }
    r := Ok(dd);
  }

  /** The inner loop of `rolling_drawdown`: starting from p[i], the running
      `std::max` over p[i .. i + w - 1]. */
  method WindowMax(p: seq<real>, i: nat, w: nat) returns (maxPrice: real)
    requires 1 <= w && i + w <= |p|
    ensures maxPrice == WindowPeak(p, w, i)
  {
    maxPrice := p[i];
    var j := i;
    while j < i + w
      invariant i <= j <= i + w
      invariant maxPrice == if j == i then p[i] else Max(p[i..j])
    {
      MaxSliceStep(p, i, j);
      maxPrice := Max2(maxPrice, p[j]);
      j := j + 1;
    }
  }

  /** For positive prices a window's drawdown is never positive, and it is
      zero exactly when the window ends at its peak. */
  lemma WindowDrawdownSign(p: seq<real>, w: nat, i: nat)
    requires 1 <= w && i + w <= |p| && AllPositive(p)
    ensures WindowPeak(p, w, i) != 0.0
    ensures WindowDrawdown(p, w, i) <= 0.0
    ensures WindowDrawdown(p, w, i) == 0.0 <==> p[i + w - 1] == WindowPeak(p, w, i)
  {
    var win := p[i..i + w];
    MaxIsMaximum(win);
    assert win[w - 1] == p[i + w - 1];
    assert 0.0 < win[0];
    FallBounds(p[i + w - 1], Max(win));
  }

  /** The running peak max(e[0 .. i]). */
  function Peak(e: seq<real>, i: nat): real
    requires i < |e|
  {
    Max(e[..i + 1])
  }

  /** The division in `max_drawdown` is defined: no running peak is 0. */
  predicate PeaksNonZero(e: seq<real>)
  {
    forall i :: 1 <= i < |e| ==> Peak(e, i) != 0.0
  }

  /** The fall of e[i] below the running peak, as a fraction of that peak. */
  function Fall(e: seq<real>, i: nat): real
    requires 1 <= i < |e| && PeaksNonZero(e)
  {
    Div(e[i] - Peak(e, i), Peak(e, i))
  }

  /** The `max_dd` the loop holds after processing e[0 .. n - 1]. */
  function MaxDrawdownUpTo(e: seq<real>, n: nat): (r: real)
    requires 1 <= n <= |e| && PeaksNonZero(e)
    ensures r <= 0.0
    ensures forall i :: 1 <= i < n ==> r <= Fall(e, i)
  {
    if n == 1 then 0.0 else Min2(MaxDrawdownUpTo(e, n - 1), Fall(e, n - 1))
  }

  /** `max_drawdown(equity)`: 0 for a curve of at most one point, else the
      least of 0 and every fall below the running peak. */
  function MaxDrawdownValue(e: seq<real>): (r: real)
    requires PeaksNonZero(e)
  {
    if |e| == 0 then 0.0 else MaxDrawdownUpTo(e, |e|)
  }

  method MaxDrawdown(equity: TimeSeries) returns (r: real)
    requires PeaksNonZero(equity.values)
    ensures r == MaxDrawdownValue(equity.values)
  {
    var e := equity.values;
    if |e| == 0 {
      return 0.0;
    }
    var maxDd := 0.0;
    var peak := e[0];
    var i := 1;
    while i < |e|
      invariant 1 <= i <= |e|
      invariant peak == Peak(e, i - 1)
      invariant maxDd == MaxDrawdownUpTo(e, i)
    {
      MaxPrefixStep(e, i);
      assert e[..i] == e[..i - 1 + 1];
      if e[i] > peak {
        peak := e[i];
      }
      assert peak == Peak(e, i);
      var dd := Div(e[i] - peak, peak);
      maxDd := Min2(maxDd, dd);
      i := i + 1;
    }
    r := maxDd;
  }

  /** At most one point: no drawdown. Otherwise never positive, and no lower
      than any single fall. */
  lemma MaxDrawdownBounds(e: seq<real>)
    requires PeaksNonZero(e)
    ensures |e| <= 1 ==> MaxDrawdownValue(e) == 0.0
    ensures MaxDrawdownValue(e) <= 0.0
    ensures forall i :: 1 <= i < |e| ==> MaxDrawdownValue(e) <= Fall(e, i)
  {
  }

  /** The maximum drawdown is one of the falls, or 0. */
  lemma {:induction false} MaxDrawdownAttained(e: seq<real>, n: nat)
    requires 1 <= n <= |e| && PeaksNonZero(e)
    ensures MaxDrawdownUpTo(e, n) == 0.0 || exists i :: 1 <= i < n && MaxDrawdownUpTo(e, n) == Fall(e, i)
  {
    if n > 1 {
      MaxDrawdownAttained(e, n - 1);
    }
  }

  /** A positive curve never loses more than everything. */
  lemma {:induction false} MaxDrawdownAboveMinusOne(e: seq<real>, n: nat)
    requires 1 <= n <= |e| && AllPositive(e)
    ensures PeaksNonZero(e)
    ensures -1.0 < MaxDrawdownUpTo(e, n)
  {
    PositivePeaks(e);
    if n > 1 {
      MaxDrawdownAboveMinusOne(e, n - 1);
      FallOfPositive(e, n - 1);
    }
  }

  /** A curve that never falls has no drawdown. */
  lemma {:induction false} MaxDrawdownNonDecreasing(e: seq<real>, n: nat)
    requires 1 <= n <= |e| && PeaksNonZero(e)
    requires forall i, j :: 0 <= i <= j < |e| ==> e[i] <= e[j]
    ensures MaxDrawdownUpTo(e, n) == 0.0
  {
    if n > 1 {
      MaxDrawdownNonDecreasing(e, n - 1);
      var pre := e[..n];
      MaxIsMaximum(pre);
      assert Peak(e, n - 1) == e[n - 1] by {
        var j :| 0 <= j < n && pre[j] == Max(pre);
        assert pre[n - 1] == e[n - 1];
      }
    }
  }

  /** Rescaling the curve by a positive factor changes no fall, hence not
      the maximum drawdown. */
  lemma {:induction false} MaxDrawdownScaleInvariant(a: real, e: seq<real>, n: nat)
    requires 0.0 < a && 1 <= n <= |e| && PeaksNonZero(e)
    ensures PeaksNonZero(Scale(a, e))
    ensures MaxDrawdownUpTo(Scale(a, e), n) == MaxDrawdownUpTo(e, n)
  {
    ScaledPeaks(a, e);
    if n > 1 {
      MaxDrawdownScaleInvariant(a, e, n - 1);
      var i := n - 1;
      var q := Scale(a, e);
      ScalePrefix(a, e, i + 1);
      MaxScale(a, e[..i + 1]);
      ScaleAt(a, e, i);
      FallScale(a, e[i], Peak(e, i));
      assert Fall(q, i) == Fall(e, i);
    }
  }

  lemma PositivePeaks(e: seq<real>)
    requires AllPositive(e)
    ensures PeaksNonZero(e)
    ensures forall i :: 0 <= i < |e| ==> e[i] <= Peak(e, i) && 0.0 < Peak(e, i)
  {
    forall i | 0 <= i < |e|
      ensures e[i] <= Peak(e, i) && 0.0 < Peak(e, i)
    {
      var pre := e[..i + 1];
      MaxIsMaximum(pre);
      assert pre[i] == e[i];
    }
  }

  lemma FallOfPositive(e: seq<real>, i: nat)
    requires 1 <= i < |e| && AllPositive(e)
    ensures PeaksNonZero(e)
    ensures -1.0 < Fall(e, i) <= 0.0
  {
    PositivePeaks(e);
    FallBounds(e[i], Peak(e, i));
  }

  lemma ScaledPeaks(a: real, e: seq<real>)
    requires 0.0 < a && PeaksNonZero(e)
    ensures PeaksNonZero(Scale(a, e))
  {
    forall i | 1 <= i < |e|
      ensures Peak(Scale(a, e), i) != 0.0
    {
      ScalePrefix(a, e, i + 1);
      MaxScale(a, e[..i + 1]);
      ProductNonZero(a, Peak(e, i));
    }
  }

  // Arithmetic facts about a single fall, over plain variables.

  lemma FallBounds(x: real, m: real)
    requires 0.0 < x <= m
    ensures -1.0 < Div(x - m, m) <= 0.0
    ensures Div(x - m, m) == 0.0 <==> x == m
  {
    QuotientBounds(x, m, (x - m) / m);
  }

  lemma QuotientBounds(x: real, m: real, q: real)
    requires 0.0 < x <= m && q == (x - m) / m
    ensures -1.0 < q <= 0.0
    ensures q == 0.0 <==> x == m
  {
    SignOfQuotient(x, m, x / m);
    assert m / m == 1.0;
    assert q == x / m - m / m;
    QuotientMonotone(x, m, m, x / m, m / m);
  }

  lemma FallScale(a: real, x: real, m: real)
    requires 0.0 < a && m != 0.0
    ensures Mul(a, m) != 0.0
    ensures Div(Mul(a, x) - Mul(a, m), Mul(a, m)) == Div(x - m, m)
  {
  }

  lemma ProductNonZero(a: real, m: real)
    requires 0.0 < a && m != 0.0
    ensures Mul(a, m) != 0.0
  {
  }
}
