/** `Backtester::run`: applies a strategy's signals to a price series and
    compounds an equity curve from 100. The signal at i - 1 earns the price
    move from i - 1 to i. */
module Backtester {
  import opened Results
  import opened Numeric
  import opened Series
  import opened Strategies

  datatype BacktestResult = BacktestResult(equityCurve: TimeSeries, strategyReturns: TimeSeries, signals: TimeSeries)

  /** The equity the curve starts from. */
  const InitialEquity: real := 100.0

  /** Every price the loop divides by is nonzero. */
  predicate Divisible(p: seq<real>)
  {
    forall i :: 0 <= i < |p| - 1 ==> p[i] != 0.0
  }

  /** The simple return of the price move from i to i + 1. */
  function PriceReturn(p: seq<real>, i: nat): real
    requires i + 1 < |p| && Divisible(p)
  {
    Div(p[i + 1] - p[i], p[i])
  }

  /** Entry i is signal i times the price return from i to i + 1. */
  function StrategyReturnValues(p: seq<real>, s: seq<real>): (r: seq<real>)
    requires 1 <= |p| && |p| - 1 <= |s| && Divisible(p)
    ensures |r| == |p| - 1
  {
    seq(|p| - 1, i requires 0 <= i < |p| - 1 => Mul(s[i], PriceReturn(p, i)))
  }

  /** The curve the loop builds: 100, then each point the previous one grown
      by (1 + return). */
  function EquityValues(r: seq<real>): (e: seq<real>)
    ensures |e| == |r| + 1 && e[0] == InitialEquity
  {
    if |r| == 0 then [InitialEquity]
    else
      var e := EquityValues(r[..|r| - 1]);
      e + [Mul(e[|r| - 1], 1.0 + r[|r| - 1])]
  }

  /** The product of (1 + r[j]) over all j. */
  function Compounded(r: seq<real>): real
  {
    if |r| == 0 then 1.0 else Mul(Compounded(r[..|r| - 1]), 1.0 + r[|r| - 1])
  }

  /** Equity dates: the first point keeps an empty label, point i takes the
      date of price i when there is one. */
  function EquityDates(src: seq<string>, n: nat): (d: seq<string>)
    ensures |d| == n
  {
    seq(n, i requires 0 <= i < n => if 0 < i < |src| then src[i] else "")
  }

  /** `run(prices, strategy)`: the strategy's error if it rejects the series;
      length_error for an empty series, whose `size() - 1` wraps around;
      otherwise its signals, the N - 1 strategy returns and the N-point equity
      curve. */
  method Run(prices: TimeSeries, strategy: Strategy, sqrt: real -> real) returns (r: Result<BacktestResult>)
    requires Supported(strategy) && Divisible(prices.values)
    ensures r.Err? <==> TooShort(strategy, prices.Size()) || prices.Size() == 0
    ensures r.Err? ==> r.error == if TooShort(strategy, prices.Size()) then InvalidArgument else LengthError
    ensures r.Ok? ==> fresh(r.value.equityCurve) && fresh(r.value.strategyReturns) && fresh(r.value.signals)
    ensures r.Ok? ==> r.value.signals.values == SignalValues(sqrt, strategy, prices.values)
    ensures r.Ok? ==> r.value.signals.dates == ShiftedDates(prices.dates, prices.Size(), 0)
    ensures r.Ok? ==> r.value.strategyReturns.values == StrategyReturnValues(prices.values, r.value.signals.values)
    ensures r.Ok? ==> r.value.strategyReturns.dates == ShiftedDates(prices.dates, prices.Size() - 1, 1)
    ensures r.Ok? ==> r.value.equityCurve.values == EquityValues(r.value.strategyReturns.values)
    ensures r.Ok? ==> r.value.equityCurve.dates == EquityDates(prices.dates, prices.Size())
  {
    var generated := GenerateSignals(strategy, prices, sqrt);
    if generated.Err? {
      return Err(generated.error);
    }
    var signals := generated.value;
    var n := prices.Size();
    if n == 0 {
      return Err(LengthError);
    }
    var rets, equity := Compound(prices, signals.values);
    r := Ok(BacktestResult(equity, rets, signals));
  }

  /** The loop of `run`: the strategy returns and the equity curve for
      signals s, with their date labels. */
  method Compound(prices: TimeSeries, s: seq<real>) returns (rets: TimeSeries, equity: TimeSeries)
    requires 1 <= prices.Size() && prices.Size() - 1 <= |s| && Divisible(prices.values)
    ensures fresh(rets) && fresh(equity)
    ensures rets.values == StrategyReturnValues(prices.values, s)
    ensures rets.dates == ShiftedDates(prices.dates, prices.Size() - 1, 1)
    ensures equity.values == EquityValues(rets.values)
    ensures equity.dates == EquityDates(prices.dates, prices.Size())
  {
    var n := prices.Size();
    var p := prices.values;
    rets := new TimeSeries.Sized(n - 1);
    equity := new TimeSeries.Sized(n);
    var o := equity.Set(0, InitialEquity);
    CopiedNone(prices.dates, n - 1, 1, 0);
    CopiedNone(prices.dates, n, 0, 1);
    assert rets.values[..0] == [] && equity.values[..1] == [InitialEquity];
    var i := 1;
    while i < n
      invariant Compounding(p, s, prices.dates, rets.values, rets.dates, equity.values, equity.dates, i)
      decreases n - i
    {
      CompoundStep(rets, equity, p, s, prices.dates, i);
      i := i + 1;
    }
    assert rets.values == rets.values[..n - 1];
    assert equity.values == equity.values[..n];
    CopiedAll(prices.dates, n);
  }

  /** The state of the loop of `run` before pass i: returns 0 .. i - 2 and
      equity points 0 .. i - 1 are in place, with their labels. */
  ghost predicate Compounding(p: seq<real>, s: seq<real>, dates: seq<string>,
                              rv: seq<real>, rd: seq<string>, ev: seq<real>, ed: seq<string>, i: nat)
  {
    Divisible(p) && 1 <= i <= |p| && |p| - 1 <= |s|
    && |rv| == |p| - 1 && |ev| == |p|
    && rv[..i - 1] == StrategyReturnValues(p, s)[..i - 1]
    && ev[..i] == EquityValues(rv[..i - 1])
    && rd == Copied(dates, |p| - 1, 1, 0, i - 1)
    && ed == Copied(dates, |p|, 0, 1, i)
  }

  /** Pass i of the loop: the return and the equity point, then the labels. */
  method CompoundStep(rets: TimeSeries, equity: TimeSeries, p: seq<real>, s: seq<real>, dates: seq<string>, i: nat)
    requires rets != equity && i < |p|
    requires Compounding(p, s, dates, rets.values, rets.dates, equity.values, equity.dates, i)
    modifies rets, equity
    ensures Compounding(p, s, dates, rets.values, rets.dates, equity.values, equity.dates, i + 1)
  {
    ghost var r0, e0 := rets.values, equity.values;
    Advance(rets, equity, p, s, i);
    AdvanceKeepsInvariant(p, s, i, r0, rets.values, e0, equity.values);
    CopiedStep(dates, |p| - 1, 1, 0, i - 1);
    CopiedStep(dates, |p|, 0, 1, i);
    if i < |dates| {
      rets.dates := rets.dates[i - 1 := dates[i]];
      equity.dates := equity.dates[i := dates[i]];
    }
  }

  /** The labels of a series of length n after the loop has copied those
      with index in lo .. hi - 1: label k is `src[k + offset]` when that
      index exists, the rest stay empty. */
  function Copied(src: seq<string>, n: nat, offset: nat, lo: nat, hi: nat): (d: seq<string>)
    ensures |d| == n
  {
    if n == 0 then []
    else Copied(src, n - 1, offset, lo, hi) + [if lo <= n - 1 < hi && n - 1 + offset < |src| then src[n - 1 + offset] else ""]
  }

  lemma {:induction false} CopiedAt(src: seq<string>, n: nat, offset: nat, lo: nat, hi: nat, k: nat)
    requires k < n
    ensures Copied(src, n, offset, lo, hi)[k] == if lo <= k < hi && k + offset < |src| then src[k + offset] else ""
  {
    if k < n - 1 {
      CopiedAt(src, n - 1, offset, lo, hi, k);
    }
  }

  /** Copying label hi extends the copied range by one. */
  lemma CopiedStep(src: seq<string>, n: nat, offset: nat, lo: nat, hi: nat)
    requires lo <= hi < n
    ensures Copied(src, n, offset, lo, hi + 1) ==
      if hi + offset < |src| then Copied(src, n, offset, lo, hi)[hi := src[hi + offset]] else Copied(src, n, offset, lo, hi)
  {
    var a, b := Copied(src, n, offset, lo, hi + 1), Copied(src, n, offset, lo, hi);
    forall k | 0 <= k < n
      ensures a[k] == if k == hi && hi + offset < |src| then src[hi + offset] else b[k]
    {
      CopiedAt(src, n, offset, lo, hi + 1, k);
      CopiedAt(src, n, offset, lo, hi, k);
    }
  }

  /** Before the loop nothing is copied; after it, the return labels are
      the prices' labels shifted by one and the equity labels those of
      points 1 .. n - 1. */
  lemma CopiedAll(src: seq<string>, n: nat)
    requires 1 <= n
    ensures Copied(src, n - 1, 1, 0, n - 1) == ShiftedDates(src, n - 1, 1)
    ensures Copied(src, n, 0, 1, n) == EquityDates(src, n)
  {
    var m := n - 1;
    forall k | 0 <= k < m
      ensures Copied(src, m, 1, 0, m)[k] == ShiftedDates(src, m, 1)[k]
    {
      CopiedAt(src, m, 1, 0, m, k);
    }
    forall k | 0 <= k < n
      ensures Copied(src, n, 0, 1, n)[k] == EquityDates(src, n)[k]
    {
      CopiedAt(src, n, 0, 1, n, k);
    }
  }

  /** Labels of a fresh series: nothing copied yet. */
  lemma CopiedNone(src: seq<string>, n: nat, offset: nat, lo: nat)
    ensures Copied(src, n, offset, lo, lo) == seq(n, _ => "")
  {
    forall k | 0 <= k < n
      ensures Copied(src, n, offset, lo, lo)[k] == ""
    {
      CopiedAt(src, n, offset, lo, lo, k);
    }
  }

  /** One pass of the loop: return i - 1 is signal i - 1 times the price move
      into i, and equity point i is point i - 1 grown by it. */
  method Advance(rets: TimeSeries, equity: TimeSeries, p: seq<real>, s: seq<real>, i: nat)
    requires rets != equity && Divisible(p) && 1 <= i < |p| && |p| - 1 <= |s|
    requires |rets.values| == |p| - 1 && |equity.values| == |p|
    modifies rets, equity
    ensures rets.values == old(rets.values)[i - 1 := Mul(s[i - 1], PriceReturn(p, i - 1))]
    ensures equity.values == old(equity.values)[i := Mul(old(equity.values)[i - 1], 1.0 + Mul(s[i - 1], PriceReturn(p, i - 1)))]
    ensures rets.dates == old(rets.dates) && equity.dates == old(equity.dates)
  {
    var priceReturn := Div(p[i] - p[i - 1], p[i - 1]);
    var strategyReturn := Mul(s[i - 1], priceReturn);
    var o := rets.Set(i - 1, strategyReturn);
    var grown := Mul(equity.values[i - 1], 1.0 + strategyReturn);
    o := equity.Set(i, grown);
  }

  /** `Advance` carries the loop invariant of `Compound` from i to i + 1. */
  lemma AdvanceKeepsInvariant(p: seq<real>, s: seq<real>, i: nat, r0: seq<real>, r1: seq<real>, e0: seq<real>, e1: seq<real>)
    requires Divisible(p) && 1 <= i < |p| && |p| - 1 <= |s|
    requires |r0| == |p| - 1 && |e0| == |p|
    requires r0[..i - 1] == StrategyReturnValues(p, s)[..i - 1]
    requires e0[..i] == EquityValues(r0[..i - 1])
    requires r1 == r0[i - 1 := Mul(s[i - 1], PriceReturn(p, i - 1))]
    requires e1 == e0[i := Mul(e0[i - 1], 1.0 + Mul(s[i - 1], PriceReturn(p, i - 1)))]
    ensures r1[..i] == StrategyReturnValues(p, s)[..i]
    ensures e1[..i + 1] == EquityValues(r1[..i])
  {
    var x := Mul(s[i - 1], PriceReturn(p, i - 1));
    var before := r0[..i - 1];
    assert r1[..i] == before + [x];
    assert e1[..i + 1] == e0[..i] + [e1[i]];
    EquityStep(before, x);
  }

  lemma EquityStep(r: seq<real>, x: real)
    ensures EquityValues(r + [x]) == EquityValues(r) + [Mul(EquityValues(r)[|r|], 1.0 + x)]
  {
    assert (r + [x])[..|r|] == r;
  }

  /** Closed form of the curve: point n is 100 times the product of
      (1 + r[j]) over j < n. */
  lemma {:induction false} EquityClosedForm(r: seq<real>, n: nat)
    requires n <= |r|
    ensures EquityValues(r)[n] == Mul(InitialEquity, Compounded(r[..n]))
  {
    if n < |r| {
      EquityPrefix(r, |r| - 1);
      EquityClosedForm(r[..|r| - 1], n);
      assert r[..|r| - 1][..n] == r[..n];
    } else if n > 0 {
      var init := r[..n - 1];
      EquityClosedForm(init, n - 1);
      assert init[..n - 1] == init;
      assert r[..n][..n - 1] == init;
      MulAssociative(InitialEquity, Compounded(init), 1.0 + r[n - 1]);
    } else {
      assert r[..0] == [];
    }
  }

  /** The curve of a prefix of the returns is a prefix of the curve. */
  lemma {:induction false} EquityPrefix(r: seq<real>, m: nat)
    requires m <= |r|
    ensures EquityValues(r)[..m + 1] == EquityValues(r[..m])
  {
    if m < |r| {
      var init := r[..|r| - 1];
      EquityPrefix(init, m);
      assert init[..m] == r[..m];
    } else {
      assert r[..m] == r;
    }
  }

  /** Flat signals earn nothing: the curve stays at 100. */
  lemma {:induction false} FlatSignalsKeepEquity(p: seq<real>, s: seq<real>, n: nat)
    requires 1 <= |p| && |p| - 1 <= |s| && Divisible(p) && n < |p|
    requires forall i :: 0 <= i < |p| - 1 ==> s[i] == 0.0
    ensures EquityValues(StrategyReturnValues(p, s))[n] == InitialEquity
  {
    var r := StrategyReturnValues(p, s);
    if n > 0 {
      FlatSignalsKeepEquity(p, s, n - 1);
      EquityPrefix(r, n);
      EquityPrefix(r, n - 1);
      assert r[..n][..n - 1] == r[..n - 1];
      assert r[n - 1] == Mul(0.0, PriceReturn(p, n - 1)) == 0.0;
    }
  }

  /** Fully invested signals track the price: point i is 100 * p[i] / p[0]. */
  lemma {:induction false} LongSignalsTrackPrice(p: seq<real>, s: seq<real>, n: nat)
    requires 1 <= |p| && |p| - 1 <= |s| && Divisible(p) && n < |p| && p[0] != 0.0
    requires forall i :: 0 <= i < |p| - 1 ==> s[i] == 1.0
    ensures EquityValues(StrategyReturnValues(p, s))[n] == Mul(InitialEquity, Div(p[n], p[0]))
  {
    var r := StrategyReturnValues(p, s);
    if n > 0 {
      LongSignalsTrackPrice(p, s, n - 1);
      EquityPrefix(r, n);
      EquityPrefix(r, n - 1);
      assert r[..n][..n - 1] == r[..n - 1];
      assert r[n - 1] == Mul(1.0, PriceReturn(p, n - 1)) == PriceReturn(p, n - 1);
      TrackStep(p[0], p[n - 1], p[n]);
    } else {
      SelfQuotient(p[0]);
    }
  }

  /** Buy and hold fed to the backtester earns exactly the price returns, so
      its curve tracks the price. */
  lemma BuyHoldTracksPrice(sqrt: real -> real, p: seq<real>, n: nat)
    requires 1 <= |p| && Divisible(p) && n < |p| && p[0] != 0.0
    ensures StrategyReturnValues(p, SignalValues(sqrt, BuyHold, p))[..n] == seq(n, i requires 0 <= i < n => PriceReturn(p, i))
    ensures EquityValues(StrategyReturnValues(p, SignalValues(sqrt, BuyHold, p)))[n] == Mul(InitialEquity, Div(p[n], p[0]))
  {
    LongSignalsTrackPrice(p, SignalValues(sqrt, BuyHold, p), n);
  }

  lemma MulAssociative(a: real, b: real, c: real)
    ensures Mul(Mul(a, b), c) == Mul(a, Mul(b, c))
  {
  }

  lemma TrackStep(p0: real, p1: real, p2: real)
    requires p0 != 0.0 && p1 != 0.0
    ensures Mul(Mul(InitialEquity, Div(p1, p0)), 1.0 + Div(p2 - p1, p1)) == Mul(InitialEquity, Div(p2, p0))
  {
    TrackStepRaw(p0, p1, p2, 1.0 + (p2 - p1) / p1);
  }

  lemma TrackStepRaw(p0: real, p1: real, p2: real, g: real)
    requires p0 != 0.0 && p1 != 0.0 && g == 1.0 + (p2 - p1) / p1
    ensures (100.0 * (p1 / p0)) * g == 100.0 * (p2 / p0)
  {
    assert g == p2 / p1;
  }
}
