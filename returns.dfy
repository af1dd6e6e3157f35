/** `Returns::log_returns`: the series of log price ratios, one entry per
    consecutive pair of prices, labelled with the later price's date. */
module Returns {
  import opened Results
  import opened Numeric
  import opened Series

  /** The log return from price i to price i + 1. */
  function LogReturnAt(log: real -> real, p: seq<real>, i: nat): real
    requires i + 1 < |p| && p[i] != 0.0
  {
    log(Div(p[i + 1], p[i]))
  }

  /** One log return per consecutive pair of prices. */
  function LogReturnValues(log: real -> real, p: seq<real>): (r: seq<real>)
    requires 2 <= |p| && AllPositive(p)
    ensures |r| == |p| - 1
    ensures forall i :: 0 <= i < |r| ==> r[i] == LogReturnAt(log, p, i)
  {
    seq(|p| - 1, i requires 0 <= i < |p| - 1 => LogReturnAt(log, p, i))
  }

  /** `log_returns(prices)`: invalid_argument for fewer than two prices or a
      non-positive price; otherwise N - 1 log ratios, entry i labelled with
      the date of price i + 1 when the price series has one. */
  method LogReturns(prices: TimeSeries, log: real -> real) returns (r: Result<TimeSeries>)
    ensures r.Err? <==> prices.Size() < 2 || !AllPositive(prices.values)
    ensures r.Err? ==> r.error == InvalidArgument
    ensures r.Ok? ==> fresh(r.value)
    ensures r.Ok? ==> r.value.values == LogReturnValues(log, prices.values)
    ensures r.Ok? ==> r.value.dates == ShiftedDates(prices.dates, prices.Size() - 1, 1)
  {
    var n := prices.Size();
    if n < 2 {
      return Err(InvalidArgument);
    }
    var rets := new TimeSeries.Sized(n - 1);
    var i := 1;
    while i < n
      invariant 1 <= i <= n
      invariant 1 < i ==> forall j :: 0 <= j < i ==> 0.0 < prices.values[j]
      invariant |rets.values| == n - 1 && |rets.dates| == n - 1
      invariant forall j :: 0 <= j < i - 1 ==> rets.values[j] == LogReturnAt(log, prices.values, j)
      invariant forall j :: 0 <= j < n - 1 ==>
                  rets.dates[j] == if j < i - 1 && j + 1 < |prices.dates| then prices.dates[j + 1] else ""
    {
      if prices.values[i - 1] <= 0.0 || prices.values[i] <= 0.0 {
        return Err(InvalidArgument);
      }
      var o := rets.Set(i - 1, log(Div(prices.values[i], prices.values[i - 1])));
      if i < |prices.dates| {
        rets.dates := rets.dates[i - 1 := prices.dates[i]];
      }
      i := i + 1;
    }
    r := Ok(rets);
  }

  /** The log returns telescope: they add up to the log of the overall price
      ratio. */
  lemma {:induction false} LogReturnsTelescope(log: real -> real, p: seq<real>)
    requires IsLog(log) && 2 <= |p| && AllPositive(p)
    ensures Sum(LogReturnValues(log, p)) == log(Div(p[|p| - 1], p[0]))
  {
    var n := |p| - 1;
    var r := LogReturnValues(log, p);
    if n == 1 {
      assert r == [LogReturnAt(log, p, 0)];
      assert Sum(r) == Sum([]) + r[0];
    } else {
      var init := p[..n];
      LogReturnsTelescope(log, init);
      LogReturnsPrefix(log, p);
      assert Sum(r) == Sum(LogReturnValues(log, init)) + LogReturnAt(log, p, n - 1);
      RatioProduct(p[0], p[n - 1], p[n]);
      LogProduct(log, Div(p[n - 1], p[0]), Div(p[n], p[n - 1]));
    }
  }

  /** Each return depends on its two prices only through their ratio, so
      rescaling every price by the same positive factor changes nothing. */
  lemma LogReturnsScaleInvariant(log: real -> real, a: real, p: seq<real>)
    requires 0.0 < a && 2 <= |p| && AllPositive(p)
    ensures AllPositive(Scale(a, p))
    ensures LogReturnValues(log, Scale(a, p)) == LogReturnValues(log, p)
  {
    var q := Scale(a, p);
    forall i | 0 <= i < |p|
      ensures q[i] == Mul(a, p[i]) && 0.0 < q[i]
    {
      ScaleAt(a, p, i);
      MulPositive(a, p[i]);
    }
    forall i | 0 <= i < |p| - 1
      ensures Div(q[i + 1], q[i]) == Div(p[i + 1], p[i])
    {
      RatioScale(a, p[i + 1], p[i]);
    }
  }

  /** Dropping the last price drops the last return. */
  lemma LogReturnsPrefix(log: real -> real, p: seq<real>)
    requires 3 <= |p| && AllPositive(p)
    ensures AllPositive(p[..|p| - 1])
    ensures LogReturnValues(log, p)[..|p| - 2] == LogReturnValues(log, p[..|p| - 1])
  {
  }

  lemma LogProduct(log: real -> real, x: real, y: real)
    requires IsLog(log) && 0.0 < x && 0.0 < y
    ensures log(Mul(x, y)) == log(x) + log(y)
  {
  }

  lemma RatioProduct(p0: real, p1: real, p2: real)
    requires 0.0 < p0 && 0.0 < p1 && 0.0 < p2
    ensures 0.0 < Div(p1, p0) && 0.0 < Div(p2, p1)
    ensures Mul(Div(p1, p0), Div(p2, p1)) == Div(p2, p0)
  {
  }

  lemma RatioScale(a: real, x: real, y: real)
    requires 0.0 < a && y != 0.0
    ensures Mul(a, y) != 0.0
    ensures Div(Mul(a, x), Mul(a, y)) == Div(x, y)
  {
  }
}
