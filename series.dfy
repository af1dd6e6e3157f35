/** The value/date series of `TimeSeries.hpp`: two public vectors, the values
    read and written through a range-checked index. */
module Series {
  import opened Results

  class TimeSeries {
    var values: seq<real>
    var dates: seq<string>

    /** `TimeSeries()`: no values and no dates. */
    constructor Empty()
      ensures values == [] && dates == []
    {
      values, dates := [], [];
    }

    /** `TimeSeries(n)`: n zero values and n empty date labels. */
    constructor Sized(n: nat)
      ensures |values| == n && |dates| == n
      ensures forall i :: 0 <= i < n ==> values[i] == 0.0 && dates[i] == ""
    {
      values := seq(n, _ => 0.0);
      dates := seq(n, _ => "");
    }

    /** `size()`: the number of values, whatever the number of dates. */
    function Size(): (n: nat)
      reads this
      ensures n == |values|
    {
      |values|
    }

    /** The checked read `s[i]`. */
    function At(i: nat): (r: Result<real>)
      reads this
      ensures r.Err? <==> Size() <= i
      ensures r.Err? ==> r.error == OutOfRange
      ensures r.Ok? ==> r.value == values[i]
    {
      if i >= |values| then Err(OutOfRange) else Ok(values[i])
    }

    /** The checked write `s[i] = v`: only `values[i]` changes. */
    method Set(i: nat, v: real) returns (o: Outcome)
      modifies this
      ensures o.Fail? <==> old(Size()) <= i
      ensures o.Fail? ==> o.error == OutOfRange && values == old(values)
      ensures o.Pass? ==> values == old(values)[i := v]
      ensures dates == old(dates)
    {
      if i >= |values| {
        return Fail(OutOfRange);
      }
      values := values[i := v];
      o := Pass;
    }
  }

  /** The date labels a builder copies from `src` into a series of length n:
      label i comes from `src[i + offset]` when that index exists and stays
      empty otherwise. */
  function ShiftedDates(src: seq<string>, n: nat, offset: nat): (r: seq<string>)
    ensures |r| == n
    ensures forall i :: 0 <= i < n && i + offset < |src| ==> r[i] == src[i + offset]
    ensures forall i :: 0 <= i < n && |src| <= i + offset ==> r[i] == ""
  {
    seq(n, i requires 0 <= i < n => if i + offset < |src| then src[i + offset] else "")
  }
}
