/** Exact-real arithmetic shared by the feature builders, the metrics and the
    strategies: running sums, means, Bessel-corrected variances and maxima,
    each defined the way the C++ loops accumulate them (left to right), plus
    the properties that the foreign `std::sqrt` and `std::log` are assumed
    to have. */
module Numeric {

  /** Left-to-right running sum: the value `acc` holds after `acc += s[i]`
      for every i. */
  function Sum(s: seq<real>): real
  {
    if |s| == 0 then 0.0 else Sum(s[..|s| - 1]) + s[|s| - 1]
  }

  /** One more step of a running sum over a window `s[i..j]`. */
  lemma SumSliceStep(s: seq<real>, i: nat, j: nat)
    requires i <= j < |s|
    ensures Sum(s[i..j + 1]) == Sum(s[i..j]) + s[j]
  {
    assert s[i..j + 1][..j - i] == s[i..j];
  }

  /** One more step of a running sum over a prefix. */
  lemma SumPrefixStep(s: seq<real>, j: nat)
    requires j < |s|
    ensures Sum(s[..j + 1]) == Sum(s[..j]) + s[j]
  {
    assert s[..j + 1][..j] == s[..j];
  }

  lemma {:induction false} SumAppend(a: seq<real>, b: seq<real>)
    ensures Sum(a + b) == Sum(a) + Sum(b)
  {
    if |b| == 0 {
      assert a + b == a;
    } else {
      assert (a + b)[..|a + b| - 1] == a + b[..|b| - 1];
      SumAppend(a, b[..|b| - 1]);
    }
  }

  /** A sum of n copies of c is n * c. */
  lemma {:induction false} SumConstant(s: seq<real>, c: real)
    requires forall i :: 0 <= i < |s| ==> s[i] == c
    ensures Sum(s) == (|s| as real) * c
  {
    if |s| > 0 {
      SumConstant(s[..|s| - 1], c);
    }
  }

  lemma {:induction false} SumNonNegative(s: seq<real>)
    requires forall i :: 0 <= i < |s| ==> 0.0 <= s[i]
    ensures 0.0 <= Sum(s)
  {
    if |s| > 0 {
      SumNonNegative(s[..|s| - 1]);
    }
  }

  /** Sums are monotone in every term. */
  lemma {:induction false} SumMonotone(a: seq<real>, b: seq<real>)
    requires |a| == |b|
    requires forall i :: 0 <= i < |a| ==> a[i] <= b[i]
    ensures Sum(a) <= Sum(b)
  {
    if |a| > 0 {
      SumMonotone(a[..|a| - 1], b[..|b| - 1]);
    }
  }

  /** Every term of a sum of non-negative terms is at most the sum. */
  lemma {:induction false} SumBoundsTerm(s: seq<real>, k: nat)
    requires k < |s|
    requires forall i :: 0 <= i < |s| ==> 0.0 <= s[i]
    ensures s[k] <= Sum(s)
  {
    if k < |s| - 1 {
      SumBoundsTerm(s[..|s| - 1], k);
    } else {
      SumNonNegative(s[..|s| - 1]);
    }
  }

  function Mean(s: seq<real>): real
    requires |s| > 0
  {
    Sum(s) / (|s| as real)
  }

  /** Sum of squared deviations from m: what `variance += diff * diff` holds
      before it is divided. */
  function SqDev(s: seq<real>, m: real): (r: real)
    ensures 0.0 <= r
  {
    if |s| == 0 then 0.0
    else
      var d := s[|s| - 1] - m;
      SquareNonNegative(d, d * d);
      SqDev(s[..|s| - 1], m) + d * d
  }

  lemma SqDevSliceStep(s: seq<real>, m: real, i: nat, j: nat)
    requires i <= j < |s|
    ensures SqDev(s[i..j + 1], m) == SqDev(s[i..j], m) + (s[j] - m) * (s[j] - m)
  {
    assert s[i..j + 1][..j - i] == s[i..j];
  }

  lemma SqDevPrefixStep(s: seq<real>, m: real, j: nat)
    requires j < |s|
    ensures SqDev(s[..j + 1], m) == SqDev(s[..j], m) + (s[j] - m) * (s[j] - m)
  {
    assert s[..j + 1][..j] == s[..j];
  }

  /** The accumulation loop `mean += s[j]` over s[i .. i + w - 1], followed
      by the division by w. */
  method WindowMean(s: seq<real>, i: nat, w: nat) returns (mean: real)
    requires 1 <= w && i + w <= |s|
    ensures mean == Mean(s[i..i + w])
  {
    mean := 0.0;
    var j := i;
    while j < i + w
      invariant i <= j <= i + w
      invariant mean == Sum(s[i..j])
    {
      SumSliceStep(s, i, j);
      mean := mean + s[j];
      j := j + 1;
    }
    mean := mean / (w as real);
  }

  /** The accumulation loop `variance += diff * diff` over s[i .. i + w - 1],
      before the division. */
  method WindowSqDev(s: seq<real>, i: nat, w: nat, m: real) returns (variance: real)
    requires i + w <= |s|
    ensures variance == SqDev(s[i..i + w], m)
  {
    variance := 0.0;
    var j := i;
    while j < i + w
      invariant i <= j <= i + w
      invariant variance == SqDev(s[i..j], m)
    {
      SqDevSliceStep(s, m, i, j);
      variance := variance + (s[j] - m) * (s[j] - m);
      j := j + 1;
    }
  }

  /** Bessel-corrected sample variance (divides by n - 1). */
  function SampleVariance(s: seq<real>): real
    requires 2 <= |s|
  {
    SqDev(s, Mean(s)) / ((|s| - 1) as real)
  }

  lemma SampleVarianceNonNegative(s: seq<real>)
    requires 2 <= |s|
    ensures 0.0 <= SampleVariance(s)
  {
    assert 0.0 <= SqDev(s, Mean(s));
  }

  predicate Constant(s: seq<real>)
  {
    forall i :: 0 <= i < |s| ==> s[i] == s[0]
  }

  /** The mean of a constant sequence is that constant. */
  lemma ConstantMean(s: seq<real>)
    requires |s| > 0 && Constant(s)
    ensures Mean(s) == s[0]
  {
    SumConstant(s, s[0]);
  }

  /** A constant sequence has no spread about its own value. */
  lemma {:induction false} ConstantSqDev(s: seq<real>, c: real)
    requires forall i :: 0 <= i < |s| ==> s[i] == c
    ensures SqDev(s, c) == 0.0
  {
    if |s| > 0 {
      ConstantSqDev(s[..|s| - 1], c);
    }
  }

  /** A constant sequence has sample variance zero. */
  lemma ConstantVariance(s: seq<real>)
    requires 2 <= |s| && Constant(s)
    ensures SampleVariance(s) == 0.0
  {
    ConstantMean(s);
    ConstantSqDev(s, s[0]);
  }

  predicate AllPositive(s: seq<real>)
  {
    forall i :: 0 <= i < |s| ==> 0.0 < s[i]
  }

  /** `std::max(a, b)`: a unless a < b. */
  function Max2(a: real, b: real): real
  {
    if a < b then b else a
  }

  /** `std::min(a, b)`: a unless b < a. */
  function Min2(a: real, b: real): real
  {
    if b < a then b else a
  }

  /** The running maximum kept by the drawdown loops. */
  function Max(s: seq<real>): real
    requires |s| > 0
  {
    if |s| == 1 then s[0] else Max2(Max(s[..|s| - 1]), s[|s| - 1])
  }

  /** The running maximum bounds every element and is one of them. */
  lemma {:induction false} MaxIsMaximum(s: seq<real>)
    requires |s| > 0
    ensures forall i :: 0 <= i < |s| ==> s[i] <= Max(s)
    ensures exists i :: 0 <= i < |s| && s[i] == Max(s)
  {
    if |s| > 1 {
      var init := s[..|s| - 1];
      MaxIsMaximum(init);
      assert forall i :: 0 <= i < |init| ==> init[i] == s[i];
      var j :| 0 <= j < |init| && init[j] == Max(init);
      assert Max(s) == Max2(Max(init), s[|s| - 1]);
      if Max(init) < s[|s| - 1] {
        assert s[|s| - 1] == Max(s);
      } else {
        assert s[j] == Max(s);
      }
    } else {
      assert s[0] == Max(s);
    }
  }

  lemma MaxSliceStep(s: seq<real>, i: nat, j: nat)
    requires i <= j < |s|
    ensures Max(s[i..j + 1]) == if i == j then s[j] else Max2(Max(s[i..j]), s[j])
  {
    assert s[i..j + 1][..j - i] == s[i..j];
  }

  lemma MaxPrefixStep(s: seq<real>, j: nat)
    requires 0 < j < |s|
    ensures Max(s[..j + 1]) == Max2(Max(s[..j]), s[j])
  {
    assert s[..j + 1][..j] == s[..j];
  }

  /** The product a * x. Recursive definitions below multiply through this
      function so that each product enters a proof only where it is unfolded. */
  function Mul(a: real, x: real): real
  {
    a * x
  }

  /** The quotient x / y, kept behind a function for the same reason. */
  function Div(x: real, y: real): real
    requires y != 0.0
  {
    x / y
  }

  lemma SelfQuotient(x: real)
    requires x != 0.0
    ensures Div(x, x) == 1.0
  {
  }

  /** Every element multiplied by a. */
  function Scale(a: real, s: seq<real>): (r: seq<real>)
    ensures |r| == |s|
  {
    if |s| == 0 then [] else Scale(a, s[..|s| - 1]) + [Mul(a, s[|s| - 1])]
  }

  lemma {:induction false} ScaleAt(a: real, s: seq<real>, i: nat)
    requires i < |s|
    ensures Scale(a, s)[i] == Mul(a, s[i])
  {
    if i < |s| - 1 {
      ScaleAt(a, s[..|s| - 1], i);
    }
  }

  lemma {:induction false} ScalePrefix(a: real, s: seq<real>, n: nat)
    requires n <= |s|
    ensures Scale(a, s)[..n] == Scale(a, s[..n])
  {
    if n < |s| {
      var init := s[..|s| - 1];
      assert Scale(a, s) == Scale(a, init) + [Mul(a, s[|s| - 1])];
      assert Scale(a, s)[..n] == Scale(a, init)[..n];
      ScalePrefix(a, init, n);
      assert init[..n] == s[..n];
    } else {
      assert s[..n] == s;
      assert Scale(a, s)[..n] == Scale(a, s);
    }
  }

  /** Scaling by a positive constant commutes with the maximum. */
  lemma {:induction false} MaxScale(a: real, s: seq<real>)
    requires 0.0 < a && |s| > 0
    ensures Max(Scale(a, s)) == Mul(a, Max(s))
  {
    if |s| == 1 {
      assert Scale(a, s) == [Mul(a, s[0])];
    } else {
      var init := s[..|s| - 1];
      assert Scale(a, s) == Scale(a, init) + [Mul(a, s[|s| - 1])];
      MaxScale(a, init);
      MaxSnoc(Scale(a, init), Mul(a, s[|s| - 1]));
      Max2Scale(a, Max(init), s[|s| - 1]);
    }
  }

  lemma MaxSnoc(u: seq<real>, x: real)
    requires |u| > 0
    ensures Max(u + [x]) == Max2(Max(u), x)
  {
    assert (u + [x])[..|u|] == u;
  }

  lemma Max2Scale(a: real, m: real, x: real)
    requires 0.0 < a
    ensures Max2(a * m, a * x) == a * Max2(m, x)
  {
    if m < x {
      ScaleStrictMonotone(a, m, x, a * m, a * x);
    } else {
      ScaleMonotone(a, x, m, a * x, a * m);
    }
  }

  /** What the model assumes of `std::sqrt`: a non-negative square root on
      non-negative arguments. */
  ghost predicate IsSqrt(sqrt: real -> real)
  {
    forall x :: 0.0 <= x ==> 0.0 <= sqrt(x) && sqrt(x) * sqrt(x) == x
  }

  lemma SqrtZero(sqrt: real -> real)
    requires IsSqrt(sqrt)
    ensures sqrt(0.0) == 0.0
  {
    var r := sqrt(0.0);
    if r > 0.0 {
      ProductPositive(r, r, r * r);
    }
  }

  lemma SqrtPositive(sqrt: real -> real, x: real)
    requires IsSqrt(sqrt) && 0.0 < x
    ensures 0.0 < sqrt(x)
  {
    var r := sqrt(x);
    assert r * r == x;
  }

  /** What the model assumes of `std::log`: it turns products of positive
      numbers into sums. */
  ghost predicate IsLog(log: real -> real)
  {
    forall x, y :: 0.0 < x && 0.0 < y ==> log(x * y) == log(x) + log(y)
  }

  // Sign facts about products, stated over plain variables so that the
  // solver meets each nonlinear term only once.

  lemma MulPositive(a: real, x: real)
    requires 0.0 < a && 0.0 < x
    ensures 0.0 < Mul(a, x)
  {
    ProductPositive(a, x, a * x);
  }

  lemma ProductPositive(x: real, y: real, q: real)
    requires q == x * y && 0.0 < x && 0.0 < y
    ensures 0.0 < q
  {
  }

  lemma ProductNegNeg(x: real, y: real, q: real)
    requires q == x * y && x < 0.0 && y < 0.0
    ensures 0.0 < q
  {
  }

  lemma SquareNonNegative(d: real, q: real)
    requires q == d * d
    ensures 0.0 <= q
    ensures d != 0.0 ==> 0.0 < q
  {
    if d > 0.0 {
      ProductPositive(d, d, q);
    } else if d < 0.0 {
      ProductNegNeg(d, d, q);
    }
  }

  lemma ScaleMonotone(a: real, x: real, y: real, p: real, q: real)
    requires p == a * x && q == a * y && 0.0 < a && x <= y
    ensures p <= q
  {
  }

  lemma ScaleStrictMonotone(a: real, x: real, y: real, p: real, q: real)
    requires p == a * x && q == a * y && 0.0 < a && x < y
    ensures p < q
  {
  }

  /** Dividing by a positive number keeps the sign. */
  lemma QuotientSign(x: real, d: real)
    requires 0.0 < d
    ensures Div(x, d) > 0.0 <==> x > 0.0
    ensures Div(x, d) < 0.0 <==> x < 0.0
  {
    SignOfQuotient(x, d, x / d);
  }

  lemma SignOfQuotient(x: real, d: real, q: real)
    requires 0.0 < d && q == x / d
    ensures q > 0.0 <==> x > 0.0
    ensures q < 0.0 <==> x < 0.0
  {
  }

  /** Dividing by a positive number keeps the order. */
  lemma QuotientMonotone(x: real, y: real, d: real, p: real, q: real)
    requires 0.0 < d && p == x / d && q == y / d && x <= y
    ensures p <= q
  {
  }

  /** A total between n lo and n hi has its n-th part between lo and hi. */
  lemma MeanBetween(x: real, n: real, lo: real, hi: real)
    requires 0.0 < n && n * lo <= x <= n * hi
    ensures lo <= x / n <= hi
  {
  }
}
