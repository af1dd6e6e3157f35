/** What the k-means engine of `Kmeans.cpp` computes, on matrices seen as
    sequences of rows: squared distances, the nearest-centroid assignment and
    its inertia, k-means++ seeding with injected random draws, the centroid
    update with its movement test, and the bounded fitting loop. */
module KMeansSpec {
  import opened Results
  import opened Numeric
  import opened Tally

  // ---------------------------------------------------------------------
  // Shapes
  // ---------------------------------------------------------------------

  /** Every row has `cols` entries. */
  predicate Shaped(m: seq<seq<real>>, cols: nat)
  {
    forall i :: 0 <= i < |m| ==> |m[i]| == cols
  }

  // ---------------------------------------------------------------------
  // Distances. `euclidean_distance` is the square root of SqDist; every
  // comparison of distances is made here on the squares, which order the
  // same way (see SqrtOrder).
  // ---------------------------------------------------------------------

  function SqDist(a: seq<real>, b: seq<real>): (r: real)
    requires |a| == |b|
    ensures 0.0 <= r
  {
    if |a| == 0 then 0.0
    else
      var d := a[|a| - 1] - b[|b| - 1];
      SquareNonNegative(d, d * d);
      SqDist(a[..|a| - 1], b[..|b| - 1]) + d * d
  }

  lemma SqDistPrefixStep(a: seq<real>, b: seq<real>, j: nat)
    requires |a| == |b| && j < |a|
    ensures SqDist(a[..j + 1], b[..j + 1]) == SqDist(a[..j], b[..j]) + (a[j] - b[j]) * (a[j] - b[j])
  {
    assert a[..j + 1][..j] == a[..j];
    assert b[..j + 1][..j] == b[..j];
  }

  /** A point is at distance 0 from itself. */
  lemma {:induction false} SqDistSelf(a: seq<real>)
    ensures SqDist(a, a) == 0.0
  {
    if |a| > 0 {
      SqDistSelf(a[..|a| - 1]);
    }
  }

  /** Only a point itself is at distance 0 from it. */
  lemma {:induction false} SqDistZero(a: seq<real>, b: seq<real>)
    requires |a| == |b| && SqDist(a, b) == 0.0
    ensures a == b
  {
    if |a| > 0 {
      var n := |a| - 1;
      var d := a[n] - b[n];
      SquareNonNegative(d, d * d);
      SqDistZero(a[..n], b[..n]);
      assert a == a[..n] + [a[n]] && b == b[..n] + [b[n]];
    }
  }

  /** A square root that is exact on non-negative reals orders distances
      exactly as their squares do. */
  lemma SqrtOrder(sqrt: real -> real, x: real, y: real)
    requires IsSqrt(sqrt) && 0.0 <= x && 0.0 <= y
    ensures sqrt(x) < sqrt(y) <==> x < y
  {
    RootOrder(sqrt(x), sqrt(y), x, y);
  }

  lemma RootOrder(u: real, v: real, x: real, y: real)
    requires 0.0 <= u && 0.0 <= v && u * u == x && v * v == y
    ensures u < v <==> x < y
  {
    if u < v {
      SquaresOrdered(u, v, x, y);
    } else if v < u {
      SquaresOrdered(v, u, y, x);
    }
  }

  lemma SquaresOrdered(u: real, v: real, x: real, y: real)
    requires 0.0 <= u < v && u * u == x && v * v == y
    ensures x < y
  {
    ProductPositive(v - u, v + u, (v - u) * (v + u));
    assert (v - u) * (v + u) == v * v - u * u;
  }

  // ---------------------------------------------------------------------
  // Assignment
  // ---------------------------------------------------------------------

  /** Every centroid has the point's width. */
  predicate Fits(p: seq<real>, cs: seq<seq<real>>)
  {
    forall c :: 0 <= c < |cs| ==> |cs[c]| == |p|
  }

  /** Every point fits every centroid. */
  predicate AllFit(x: seq<seq<real>>, cs: seq<seq<real>>)
  {
    forall i :: 0 <= i < |x| ==> Fits(x[i], cs)
  }

  /** Rows and centroids of one width fit each other. */
  lemma ShapedFit(x: seq<seq<real>>, cs: seq<seq<real>>, cols: nat)
    requires Shaped(x, cols) && Shaped(cs, cols)
    ensures AllFit(x, cs)
  {
  }

  /** The nearest of the first n centroids to p, the lowest index winning a
      tie: a candidate replaces the best so far only when strictly nearer. */
  function Nearest(p: seq<real>, cs: seq<seq<real>>, n: nat): (best: nat)
    requires 1 <= n <= |cs| && Fits(p, cs)
    ensures best < n
  {
    if n == 1 then 0
    else
      var b := Nearest(p, cs, n - 1);
      if SqDist(p, cs[n - 1]) < SqDist(p, cs[b]) then n - 1 else b
  }

  /** No centroid is nearer than the chosen one, and every centroid before
      it is strictly farther. */
  lemma {:induction false} NearestIsNearest(p: seq<real>, cs: seq<seq<real>>, n: nat)
    requires 1 <= n <= |cs| && Fits(p, cs)
    ensures forall c :: 0 <= c < n ==> SqDist(p, cs[Nearest(p, cs, n)]) <= SqDist(p, cs[c])
    ensures forall c :: 0 <= c < Nearest(p, cs, n) ==> SqDist(p, cs[Nearest(p, cs, n)]) < SqDist(p, cs[c])
  {
    if n > 1 {
      NearestIsNearest(p, cs, n - 1);
    }
  }

  /** The nearest choice depends only on the centroids it looks at. */
  lemma {:induction false} NearestPrefix(p: seq<real>, cs: seq<seq<real>>, cs': seq<seq<real>>, n: nat)
    requires 1 <= n <= |cs| && n <= |cs'| && Fits(p, cs) && Fits(p, cs') && cs[..n] == cs'[..n]
    ensures Nearest(p, cs, n) == Nearest(p, cs', n)
  {
    assert forall c :: 0 <= c < n ==> cs[c] == cs[..n][c] == cs'[c];
    if n > 1 {
      assert cs[..n - 1] == cs[..n][..n - 1] && cs'[..n - 1] == cs'[..n][..n - 1];
      NearestPrefix(p, cs, cs', n - 1);
    }
  }

  /** The squared distance from p to the nearest of the first n centroids. */
  function MinSqDist(p: seq<real>, cs: seq<seq<real>>, n: nat): (d: real)
    requires 1 <= n <= |cs| && Fits(p, cs)
    ensures 0.0 <= d
  {
    SqDist(p, cs[Nearest(p, cs, n)])
  }

  /** The minimum is attained by one of the first n centroids and bounds the
      distance to every one of them. */
  lemma MinSqDistIsMinimum(p: seq<real>, cs: seq<seq<real>>, n: nat)
    requires 1 <= n <= |cs| && Fits(p, cs)
    ensures forall c :: 0 <= c < n ==> MinSqDist(p, cs, n) <= SqDist(p, cs[c])
    ensures exists c :: 0 <= c < n && MinSqDist(p, cs, n) == SqDist(p, cs[c])
  {
    NearestIsNearest(p, cs, n);
    var b := Nearest(p, cs, n);
    assert MinSqDist(p, cs, n) == SqDist(p, cs[b]);
  }

  /** The labels `assign_clusters` returns: the nearest centroid of each row. */
  function Assignment(x: seq<seq<real>>, cs: seq<seq<real>>): (labels: seq<int>)
    requires 1 <= |cs| && AllFit(x, cs)
    ensures |labels| == |x| && InRange(labels, |cs|)
  {
    seq(|x|, i requires 0 <= i < |x| => Nearest(x[i], cs, |cs|))
  }

  /** The inertia over the first n rows: the sum of their squared distances
      to their nearest centroids. */
  function InertiaUpTo(x: seq<seq<real>>, cs: seq<seq<real>>, n: nat): (r: real)
    requires 1 <= |cs| && AllFit(x, cs) && n <= |x|
    ensures 0.0 <= r
  {
    if n == 0 then 0.0 else InertiaUpTo(x, cs, n - 1) + MinSqDist(x[n - 1], cs, |cs|)
  }

  function Inertia(x: seq<seq<real>>, cs: seq<seq<real>>): (r: real)
    requires 1 <= |cs| && AllFit(x, cs)
    ensures 0.0 <= r
  {
    InertiaUpTo(x, cs, |x|)
  }

  /** The total squared distance of the first n rows to the centroids a
      labelling gives them. */
  function Cost(x: seq<seq<real>>, cs: seq<seq<real>>, labels: seq<int>, n: nat): real
    requires AllFit(x, cs) && n <= |x| && n <= |labels| && InRange(labels, |cs|)
  {
    if n == 0 then 0.0 else Cost(x, cs, labels, n - 1) + SqDist(x[n - 1], cs[labels[n - 1]])
  }

  /** The inertia is the cost of the assignment it accompanies, and no
      labelling of the rows with these centroids costs less. */
  lemma {:induction false} InertiaIsMinimalCost(x: seq<seq<real>>, cs: seq<seq<real>>, labels: seq<int>, n: nat)
    requires 1 <= |cs| && AllFit(x, cs) && n <= |x| && n <= |labels| && InRange(labels, |cs|)
    ensures InertiaUpTo(x, cs, n) == Cost(x, cs, Assignment(x, cs), n)
    ensures InertiaUpTo(x, cs, n) <= Cost(x, cs, labels, n)
  {
    if n > 0 {
      InertiaIsMinimalCost(x, cs, labels, n - 1);
      MinSqDistIsMinimum(x[n - 1], cs, |cs|);
    }
  }

  // ---------------------------------------------------------------------
  // Seeding. The first seed is row `first`; seed c (c >= 1) is the row the
  // scan picks with weights the squared distance of each row to its nearest
  // earlier seed and target draws[c - 1] times their sum. The code's weight
  // is d * d for d the minimum of the unsquared distances, which is that
  // squared distance.
  // ---------------------------------------------------------------------

  /** Row weights for seed c: squared distance to the nearest of the first c
      seeds. */
  function Weights(x: seq<seq<real>>, cs: seq<seq<real>>, c: nat): (w: seq<real>)
    requires 1 <= c <= |cs| && AllFit(x, cs)
    ensures |w| == |x|
    ensures forall i :: 0 <= i < |w| ==> 0.0 <= w[i]
  {
    seq(|x|, i requires 0 <= i < |x| => MinSqDist(x[i], cs, c))
  }

  /** The weights depend only on the seeds chosen so far. */
  lemma WeightsPrefix(x: seq<seq<real>>, cs: seq<seq<real>>, cs': seq<seq<real>>, c: nat)
    requires 1 <= c <= |cs| && c <= |cs'| && AllFit(x, cs) && AllFit(x, cs') && cs[..c] == cs'[..c]
    ensures Weights(x, cs, c) == Weights(x, cs', c)
  {
    assert forall s :: 0 <= s < c ==> cs[s] == cs[..c][s] == cs'[s];
    forall i | 0 <= i < |x|
      ensures MinSqDist(x[i], cs, c) == MinSqDist(x[i], cs', c)
    {
      NearestPrefix(x[i], cs, cs', c);
    }
  }

  /** The cumulative weight of rows 0 .. i. */
  function Cum(w: seq<real>, i: nat): real
    requires i < |w|
  {
    Sum(w[..i + 1])
  }

  /** The first index at or after i whose cumulative weight reaches the
      target, if any. */
  function Reach(w: seq<real>, target: real, i: nat): (r: Option<nat>)
    requires i <= |w|
    ensures r.Some? ==> i <= r.value < |w| && target <= Cum(w, r.value)
    ensures r.Some? ==> forall j :: i <= j < r.value ==> Cum(w, j) < target
    ensures r.None? ==> forall j :: i <= j < |w| ==> Cum(w, j) < target
    decreases |w| - i
  {
    if i == |w| then None
    else if target <= Cum(w, i) then Some(i)
    else Reach(w, target, i + 1)
  }

  /** The scan's choice: the first row whose cumulative weight reaches the
      target, or row 0 when none does. */
  function Chosen(w: seq<real>, target: real): nat
  {
    var r := Reach(w, target, 0);
    if r.Some? then r.value else 0
  }

  /** Prefix sums of non-negative weights never exceed the whole sum. */
  lemma PrefixSumBound(w: seq<real>, n: nat)
    requires n <= |w| && forall i :: 0 <= i < |w| ==> 0.0 <= w[i]
    ensures Sum(w[..n]) <= Sum(w)
  {
    assert w == w[..n] + w[n..];
    SumAppend(w[..n], w[n..]);
    SumNonNegative(w[n..]);
  }

  /** A target no larger than the total weight is reached within the rows. */
  lemma ReachWithinTotal(w: seq<real>, target: real)
    requires 0 < |w| && target <= Sum(w)
    ensures Reach(w, target, 0).Some?
  {
    assert w[..|w|] == w;
    assert Cum(w, |w| - 1) == Sum(w);
  }

  /** A target above the total weight is never reached, and the scan falls
      back to row 0. */
  lemma ChosenFallback(w: seq<real>, target: real)
    requires forall i :: 0 <= i < |w| ==> 0.0 <= w[i]
    requires Sum(w) < target
    ensures Reach(w, target, 0).None? && Chosen(w, target) == 0
  {
    var r := Reach(w, target, 0);
    if r.Some? {
      PrefixSumBound(w, r.value + 1);
    }
  }

  /** With a positive target the chosen row has positive weight. */
  lemma ChosenHasWeight(w: seq<real>, target: real)
    requires forall i :: 0 <= i < |w| ==> 0.0 <= w[i]
    requires 0.0 < target && Reach(w, target, 0).Some?
    ensures 0.0 < w[Chosen(w, target)]
  {
    var i := Reach(w, target, 0).value;
    SumPrefixStep(w, i);
    if 0 < i {
      assert Cum(w, i - 1) < target;
      assert Sum(w[..i]) < target;
    } else {
      assert w[..0] == [];
    }
  }

  /** The seed indices for the first c seeds. */
  function SeedIndices(x: seq<seq<real>>, cols: nat, first: nat, draws: seq<real>, c: nat): (idx: seq<nat>)
    requires Shaped(x, cols) && first < |x| && 1 <= c && c - 1 <= |draws|
    ensures |idx| == c && idx[0] == first
    ensures forall s :: 0 <= s < c ==> idx[s] < |x|
  {
    if c == 1 then [first]
    else
      var prev := SeedIndices(x, cols, first, draws, c - 1);
      var cs := seq(c - 1, s requires 0 <= s < c - 1 => x[prev[s]]);
      var w := Weights(x, cs, c - 1);
      prev + [Chosen(w, Mul(draws[c - 2], Sum(w)))]
  }

  /** The first c seeds: copies of rows of x. */
  function Seeds(x: seq<seq<real>>, cols: nat, first: nat, draws: seq<real>, c: nat): (cs: seq<seq<real>>)
    requires Shaped(x, cols) && first < |x| && 1 <= c && c - 1 <= |draws|
    ensures |cs| == c && Shaped(cs, cols) && AllFit(x, cs)
    ensures forall s :: 0 <= s < c ==> cs[s] == x[SeedIndices(x, cols, first, draws, c)[s]]
  {
    var idx := SeedIndices(x, cols, first, draws, c);
    seq(c, s requires 0 <= s < c => x[idx[s]])
  }

  /** Seeds grow one at a time: the first c - 1 of c seeds are the c - 1
      seeds, and seed c - 1 is the row the scan chooses. */
  lemma SeedsStep(x: seq<seq<real>>, cols: nat, first: nat, draws: seq<real>, c: nat)
    requires Shaped(x, cols) && first < |x| && 2 <= c && c - 1 <= |draws|
    ensures Seeds(x, cols, first, draws, c)[..c - 1] == Seeds(x, cols, first, draws, c - 1)
    ensures var w := Weights(x, Seeds(x, cols, first, draws, c - 1), c - 1);
      Seeds(x, cols, first, draws, c)[c - 1] == x[Chosen(w, Mul(draws[c - 2], Sum(w)))]
  {
    var prev := SeedIndices(x, cols, first, draws, c - 1);
    var cs := seq(c - 1, s requires 0 <= s < c - 1 => x[prev[s]]);
    assert cs == Seeds(x, cols, first, draws, c - 1);
  }

  /** A positive draw against a positive total weight never picks a row
      already chosen: the new seed differs from every earlier one. */
  lemma NoDuplicateSeed(x: seq<seq<real>>, cols: nat, first: nat, draws: seq<real>, c: nat)
    requires Shaped(x, cols) && first < |x| && 2 <= c && c - 1 <= |draws|
    requires 0.0 < draws[c - 2] <= 1.0
    requires 0.0 < Sum(Weights(x, Seeds(x, cols, first, draws, c - 1), c - 1))
    ensures forall s :: 0 <= s < c - 1 ==> Seeds(x, cols, first, draws, c)[c - 1] != Seeds(x, cols, first, draws, c)[s]
  {
    var cs := Seeds(x, cols, first, draws, c - 1);
    var w := Weights(x, cs, c - 1);
    var target := Mul(draws[c - 2], Sum(w));
    TargetWithinTotal(draws[c - 2], Sum(w));
    ReachWithinTotal(w, target);
    ChosenHasWeight(w, target);
    SeedsStep(x, cols, first, draws, c);
    var i := Chosen(w, target);
    forall s | 0 <= s < c - 1
      ensures Seeds(x, cols, first, draws, c)[c - 1] != Seeds(x, cols, first, draws, c)[s]
    {
      assert Seeds(x, cols, first, draws, c)[s] == cs[s];
      MinSqDistIsMinimum(x[i], cs, c - 1);
      assert 0.0 < MinSqDist(x[i], cs, c - 1) <= SqDist(x[i], cs[s]);
      if x[i] == cs[s] {
        SqDistSelf(x[i]);
      }
    }
  }

  lemma TargetWithinTotal(u: real, total: real)
    requires 0.0 < u <= 1.0 && 0.0 < total
    ensures 0.0 < Mul(u, total) <= total
  {
    MulPositive(u, total);
  }

  // ---------------------------------------------------------------------
  // Update
  // ---------------------------------------------------------------------

  /** Coordinate j summed over the first n rows labelled c. */
  function ColumnSum(x: seq<seq<real>>, labels: seq<int>, c: int, j: nat, n: nat): real
    requires n <= |x| && n <= |labels| && forall i :: 0 <= i < n ==> j < |x[i]|
  {
    if n == 0 then 0.0
    else ColumnSum(x, labels, c, j, n - 1) + (if labels[n - 1] == c then x[n - 1][j] else 0.0)
  }

  /** Coordinate-wise sum of two points. */
  function Plus(a: seq<real>, b: seq<real>): (r: seq<real>)
    requires |a| == |b|
    ensures |r| == |a| && forall j :: 0 <= j < |a| ==> r[j] == a[j] + b[j]
  {
    seq(|a|, j requires 0 <= j < |a| => a[j] + b[j])
  }

  /** Coordinate-wise quotient of a point by d. */
  function Divided(a: seq<real>, d: real): (r: seq<real>)
    requires d != 0.0
    ensures |r| == |a| && forall j :: 0 <= j < |a| ==> r[j] == Div(a[j], d)
  {
    seq(|a|, j requires 0 <= j < |a| => Div(a[j], d))
  }

  /** Cluster c's coordinate sums over the first n rows. */
  function Sums(x: seq<seq<real>>, labels: seq<int>, c: int, cols: nat, n: nat): (v: seq<real>)
    requires Shaped(x, cols) && n <= |x| && n <= |labels|
    ensures |v| == cols && forall j :: 0 <= j < cols ==> v[j] == ColumnSum(x, labels, c, j, n)
  {
    seq(cols, j requires 0 <= j < cols => ColumnSum(x, labels, c, j, n))
  }

  /** Per-cluster coordinate sums over the first n rows: what `new_centroids`
      holds after n rounds of the accumulation loop. */
  function ClusterSums(x: seq<seq<real>>, labels: seq<int>, k: nat, cols: nat, n: nat): (m: seq<seq<real>>)
    requires Shaped(x, cols) && n <= |x| && n <= |labels|
    ensures |m| == k && Shaped(m, cols)
    ensures forall c :: 0 <= c < k ==> m[c] == Sums(x, labels, c, cols, n)
  {
    seq(k, c requires 0 <= c < k => Sums(x, labels, c, cols, n))
  }

  /** Before any row is added every sum is zero. */
  lemma ClusterSumsStart(x: seq<seq<real>>, labels: seq<int>, k: nat, cols: nat)
    requires Shaped(x, cols)
    ensures ClusterSums(x, labels, k, cols, 0) == seq(k, _ => seq(cols, _ => 0.0))
  {
    forall c | 0 <= c < k
      ensures Sums(x, labels, c, cols, 0) == seq(cols, _ => 0.0)
    {
    }
  }

  /** Adding row n adds it to its own cluster's sums and to no other. */
  lemma ClusterSumsStep(x: seq<seq<real>>, labels: seq<int>, k: nat, cols: nat, n: nat)
    requires Shaped(x, cols) && n < |x| && n < |labels| && 0 <= labels[n] < k
    ensures ClusterSums(x, labels, k, cols, n + 1)
      == ClusterSums(x, labels, k, cols, n)[labels[n] := Plus(ClusterSums(x, labels, k, cols, n)[labels[n]], x[n])]
  {
    var before := ClusterSums(x, labels, k, cols, n);
    var after := before[labels[n] := Plus(before[labels[n]], x[n])];
    forall c | 0 <= c < k
      ensures ClusterSums(x, labels, k, cols, n + 1)[c] == after[c]
    {
    }
  }

  /** The new centroid of cluster c: the coordinate-wise mean of its rows, or
      the zero vector when it has none. */
  function Centroid(x: seq<seq<real>>, labels: seq<int>, c: int, cols: nat): (v: seq<real>)
    requires Shaped(x, cols) && |labels| == |x|
    ensures |v| == cols
  {
    var count := CountOf(labels, c, |x|);
    if 0 < count then Divided(Sums(x, labels, c, cols, |x|), count as real) else seq(cols, _ => 0.0)
  }

  /** `update_centroids`' new centroids, one per cluster. */
  function Means(x: seq<seq<real>>, labels: seq<int>, k: nat, cols: nat): (m: seq<seq<real>>)
    requires Shaped(x, cols) && |labels| == |x|
    ensures |m| == k && Shaped(m, cols)
  {
    seq(k, c requires 0 <= c < k => Centroid(x, labels, c, cols))
  }

  /** A cluster with no rows sums to zero. */
  lemma {:induction false} ColumnSumEmpty(x: seq<seq<real>>, labels: seq<int>, c: int, j: nat, n: nat)
    requires n <= |x| && n <= |labels| && forall i :: 0 <= i < n ==> j < |x[i]|
    requires CountOf(labels, c, n) == 0
    ensures ColumnSum(x, labels, c, j, n) == 0.0
  {
    if n > 0 {
      ColumnSumEmpty(x, labels, c, j, n - 1);
    }
  }

  /** An empty cluster's sums are the zero vector it is given. */
  lemma EmptySums(x: seq<seq<real>>, labels: seq<int>, c: int, cols: nat)
    requires Shaped(x, cols) && |labels| == |x| && CountOf(labels, c, |x|) == 0
    ensures Sums(x, labels, c, cols, |x|) == seq(cols, _ => 0.0)
  {
    forall j | 0 <= j < cols
      ensures Sums(x, labels, c, cols, |x|)[j] == 0.0
    {
      ColumnSumEmpty(x, labels, c, j, |x|);
    }
  }

  /** v added to itself n times. */
  function Times(n: nat, v: real): (r: real)
    ensures r == (n as real) * v
  {
    if n == 0 then 0.0 else Times(n - 1, v) + v
  }

  /** Coordinates of the members between lo and hi give a sum between
      count * lo and count * hi. */
  lemma {:induction false} ColumnSumBounds(x: seq<seq<real>>, labels: seq<int>, c: int, j: nat, n: nat, lo: real, hi: real)
    requires n <= |x| && n <= |labels| && forall i :: 0 <= i < n ==> j < |x[i]|
    requires forall i :: 0 <= i < n && labels[i] == c ==> lo <= x[i][j] <= hi
    ensures Times(CountOf(labels, c, n), lo) <= ColumnSum(x, labels, c, j, n) <= Times(CountOf(labels, c, n), hi)
  {
    if n > 0 {
      ColumnSumBounds(x, labels, c, j, n - 1, lo, hi);
    }
  }

  /** A non-empty cluster's centroid lies inside the bounding box of its
      rows: coordinate j is between the least and the greatest coordinate j
      of its members. */
  lemma CentroidInBox(x: seq<seq<real>>, labels: seq<int>, c: int, cols: nat, j: nat, lo: real, hi: real)
    requires Shaped(x, cols) && |labels| == |x| && j < cols && 0 < CountOf(labels, c, |x|)
    requires forall i :: 0 <= i < |x| && labels[i] == c ==> lo <= x[i][j] <= hi
    ensures lo <= Centroid(x, labels, c, cols)[j] <= hi
  {
    ColumnSumBounds(x, labels, c, j, |x|, lo, hi);
    MeanBetween(ColumnSum(x, labels, c, j, |x|), CountOf(labels, c, |x|) as real, lo, hi);
  }

  /** A cluster whose rows are all the same point v is centred on v; one
      with no rows is centred on the zero vector. */
  lemma CentroidOfCluster(x: seq<seq<real>>, labels: seq<int>, c: int, cols: nat, v: seq<real>)
    requires Shaped(x, cols) && |labels| == |x| && |v| == cols
    requires forall i :: 0 <= i < |x| && labels[i] == c ==> x[i] == v
    ensures 0 < CountOf(labels, c, |x|) ==> Centroid(x, labels, c, cols) == v
    ensures CountOf(labels, c, |x|) == 0 ==> Centroid(x, labels, c, cols) == seq(cols, _ => 0.0)
  {
    forall j | 0 <= j < cols
      ensures Centroid(x, labels, c, cols)[j] == if 0 < CountOf(labels, c, |x|) then v[j] else 0.0
    {
      if 0 < CountOf(labels, c, |x|) {
        CentroidInBox(x, labels, c, cols, j, v[j], v[j]);
      }
    }
  }

  /** Total movement: the sum over the first k clusters of the (unsquared)
      distance between old and new centroid. */
  function Movement(sqrt: real -> real, olds: seq<seq<real>>, news: seq<seq<real>>, k: nat): real
    requires k <= |olds| && k <= |news| && forall c :: 0 <= c < k ==> |olds[c]| == |news[c]|
  {
    if k == 0 then 0.0 else Movement(sqrt, olds, news, k - 1) + sqrt(SqDist(olds[k - 1], news[k - 1]))
  }

  /** Centroids that do not move have movement 0, which converges for any
      positive tolerance. */
  lemma {:induction false} StillCentroidsConverge(sqrt: real -> real, cs: seq<seq<real>>, k: nat)
    requires sqrt(0.0) == 0.0 && k <= |cs|
    ensures Movement(sqrt, cs, cs, k) == 0.0
  {
    if k > 0 {
      StillCentroidsConverge(sqrt, cs, k - 1);
      SqDistSelf(cs[k - 1]);
    }
  }

  /** The movement is never negative. */
  lemma {:induction false} MovementNonNegative(sqrt: real -> real, olds: seq<seq<real>>, news: seq<seq<real>>, k: nat)
    requires IsSqrt(sqrt)
    requires k <= |olds| && k <= |news| && forall c :: 0 <= c < k ==> |olds[c]| == |news[c]|
    ensures 0.0 <= Movement(sqrt, olds, news, k)
  {
    if k > 0 {
      MovementNonNegative(sqrt, olds, news, k - 1);
    }
  }

  // ---------------------------------------------------------------------
  // Fitting
  // ---------------------------------------------------------------------

  /** What a fit leaves behind: the labels returned, the centroids and the
      inertia stored. */
  datatype Fit = Fit(labels: seq<int>, centroids: seq<seq<real>>, inertia: real)

  /** The iteration loop with `remaining` rounds left from centroids cs: each
      round assigns and updates, and stops with the round's labels when the
      movement is below tolerance; when no round converges, one last
      assignment gives the labels. */
  function FitLoop(sqrt: real -> real, x: seq<seq<real>>, cols: nat, cs: seq<seq<real>>, tolerance: real, remaining: nat): (f: Fit)
    requires 1 <= |cs| && Shaped(x, cols) && Shaped(cs, cols)
    ensures |f.labels| == |x| && InRange(f.labels, |cs|)
    ensures |f.centroids| == |cs| && Shaped(f.centroids, cols)
    ensures 0.0 <= f.inertia
    decreases remaining
  {
    var labels := Assignment(x, cs);
    if remaining == 0 then Fit(labels, cs, Inertia(x, cs))
    else
      var news := Means(x, labels, |cs|, cols);
      if Movement(sqrt, cs, news, |cs|) < tolerance then Fit(labels, news, Inertia(x, cs))
      else FitLoop(sqrt, x, cols, news, tolerance, remaining - 1)
  }

  /** `fit_predict`: invalid_argument for fewer rows than clusters, before
      any seeding; otherwise the loop from the seeds. */
  function FitPredictSpec(sqrt: real -> real, x: seq<seq<real>>, cols: nat, k: nat, maxIters: nat, tolerance: real,
                          first: nat, draws: seq<real>): (r: Result<Fit>)
    requires 1 <= k && Shaped(x, cols) && (k <= |x| ==> first < |x|) && k - 1 <= |draws|
    ensures r.Err? <==> |x| < k
    ensures r.Err? ==> r.error == InvalidArgument
  {
    if |x| < k then Err(InvalidArgument)
    else Ok(FitLoop(sqrt, x, cols, Seeds(x, cols, first, draws, k), tolerance, maxIters))
  }

  /** The centroids of the fit's last assignment pass: the seeds when no
      round runs, the centroids going into the converging round, or those
      left after the last round. */
  function LastAssigned(sqrt: real -> real, x: seq<seq<real>>, cols: nat, cs: seq<seq<real>>, tolerance: real, remaining: nat): (used: seq<seq<real>>)
    requires 1 <= |cs| && Shaped(x, cols) && Shaped(cs, cols)
    ensures |used| == |cs| && Shaped(used, cols)
    decreases remaining
  {
    if remaining == 0 then cs
    else
      var news := Means(x, Assignment(x, cs), |cs|, cols);
      if Movement(sqrt, cs, news, |cs|) < tolerance then cs
      else LastAssigned(sqrt, x, cols, news, tolerance, remaining - 1)
  }

  /** The labels and the inertia a fit reports come from the same
      assignment pass: the labels are the nearest-centroid assignment to the
      last assigned centroids and the inertia is its cost. */
  lemma {:induction false} FitReportsOnePass(sqrt: real -> real, x: seq<seq<real>>, cols: nat, cs: seq<seq<real>>, tolerance: real, remaining: nat)
    requires 1 <= |cs| && Shaped(x, cols) && Shaped(cs, cols)
    ensures var used := LastAssigned(sqrt, x, cols, cs, tolerance, remaining);
      AllFit(x, used) && FitLoop(sqrt, x, cols, cs, tolerance, remaining).labels == Assignment(x, used)
      && FitLoop(sqrt, x, cols, cs, tolerance, remaining).inertia == Inertia(x, used)
    decreases remaining
  {
    ShapedFit(x, cs, cols);
    if remaining > 0 {
      var news := Means(x, Assignment(x, cs), |cs|, cols);
      if Movement(sqrt, cs, news, |cs|) >= tolerance {
        FitReportsOnePass(sqrt, x, cols, news, tolerance, remaining - 1);
      }
    }
  }

  /** The centroids a fit ends with are the seeds when no round runs, and
      otherwise the means of the rows under some in-range labelling. */
  lemma {:induction false} FitCentroids(sqrt: real -> real, x: seq<seq<real>>, cols: nat, cs: seq<seq<real>>, tolerance: real, remaining: nat)
    requires 1 <= |cs| && Shaped(x, cols) && Shaped(cs, cols)
    ensures remaining == 0 ==> FitLoop(sqrt, x, cols, cs, tolerance, remaining).centroids == cs
    ensures 0 < remaining ==> exists labels: seq<int> :: (|labels| == |x| && InRange(labels, |cs|)
      && FitLoop(sqrt, x, cols, cs, tolerance, remaining).centroids == Means(x, labels, |cs|, cols))
    decreases remaining
  {
    if remaining > 0 {
      var labels := Assignment(x, cs);
      var news := Means(x, labels, |cs|, cols);
      if Movement(sqrt, cs, news, |cs|) >= tolerance && remaining > 1 {
        FitCentroids(sqrt, x, cols, news, tolerance, remaining - 1);
      }
    }
  }
}
