/** The `KMeans` class of `Kmeans.cpp`: k-means++ seeding, nearest-centroid
    assignment, centroid update with a movement test, and the bounded
    fitting loop, each proved to compute what `KMeansSpec` defines. The
    random first row and the uniform draws are parameters; `sqrt` is the
    square root the distance uses. */
module Clustering {
  import opened Results
  import opened Numeric
  import opened Tally
  import opened Matrices
  import opened KMeansSpec

  /** The rows of a valid matrix all have its width. */
  lemma RowsShaped(m: Matrix)
    requires m.Valid()
    ensures Shaped(m.Rows(), m.cols)
  {
  }

  /** `get_row` on an index known to be in range. */
  method RowOf(m: Matrix, i: nat) returns (r: seq<real>)
    requires m.Valid() && i < m.rows
    ensures r == m.Rows()[i]
  {
    var res := m.GetRow(i);
    r := res.value;
  }

  /** A fresh matrix holds zeros in every row. */
  lemma ZeroRows(m: Matrix)
    requires m.Valid() && forall n :: 0 <= n < m.data.Length ==> m.data[n] == 0.0
    ensures m.Rows() == seq(m.rows, _ => seq(m.cols, _ => 0.0))
  {
    forall i | 0 <= i < m.rows
      ensures m.Rows()[i] == seq(m.cols, _ => 0.0)
    {
      forall j | 0 <= j < m.cols
        ensures m.Rows()[i][j] == 0.0
      {
        OffsetInRange(m.rows, m.cols, i, j);
      }
    }
  }

  lemma SquareOfRoot(sqrt: real -> real, x: real, y: real)
    requires IsSqrt(sqrt) && 0.0 <= x && y == sqrt(x)
    ensures y * y == x
  {
  }

  /** The state of `assign_clusters` after i rows: labels and inertia for
      those rows. */
  ghost predicate Assigned(xs: seq<seq<real>>, cs: seq<seq<real>>, labels: seq<int>, inertia: real, i: nat)
  {
    1 <= |cs| && AllFit(xs, cs) && i <= |xs| && |labels| == |xs|
    && (forall t :: 0 <= t < i ==> labels[t] == Assignment(xs, cs)[t])
    && inertia == InertiaUpTo(xs, cs, i)
  }

  /** One row of `assign_clusters`: its label is its nearest centroid and
      the square of its distance adds to the inertia. */
  lemma AssignStep(xs: seq<seq<real>>, cs: seq<seq<real>>, labels: seq<int>, inertia: real, i: nat, best: nat, square: real)
    requires Assigned(xs, cs, labels, inertia, i) && i < |xs|
    requires best == Nearest(xs[i], cs, |cs|) && square == MinSqDist(xs[i], cs, |cs|)
    ensures Assigned(xs, cs, labels[i := best], inertia + square, i + 1)
  {
  }

  lemma AssignDone(xs: seq<seq<real>>, cs: seq<seq<real>>, labels: seq<int>, inertia: real)
    requires Assigned(xs, cs, labels, inertia, |xs|)
    ensures labels == Assignment(xs, cs) && inertia == Inertia(xs, cs)
  {
  }

  /** One step of the nearest-centroid scan: comparing the square roots of
      the distances decides as comparing the distances does. */
  lemma NearestStep(sqrt: real -> real, row: seq<real>, m: seq<seq<real>>, c: nat, best: nat, minDist: real, dist: real)
    requires IsSqrt(sqrt) && 1 <= c < |m| && Fits(row, m)
    requires best == Nearest(row, m, c) && minDist == sqrt(SqDist(row, m[best])) && dist == sqrt(SqDist(row, m[c]))
    ensures Nearest(row, m, c + 1) == if dist < minDist then c else best
  {
    SqrtOrder(sqrt, SqDist(row, m[c]), SqDist(row, m[best]));
  }

  /** `m(c, j) = x(i, j)` for every column j: row c becomes a copy of row i. */
  method CopyRow(m: Matrix, c: nat, x: Matrix, i: nat)
    requires m.Valid() && x.Valid() && c < m.rows && i < x.rows && m.cols == x.cols && m.data != x.data
    modifies m.data
    ensures m.Rows() == old(m.Rows())[c := x.Rows()[i]]
  {
    ghost var before := m.Rows();
    ghost var src := x.Rows();
    var j := 0;
    while j < m.cols
      invariant 0 <= j <= m.cols && x.Rows() == src
      invariant |m.Rows()| == |before| && |m.Rows()[c]| == m.cols
      invariant forall r :: 0 <= r < m.rows && r != c ==> m.Rows()[r] == before[r]
      invariant forall t :: 0 <= t < m.cols ==> m.Rows()[c][t] == if t < j then src[i][t] else before[c][t]
    {
      var v := x.Get(i, j);
      var o := m.Set(c, j, v);
      j := j + 1;
    }
    assert m.Rows()[c] == src[i];
  }

  /** `m(c, j) += x(i, j)` for every column j: row i is added to row c. */
  method AddRow(m: Matrix, c: nat, x: Matrix, i: nat)
    requires m.Valid() && x.Valid() && c < m.rows && i < x.rows && m.cols == x.cols && m.data != x.data
    modifies m.data
    ensures m.Rows() == old(m.Rows())[c := Plus(old(m.Rows())[c], x.Rows()[i])]
  {
    ghost var before := m.Rows();
    ghost var src := x.Rows();
    var j := 0;
    while j < m.cols
      invariant 0 <= j <= m.cols && x.Rows() == src
      invariant |m.Rows()| == |before| && |m.Rows()[c]| == m.cols
      invariant forall r :: 0 <= r < m.rows && r != c ==> m.Rows()[r] == before[r]
      invariant forall t :: 0 <= t < m.cols ==> m.Rows()[c][t] == if t < j then before[c][t] + src[i][t] else before[c][t]
    {
      var v := m.Get(c, j) + x.Get(i, j);
      var o := m.Set(c, j, v);
      j := j + 1;
    }
    assert m.Rows()[c] == Plus(before[c], src[i]);
  }

  /** `m(c, j) /= count` for every column j. */
  method DivideRow(m: Matrix, c: nat, count: nat)
    requires m.Valid() && c < m.rows && 0 < count
    modifies m.data
    ensures m.Rows() == old(m.Rows())[c := Divided(old(m.Rows())[c], count as real)]
  {
    ghost var before := m.Rows();
    var j := 0;
    while j < m.cols
      invariant 0 <= j <= m.cols
      invariant |m.Rows()| == |before| && |m.Rows()[c]| == m.cols
      invariant forall r :: 0 <= r < m.rows && r != c ==> m.Rows()[r] == before[r]
      invariant forall t :: 0 <= t < m.cols ==> m.Rows()[c][t] == if t < j then Div(before[c][t], count as real) else before[c][t]
    {
      var v := Div(m.Get(c, j), count as real);
      var o := m.Set(c, j, v);
      j := j + 1;
    }
    assert m.Rows()[c] == Divided(before[c], count as real);
  }

  /** `euclidean_distance(a, b)`: the square root of the summed squared
      coordinate differences. */
  method EuclideanDistance(a: seq<real>, b: seq<real>, sqrt: real -> real) returns (d: real)
    requires |a| == |b|
    ensures d == sqrt(SqDist(a, b))
  {
    var sum := 0.0;
    var i := 0;
    while i < |a|
      invariant 0 <= i <= |a|
      invariant sum == SqDist(a[..i], b[..i])
    {
      var diff := a[i] - b[i];
      SqDistPrefixStep(a, b, i);
      sum := sum + diff * diff;
      i := i + 1;
    }
    assert a[..i] == a && b[..i] == b;
    d := sqrt(sum);
  }

  /** The scan over the first n centroids that `assign_clusters` and the
      seeding both make: the first strictly nearer centroid replaces the
      best so far. The code starts the minimum at DBL_MAX, which any finite
      distance beats, so the first centroid is always taken. */
  method NearestCentroid(row: seq<real>, cs: Matrix, n: nat, sqrt: real -> real) returns (best: nat, minDist: real)
    requires cs.Valid() && 1 <= n <= cs.rows && |row| == cs.cols && IsSqrt(sqrt)
    ensures best == Nearest(row, cs.Rows(), n)
    ensures minDist == sqrt(MinSqDist(row, cs.Rows(), n))
  {
    ghost var m := cs.Rows();
    RowsShaped(cs);
    best, minDist := 0, 0.0;
    var c := 0;
    while c < n
      invariant 0 <= c <= n
      invariant 1 <= c ==> best < c && best == Nearest(row, m, c) && minDist == sqrt(SqDist(row, m[best]))
    {
      var centroid := RowOf(cs, c);
      var dist := EuclideanDistance(row, centroid, sqrt);
      if 0 < c {
        NearestStep(sqrt, row, m, c, best, minDist, dist);
      }
      if c == 0 || dist < minDist {
        minDist := dist;
        best := c;
      }
      c := c + 1;
    }
  }

  /** The nearest of the first n centroids to row i, and the distance to it,
      whose square is the squared distance. */
  method NearestOfRow(x: Matrix, cs: Matrix, n: nat, i: nat, sqrt: real -> real) returns (best: nat, minDist: real)
    requires x.Valid() && cs.Valid() && 1 <= n <= cs.rows && x.cols == cs.cols && IsSqrt(sqrt) && i < x.rows
    ensures best == Nearest(x.Rows()[i], cs.Rows(), n)
    ensures minDist * minDist == MinSqDist(x.Rows()[i], cs.Rows(), n)
  {
    var row := RowOf(x, i);
    RowsShaped(cs);
    best, minDist := NearestCentroid(row, cs, n, sqrt);
    SquareOfRoot(sqrt, MinSqDist(row, cs.Rows(), n), minDist);
  }

  /** The loop of `assign_clusters` over the rows of x: the label of every
      row and the running sum of squared distances. */
  method AssignRows(x: Matrix, cs: Matrix, k: nat, sqrt: real -> real) returns (labels: seq<int>, total: real)
    requires x.Valid() && cs.Valid() && 1 <= k == cs.rows && x.cols == cs.cols && IsSqrt(sqrt)
    ensures AllFit(x.Rows(), cs.Rows())
    ensures labels == Assignment(x.Rows(), cs.Rows())
    ensures total == Inertia(x.Rows(), cs.Rows())
  {
    ghost var xs, m := x.Rows(), cs.Rows();
    RowsShaped(x);
    RowsShaped(cs);
    labels := seq(x.rows, _ => 0);
    total := 0.0;
    var i := 0;
    while i < x.rows
      invariant 0 <= i <= x.rows == |xs|
      invariant Assigned(xs, m, labels, total, i)
    {
      var best, minDist := NearestOfRow(x, cs, k, i, sqrt);
      AssignStep(xs, m, labels, total, i, best, minDist * minDist);
      labels := labels[i := best];
      total := total + minDist * minDist;
      i := i + 1;
    }
    AssignDone(xs, m, labels, total);
  }

  /** The accumulation loop of `update_centroids`: per-cluster counts and
      coordinate sums, added into a matrix that starts at zero. */
  method Accumulate(x: Matrix, labels: seq<int>, k: nat, sums: Matrix) returns (counts: seq<nat>)
    requires x.Valid() && sums.Valid() && sums.rows == k && sums.cols == x.cols && sums.data != x.data
    requires |labels| == x.rows && InRange(labels, k)
    requires Shaped(x.Rows(), x.cols) && sums.Rows() == ClusterSums(x.Rows(), labels, k, x.cols, 0)
    modifies sums.data
    ensures counts == Counts(labels, k, x.rows)
    ensures sums.Rows() == ClusterSums(x.Rows(), labels, k, x.cols, x.rows)
  {
    ghost var xs := x.Rows();
    counts := seq(k, _ => 0);
    var i := 0;
    while i < x.rows
      invariant 0 <= i <= x.rows == |xs| && x.Rows() == xs
      invariant counts == Counts(labels, k, i)
      invariant sums.Rows() == ClusterSums(xs, labels, k, x.cols, i)
    {
      var cluster := labels[i];
      CountsStep(labels, k, i);
      counts := counts[cluster := counts[cluster] + 1];
      ClusterSumsStep(xs, labels, k, x.cols, i);
      AddRow(sums, cluster, x, i);
      i := i + 1;
    }
  }

  /** The division loop of `update_centroids`: every cluster with members
      has its sums divided by its count; the others keep their (zero) sums. */
  method DivideClusters(sums: Matrix, counts: seq<nat>)
    requires sums.Valid() && |counts| == sums.rows
    modifies sums.data
    ensures |sums.Rows()| == |old(sums.Rows())|
    ensures forall c :: 0 <= c < sums.rows ==>
      sums.Rows()[c] == if 0 < counts[c] then Divided(old(sums.Rows())[c], counts[c] as real) else old(sums.Rows())[c]
  {
    ghost var before := sums.Rows();
    var c := 0;
    while c < sums.rows
      invariant 0 <= c <= sums.rows
      invariant forall c' :: 0 <= c' < sums.rows ==>
        sums.Rows()[c'] == if c' < c && 0 < counts[c'] then Divided(before[c'], counts[c'] as real) else before[c']
    {
      if 0 < counts[c] {
        DivideRow(sums, c, counts[c]);
      }
      c := c + 1;
    }
  }

  /** Sums divided by counts, empty clusters left at zero, are the means. */
  lemma MeansFromSums(xs: seq<seq<real>>, labels: seq<int>, k: nat, cols: nat, counts: seq<nat>, rows: seq<seq<real>>)
    requires Shaped(xs, cols) && |labels| == |xs| && counts == Counts(labels, k, |xs|) && |rows| == k
    requires forall c :: 0 <= c < k ==>
      rows[c] == if 0 < counts[c] then Divided(ClusterSums(xs, labels, k, cols, |xs|)[c], counts[c] as real)
                 else ClusterSums(xs, labels, k, cols, |xs|)[c]
    ensures rows == Means(xs, labels, k, cols)
  {
    forall c | 0 <= c < k
      ensures rows[c] == Means(xs, labels, k, cols)[c]
    {
      if counts[c] == 0 {
        EmptySums(xs, labels, c, cols);
      }
    }
  }

  /** The movement loop of `update_centroids`: the summed distance between
      old and new centroid of each cluster. */
  method MovementOf(olds: Matrix, news: Matrix, k: nat, sqrt: real -> real) returns (movement: real)
    requires olds.Valid() && news.Valid() && k <= olds.rows && k <= news.rows && olds.cols == news.cols
    ensures Shaped(olds.Rows(), olds.cols) && Shaped(news.Rows(), olds.cols)
    ensures movement == Movement(sqrt, olds.Rows(), news.Rows(), k)
  {
    RowsShaped(olds);
    RowsShaped(news);
    ghost var os, ns := olds.Rows(), news.Rows();
    movement := 0.0;
    var c := 0;
    while c < k
      invariant 0 <= c <= k
      invariant movement == Movement(sqrt, os, ns, c)
    {
      var oldCentroid := RowOf(olds, c);
      var newCentroid := RowOf(news, c);
      var d := EuclideanDistance(oldCentroid, newCentroid, sqrt);
      movement := movement + d;
      c := c + 1;
    }
  }

  /** The seeding distances for seed c: for each row, the distance to its
      nearest earlier seed. */
  method SeedDistances(x: Matrix, seeds: Matrix, c: nat, sqrt: real -> real) returns (distances: seq<real>)
    requires x.Valid() && seeds.Valid() && 1 <= c <= seeds.rows && x.cols == seeds.cols && IsSqrt(sqrt)
    ensures AllFit(x.Rows(), seeds.Rows())
    ensures |distances| == x.rows
    ensures forall i :: 0 <= i < x.rows ==> Mul(distances[i], distances[i]) == MinSqDist(x.Rows()[i], seeds.Rows(), c)
  {
    ghost var xs, m := x.Rows(), seeds.Rows();
    RowsShaped(x);
    RowsShaped(seeds);
    distances := [];
    var i := 0;
    while i < x.rows
      invariant 0 <= i <= x.rows == |xs| && |distances| == i
      invariant forall t :: 0 <= t < i ==> Mul(distances[t], distances[t]) == MinSqDist(xs[t], m, c)
    {
      var best, d := NearestOfRow(x, seeds, c, i, sqrt);
      assert Mul(d, d) == d * d;
      distances := distances + [d];
      i := i + 1;
    }
  }

  /** A row's squared seeding distance is its weight. */
  lemma DistancesAreWeights(xs: seq<seq<real>>, m: seq<seq<real>>, c: nat, distances: seq<real>)
    requires 1 <= c <= |m| && AllFit(xs, m) && |distances| == |xs|
    requires forall i :: 0 <= i < |xs| ==> Mul(distances[i], distances[i]) == MinSqDist(xs[i], m, c)
    ensures forall i :: 0 <= i < |xs| ==> Mul(distances[i], distances[i]) == Weights(xs, m, c)[i]
  {
  }

  /** `for (double d : distances) sum += d * d`. */
  method WeightSum(distances: seq<real>, ghost w: seq<real>) returns (sum: real)
    requires |distances| == |w| && forall i :: 0 <= i < |w| ==> Mul(distances[i], distances[i]) == w[i]
    ensures sum == Sum(w)
  {
    sum := 0.0;
    var i := 0;
    while i < |distances|
      invariant 0 <= i <= |distances|
      invariant sum == Sum(w[..i])
    {
      SumPrefixStep(w, i);
      sum := sum + Mul(distances[i], distances[i]);
      i := i + 1;
    }
    assert w[..i] == w;
  }

  /** The cumulative scan of the seeding: the first row whose running
      weight reaches the target, row 0 when none does. */
  method ChooseSeed(distances: seq<real>, ghost w: seq<real>, target: real) returns (chosen: nat)
    requires |distances| == |w| && forall i :: 0 <= i < |w| ==> Mul(distances[i], distances[i]) == w[i]
    ensures chosen == Chosen(w, target)
    ensures 0 < |w| ==> chosen < |w|
  {
    chosen := 0;
    var cumsum := 0.0;
    var i := 0;
    while i < |distances|
      invariant 0 <= i <= |distances|
      invariant cumsum == Sum(w[..i])
      invariant Reach(w, target, 0) == Reach(w, target, i)
    {
      SumPrefixStep(w, i);
      cumsum := cumsum + Mul(distances[i], distances[i]);
      if cumsum >= target {
        chosen := i;
        break;
      }
      i := i + 1;
    }
  }

  /** One round of the seeding: the row the weighted scan picks for the
      draw u, given the first c seeds. */
  method NextSeed(x: Matrix, seeds: Matrix, c: nat, u: real, sqrt: real -> real) returns (chosen: nat)
    requires x.Valid() && seeds.Valid() && 1 <= c <= seeds.rows && x.cols == seeds.cols && IsSqrt(sqrt) && 0 < x.rows
    ensures AllFit(x.Rows(), seeds.Rows()) && chosen < x.rows
    ensures var w := Weights(x.Rows(), seeds.Rows(), c); chosen == Chosen(w, Mul(u, Sum(w)))
  {
    var distances := SeedDistances(x, seeds, c, sqrt);
    DistancesAreWeights(x.Rows(), seeds.Rows(), c, distances);
    ghost var w := Weights(x.Rows(), seeds.Rows(), c);
    var sum := WeightSum(distances, w);
    var target := Mul(u, sum);
    chosen := ChooseSeed(distances, w, target);
  }

  /** The first c rows of a seed matrix are the first c seeds. */
  ghost predicate Seeded(xs: seq<seq<real>>, cols: nat, first: nat, draws: seq<real>, rows: seq<seq<real>>, c: nat)
  {
    Shaped(xs, cols) && Shaped(rows, cols) && first < |xs| && 1 <= c <= |rows| && c - 1 <= |draws|
    && rows[..c] == Seeds(xs, cols, first, draws, c)
  }

  lemma SeedStart(xs: seq<seq<real>>, cols: nat, first: nat, draws: seq<real>, rows: seq<seq<real>>)
    requires Shaped(xs, cols) && Shaped(rows, cols) && first < |xs| && 1 <= |rows| && rows[0] == xs[first]
    ensures Seeded(xs, cols, first, draws, rows, 1)
  {
    assert rows[..1] == [xs[first]];
  }

  /** Copying the chosen row into slot c extends the seeds by one. */
  lemma SeedStep(xs: seq<seq<real>>, cols: nat, first: nat, draws: seq<real>, c: nat,
                 before: seq<seq<real>>, after: seq<seq<real>>, chosen: nat)
    requires Seeded(xs, cols, first, draws, before, c) && c < |before| && c <= |draws|
    requires var w := Weights(xs, before, c); chosen == Chosen(w, Mul(draws[c - 1], Sum(w)))
    requires chosen < |xs| && after == before[c := xs[chosen]]
    ensures Seeded(xs, cols, first, draws, after, c + 1)
  {
    var cs := Seeds(xs, cols, first, draws, c);
    assert cs[..c] == cs;
    WeightsPrefix(xs, before, cs, c);
    SeedsStep(xs, cols, first, draws, c + 1);
    assert after[..c + 1] == before[..c] + [xs[chosen]];
    var s := Seeds(xs, cols, first, draws, c + 1);
    assert s == s[..c] + [s[c]];
  }

  lemma SeedDone(xs: seq<seq<real>>, cols: nat, first: nat, draws: seq<real>, rows: seq<seq<real>>)
    requires Seeded(xs, cols, first, draws, rows, |rows|)
    ensures rows == Seeds(xs, cols, first, draws, |rows|)
  {
    assert rows[..|rows|] == rows;
  }

  /** One pass of the seeding loop: pick seed c and copy it into row c. */
  method AddSeed(x: Matrix, seeds: Matrix, first: nat, draws: seq<real>, c: nat, sqrt: real -> real)
    requires x.Valid() && seeds.Valid() && seeds.cols == x.cols && seeds.data != x.data && IsSqrt(sqrt)
    requires c < seeds.rows && c <= |draws| && Seeded(x.Rows(), x.cols, first, draws, seeds.Rows(), c)
    modifies seeds.data
    ensures Seeded(x.Rows(), x.cols, first, draws, seeds.Rows(), c + 1)
  {
    ghost var xs := x.Rows();
    var chosen := NextSeed(x, seeds, c, draws[c - 1], sqrt);
    ghost var before := seeds.Rows();
    CopyRow(seeds, c, x, chosen);
    SeedStep(xs, x.cols, first, draws, c, before, seeds.Rows(), chosen);
  }

  /** Row 0 of the seeds is the row drawn first. */
  method FirstSeed(x: Matrix, seeds: Matrix, first: nat, draws: seq<real>)
    requires x.Valid() && seeds.Valid() && 1 <= seeds.rows && seeds.cols == x.cols && seeds.data != x.data
    requires first < x.rows
    modifies seeds.data
    ensures Seeded(x.Rows(), x.cols, first, draws, seeds.Rows(), 1)
  {
    RowsShaped(x);
    CopyRow(seeds, 0, x, first);
    RowsShaped(seeds);
    SeedStart(x.Rows(), x.cols, first, draws, seeds.Rows());
  }

  /** The seeding loop of `initialize_centroids`, writing seed c into row c
      of a fresh matrix for c = 0 .. rows - 1. */
  method SeedRows(x: Matrix, seeds: Matrix, first: nat, draws: seq<real>, sqrt: real -> real)
    requires x.Valid() && seeds.Valid() && 1 <= seeds.rows && seeds.cols == x.cols && seeds.data != x.data
    requires first < x.rows && seeds.rows - 1 <= |draws| && IsSqrt(sqrt)
    modifies seeds.data
    ensures seeds.Rows() == Seeds(x.Rows(), x.cols, first, draws, seeds.rows)
  {
    FirstSeed(x, seeds, first, draws);
    var c := 1;
    while c < seeds.rows
      invariant Seeded(x.Rows(), x.cols, first, draws, seeds.Rows(), c)
      decreases seeds.rows - c
    {
      AddSeed(x, seeds, first, draws, c, sqrt);
      c := c + 1;
    }
    SeedDone(x.Rows(), x.cols, first, draws, seeds.Rows());
  }

  class KMeans {
    const k: nat
    const maxIters: nat
    const tolerance: real
    var centroids: Matrix
    var inertia: real

    predicate Valid()
      reads this
    {
      centroids.Valid()
    }

    /** `KMeans(k, max_iters = 100, tolerance = 1e-4)`: no centroids yet
        (a 0 x 0 matrix) and inertia 0. */
    constructor (k: nat, maxIters: nat := 100, tolerance: real := 0.0001)
      ensures this.k == k && this.maxIters == maxIters && this.tolerance == tolerance
      ensures Valid() && centroids.rows == 0 && centroids.cols == 0 && inertia == 0.0
    {
      this.k := k;
      this.maxIters := maxIters;
      this.tolerance := tolerance;
      centroids := new Matrix(0, 0);
      inertia := 0.0;
    }

    /** `assign_clusters(X)`: the nearest-centroid label of every row, with
        the inertia of that assignment stored. */
    method AssignClusters(x: Matrix, sqrt: real -> real) returns (labels: seq<int>)
      requires Valid() && x.Valid() && 1 <= k == centroids.rows && x.cols == centroids.cols && IsSqrt(sqrt)
      modifies this`inertia
      ensures AllFit(x.Rows(), centroids.Rows())
      ensures labels == Assignment(x.Rows(), centroids.Rows())
      ensures inertia == Inertia(x.Rows(), centroids.Rows())
    {
      labels, inertia := AssignRows(x, centroids, k, sqrt);
    }
    /** `update_centroids(X, labels)`: the new centroids are the means of
        the clusters the labels give (zero for an empty cluster), and the
        result says whether the total movement fell below the tolerance. */
    method UpdateCentroids(x: Matrix, labels: seq<int>, sqrt: real -> real) returns (converged: bool)
      requires Valid() && x.Valid() && k == centroids.rows && x.cols == centroids.cols
      requires |labels| == x.rows && InRange(labels, k)
      modifies this`centroids
      ensures Valid() && fresh(centroids) && fresh(centroids.data)
      ensures centroids.rows == k && centroids.cols == x.cols && Shaped(x.Rows(), x.cols)
      ensures centroids.Rows() == Means(x.Rows(), labels, k, x.cols)
      ensures Shaped(old(centroids.Rows()), x.cols)
      ensures converged <==> Movement(sqrt, old(centroids.Rows()), centroids.Rows(), k) < tolerance
    {
      ghost var xs := x.Rows();
      RowsShaped(x);
      var current := centroids;
      var next := new Matrix(k, x.cols);
      ZeroRows(next);
      ClusterSumsStart(xs, labels, k, x.cols);
      var counts := Accumulate(x, labels, k, next);
      DivideClusters(next, counts);
      MeansFromSums(xs, labels, k, x.cols, counts, next.Rows());
      var movement := MovementOf(current, next, k, sqrt);
      centroids := next;
      converged := movement < tolerance;
    }

    /** `initialize_centroids(X)` (k-means++): seed 0 is row `first`; each
        later seed is the row the weighted scan picks for the next draw. */
    method InitializeCentroids(x: Matrix, first: nat, draws: seq<real>, sqrt: real -> real)
      requires Valid() && x.Valid() && 1 <= k && first < x.rows && k - 1 <= |draws| && IsSqrt(sqrt)
      modifies this`centroids
      ensures Valid() && fresh(centroids) && fresh(centroids.data)
      ensures centroids.rows == k && centroids.cols == x.cols && Shaped(x.Rows(), x.cols)
      ensures centroids.Rows() == Seeds(x.Rows(), x.cols, first, draws, k)
    {
      var seeds := new Matrix(k, x.cols);
      SeedRows(x, seeds, first, draws, sqrt);
      centroids := seeds;
    }

    /** `fit_predict(X)`: invalid_argument when there are fewer rows than
        clusters, with nothing changed; otherwise seed, then alternate
        assignment and update for at most `maxIters` rounds, returning the
        labels of the converging round or of a final assignment. */
    method FitPredict(x: Matrix, first: nat, draws: seq<real>, sqrt: real -> real) returns (r: Result<seq<int>>)
      requires Valid() && x.Valid() && 1 <= k && IsSqrt(sqrt)
      requires k <= x.rows ==> first < x.rows
      requires k - 1 <= |draws|
      modifies this`centroids, this`inertia
      ensures Valid() && Shaped(x.Rows(), x.cols)
      ensures r.Err? <==> x.rows < k
      ensures r.Err? ==> r.error == InvalidArgument && centroids == old(centroids) && inertia == old(inertia)
      ensures r.Ok? ==> centroids.rows == k && centroids.cols == x.cols
      ensures r.Ok? ==> FitPredictSpec(sqrt, x.Rows(), x.cols, k, maxIters, tolerance, first, draws)
                          == Ok(Fit(r.value, centroids.Rows(), inertia))
    {
      RowsShaped(x);
      if x.rows < k {
        return Err(InvalidArgument);
      }
      ghost var xs := x.Rows();
      InitializeCentroids(x, first, draws, sqrt);
      ghost var spec := FitLoop(sqrt, xs, x.cols, centroids.Rows(), tolerance, maxIters);
      var iter := 0;
      while iter < maxIters
        invariant 0 <= iter <= maxIters
        invariant Valid() && centroids.rows == k && centroids.cols == x.cols && x.Rows() == xs
        invariant Shaped(centroids.Rows(), x.cols)
        invariant FitLoop(sqrt, xs, x.cols, centroids.Rows(), tolerance, maxIters - iter) == spec
        decreases maxIters - iter
      {
        var labels, converged := Round(x, sqrt, xs, centroids.Rows(), maxIters - iter);
        if converged {
          return Ok(labels);
        }
        iter := iter + 1;
      }
      var labels := AssignClusters(x, sqrt);
      r := Ok(labels);
    }

    /** One round of the fit loop, with `remaining` rounds left: assign,
        update, and either stop with the round's labels or go on from the
        new centroids with one round fewer. */
    method Round(x: Matrix, sqrt: real -> real, ghost xs: seq<seq<real>>, ghost cs: seq<seq<real>>, ghost remaining: nat)
        returns (labels: seq<int>, converged: bool)
      requires Valid() && x.Valid() && 1 <= k == centroids.rows && x.cols == centroids.cols && IsSqrt(sqrt)
      requires x.Rows() == xs && centroids.Rows() == cs && Shaped(xs, x.cols) && Shaped(cs, x.cols) && 1 <= remaining
      modifies this`centroids, this`inertia
      ensures Valid() && centroids.rows == k && centroids.cols == x.cols && Shaped(centroids.Rows(), x.cols)
      ensures converged ==> FitLoop(sqrt, xs, x.cols, cs, tolerance, remaining) == Fit(labels, centroids.Rows(), inertia)
      ensures !converged ==>
        FitLoop(sqrt, xs, x.cols, cs, tolerance, remaining) == FitLoop(sqrt, xs, x.cols, centroids.Rows(), tolerance, remaining - 1)
    {
      labels := AssignClusters(x, sqrt);
      converged := UpdateCentroids(x, labels, sqrt);
    }
  }
}
