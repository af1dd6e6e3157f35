/** Per-label counting, as both `print_regime_stats` and the k-means update
    do it with `counts[label]++`. */
module Tally {
  /** The number of positions below n holding label r. */
  function CountOf(labels: seq<int>, r: int, n: nat): (c: nat)
    requires n <= |labels|
    ensures c <= n
  {
    if n == 0 then 0 else CountOf(labels, r, n - 1) + (if labels[n - 1] == r then 1 else 0)
  }

  /** The count of every label 0 .. m - 1 over the first n positions. */
  function Counts(labels: seq<int>, m: nat, n: nat): (c: seq<nat>)
    requires n <= |labels|
    ensures |c| == m
  {
    seq(m, r requires 0 <= r < m => CountOf(labels, r, n))
  }

  /** The number of positions below n holding a label in 0 .. m - 1. */
  function InRangeCount(labels: seq<int>, m: nat, n: nat): (c: nat)
    requires n <= |labels|
    ensures c <= n
  {
    if n == 0 then 0 else InRangeCount(labels, m, n - 1) + (if 0 <= labels[n - 1] < m then 1 else 0)
  }

  /** Every label is an index into a table of m counters. */
  predicate InRange(labels: seq<int>, m: nat)
  {
    forall i :: 0 <= i < |labels| ==> 0 <= labels[i] < m
  }

  function Total(s: seq<nat>): nat
  {
    if |s| == 0 then 0 else Total(s[..|s| - 1]) + s[|s| - 1]
  }

  /** Incrementing one counter raises the total by one. */
  lemma {:induction false} TotalIncrement(s: seq<nat>, j: nat)
    requires j < |s|
    ensures Total(s[j := s[j] + 1]) == Total(s) + 1
  {
    var t := s[j := s[j] + 1];
    if j < |s| - 1 {
      TotalIncrement(s[..|s| - 1], j);
      assert t[..|s| - 1] == s[..|s| - 1][j := s[j] + 1];
    } else {
      assert t[..|s| - 1] == s[..|s| - 1];
    }
  }

  /** Counting position n increments exactly the counter of its label, or
      none when the label is out of range. */
  lemma CountsStep(labels: seq<int>, m: nat, n: nat)
    requires n < |labels|
    ensures 0 <= labels[n] < m ==>
      Counts(labels, m, n + 1) == Counts(labels, m, n)[labels[n] := Counts(labels, m, n)[labels[n]] + 1]
    ensures !(0 <= labels[n] < m) ==> Counts(labels, m, n + 1) == Counts(labels, m, n)
  {
  }

  /** The counters add up to the number of labelled positions in range: all
      n of them when every label is in range. */
  lemma {:induction false} CountsTotal(labels: seq<int>, m: nat, n: nat)
    requires n <= |labels|
    ensures Total(Counts(labels, m, n)) == InRangeCount(labels, m, n)
  {
    if n == 0 {
      ZeroTotal(Counts(labels, m, 0));
    } else {
      CountsTotal(labels, m, n - 1);
      CountsStep(labels, m, n - 1);
      if 0 <= labels[n - 1] < m {
        TotalIncrement(Counts(labels, m, n - 1), labels[n - 1]);
      }
    }
  }

  /** With every label in range, no position goes uncounted. */
  lemma {:induction false} AllInRange(labels: seq<int>, m: nat, n: nat)
    requires n <= |labels| && forall i :: 0 <= i < n ==> 0 <= labels[i] < m
    ensures InRangeCount(labels, m, n) == n
  {
    if n > 0 {
      AllInRange(labels, m, n - 1);
    }
  }

  lemma {:induction false} ZeroTotal(s: seq<nat>)
    requires forall i :: 0 <= i < |s| ==> s[i] == 0
    ensures Total(s) == 0
  {
    if |s| > 0 {
      ZeroTotal(s[..|s| - 1]);
    }
  }
}
