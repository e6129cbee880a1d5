/**
 * Counting helpers behind the permutation null distribution's queries: how many
 * recorded values exceed an observed one, the maximum of a list (`np.max`) and the
 * occurrence counts of small non-negative integers (`np.bincount`).
 */
module Tallies {
  import opened Wrappers

  /** Number of entries strictly greater than `extent` (`len(np.where(dist > extent)[0])`). */
  function ExceedCount(dist: seq<nat>, extent: int): (k: nat)
    ensures k <= |dist|
  {
    if dist == [] then 0 else (if dist[0] > extent then 1 else 0) + ExceedCount(dist[1..], extent)
  }

  /** The share `p` is `k` out of `n`: scaled back by `n` it gives `k`. */
  ghost predicate OutOf(p: real, k: nat, n: nat)
  {
    p * n as real == k as real
  }

  /** No entry exceeds `extent` exactly when the count is zero. */
  lemma {:induction false} ExceedCountZero(dist: seq<nat>, extent: int)
    ensures ExceedCount(dist, extent) == 0 <==> forall i :: 0 <= i < |dist| ==> dist[i] <= extent
  {
    if dist != [] {
      ExceedCountZero(dist[1..], extent);
      assert forall i :: 1 <= i < |dist| ==> dist[i] == dist[1..][i - 1];
    }
  }

  /** A larger observed extent is exceeded by no more recorded values. */
  lemma {:induction false} ExceedCountAntitone(dist: seq<nat>, e1: int, e2: int)
    requires e1 <= e2
    ensures ExceedCount(dist, e2) <= ExceedCount(dist, e1)
  {
    if dist != [] {
      ExceedCountAntitone(dist[1..], e1, e2);
    }
  }

  /** `np.max`: the largest entry; `None` where numpy raises on an empty list. */
  function MaxOf(s: seq<nat>): (r: Option<nat>)
    ensures r.None? <==> s == []
    ensures r.Some? ==> r.value in s && forall i :: 0 <= i < |s| ==> s[i] <= r.value
  {
    if s == [] then None
    else
      var rest := MaxOf(s[1..]);
      if rest.None? || s[0] >= rest.value then Some(s[0]) else Some(rest.value)
  }

  /** Number of occurrences of `v` in `s`. */
  function CountOf(s: seq<nat>, v: nat): (k: nat)
    ensures k <= |s|
  {
    if s == [] then 0 else (if s[0] == v then 1 else 0) + CountOf(s[1..], v)
  }

  function Sum(h: seq<nat>): nat
  {
    if h == [] then 0 else Sum(h[..|h| - 1]) + h[|h| - 1]
  }

  /** Σ_{v < m} CountOf(s, v). */
  function SumCounts(s: seq<nat>, m: nat): nat
  {
    if m == 0 then 0 else SumCounts(s, m - 1) + CountOf(s, m - 1)
  }

  lemma {:induction false} SumCountsHead(s: seq<nat>, m: nat)
    requires s != []
    ensures SumCounts(s, m) == SumCounts(s[1..], m) + (if s[0] < m then 1 else 0)
  {
    if m > 0 {
      SumCountsHead(s, m - 1);
    }
  }

  /** When every entry is below `m`, counting each value below `m` counts every entry once. */
  lemma {:induction false} SumCountsAll(s: seq<nat>, m: nat)
    requires forall i :: 0 <= i < |s| ==> s[i] < m
    ensures SumCounts(s, m) == |s|
  {
    if s == [] {
      SumCountsEmpty(m);
    } else {
      SumCountsHead(s, m);
      assert forall i :: 0 <= i < |s| - 1 ==> s[1..][i] == s[i + 1];
      SumCountsAll(s[1..], m);
    }
  }

  lemma {:induction false} SumCountsEmpty(m: nat)
    ensures SumCounts([], m) == 0
  {
    if m > 0 {
      SumCountsEmpty(m - 1);
    }
  }

  function Counts(s: seq<nat>, m: nat): (h: seq<nat>)
    ensures |h| == m
    ensures forall v :: 0 <= v < m ==> h[v] == CountOf(s, v)
  {
    seq(m, v requires 0 <= v => CountOf(s, v))
  }

  lemma {:induction false} SumOfCounts(s: seq<nat>, m: nat)
    ensures Sum(Counts(s, m)) == SumCounts(s, m)
  {
    if m > 0 {
      assert Counts(s, m)[..m - 1] == Counts(s, m - 1);
      SumOfCounts(s, m - 1);
    }
  }

  /**
   * `np.bincount`: entry `v` counts the occurrences of `v`; there are max+1 entries
   * (none for an empty list), and together they count every entry once.
   */
  function BinCount(s: seq<nat>): (h: seq<nat>)
    ensures s == [] ==> h == []
    ensures s != [] ==> |h| == MaxOf(s).value + 1
    ensures forall v :: 0 <= v < |h| ==> h[v] == CountOf(s, v)
    ensures Sum(h) == |s|
  {
    if s == [] then []
    else
      var m := MaxOf(s).value + 1;
      SumOfCounts(s, m);
      SumCountsAll(s, m);
      Counts(s, m)
  }
}
