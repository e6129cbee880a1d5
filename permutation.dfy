/**
 * `PermutationResult`: the null distribution accumulated over permutation rounds. Every
 * round appends one largest-component size per label, one overlap count, and raises the
 * tally of every node in that round's overlap once per occurrence.
 */
module Permutation {
  import opened Wrappers
  import opened Components
  import opened Graphs
  import opened GroupResults
  import opened Tallies
  import opened Labels

  /** A label's recorded sizes; a missing label reads as an empty list (`defaultdict(list)`). */
  function Get(m: map<Label, seq<nat>>, key: Label): seq<nat>
  {
    if key in m then m[key] else []
  }

  /** The largest-component size of each graph, in order. */
  function LargestSizes(graphs: seq<Graph>): (r: seq<nat>)
    reads graphs
    requires forall i :: 0 <= i < |graphs| ==> graphs[i].Valid()
    ensures |r| == |graphs|
    ensures forall i :: 0 <= i < |graphs| ==> r[i] == graphs[i].LargestComponentSize()
  {
    if graphs == [] then [] else [graphs[0].LargestComponentSize()] + LargestSizes(graphs[1..])
  }

  /** The loop at lines 150-151: append each label's size to that label's list. */
  function Appended(m: map<Label, seq<nat>>, labels: seq<Label>, sizes: seq<nat>): map<Label, seq<nat>>
    requires |labels| == |sizes|
  {
    if labels == [] then m
    else
      var n := |labels| - 1;
      var m' := Appended(m, labels[..n], sizes[..n]);
      m'[labels[n] := Get(m', labels[n]) + [sizes[n]]]
  }

  /** With distinct labels, each label's list grows by exactly its own size; no other list changes. */
  lemma {:induction false} AppendedEffect(m: map<Label, seq<nat>>, labels: seq<Label>, sizes: seq<nat>)
    requires |labels| == |sizes|
    requires forall i, j :: 0 <= i < j < |labels| ==> labels[i] != labels[j]
    ensures forall key :: key in Appended(m, labels, sizes) <==> key in m || key in labels
    ensures forall i :: 0 <= i < |labels| ==>
      Appended(m, labels, sizes)[labels[i]] == Get(m, labels[i]) + [sizes[i]]
    ensures forall key :: key !in labels ==> Get(Appended(m, labels, sizes), key) == Get(m, key)
  {
    if labels != [] {
      var n := |labels| - 1;
      var prefix := labels[..n];
      var m' := Appended(m, prefix, sizes[..n]);
      AppendedEffect(m, prefix, sizes[..n]);
      assert labels == prefix + [labels[n]];
      forall i | 0 <= i < |labels|
        ensures Appended(m, labels, sizes)[labels[i]] == Get(m, labels[i]) + [sizes[i]]
      {
        if i < n {
          assert prefix[i] == labels[i] && sizes[..n][i] == sizes[i];
          assert m'[prefix[i]] == Get(m, prefix[i]) + [sizes[..n][i]];
        } else {
          assert labels[n] !in prefix;
        }
      }
      forall key | key !in labels
        ensures Get(Appended(m, labels, sizes), key) == Get(m, key)
      {
        assert key !in prefix;
      }
    }
  }

  /** Lines 150-151: append every series' largest-component size to its label's list. */
  method AppendSizes(ext: map<Label, seq<nat>>, labels: seq<Label>, sizes: seq<nat>)
    returns (r: map<Label, seq<nat>>)
    requires |labels| == |sizes|
    ensures r == Appended(ext, labels, sizes)
  {
    r := ext;
    var i := 0;
    while i < |labels|
      invariant 0 <= i <= |labels|
      invariant r == Appended(ext, labels[..i], sizes[..i])
    {
      assert labels[..i + 1][..i] == labels[..i] && sizes[..i + 1][..i] == sizes[..i];
      r := r[labels[i] := Get(r, labels[i]) + [sizes[i]]];
      i := i + 1;
    }
    assert labels[..i] == labels && sizes[..i] == sizes;
  }

  function TallyOf(totals: map<Node, nat>, n: Node): nat
  {
    if n in totals then totals[n] else 0
  }

  /** Lines 160-164: raise a node's tally once per occurrence in the overlap, starting at 1. */
  method AddTallies(totals: map<Node, nat>, nodes: multiset<Node>) returns (r: map<Node, nat>)
    ensures forall n :: TallyOf(r, n) == TallyOf(totals, n) + nodes[n]
    ensures forall n :: n in r <==> n in totals || n in nodes
  {
    r := totals;
    var rest := nodes;
    ghost var done: multiset<Node> := multiset{};
    while rest != multiset{}
      invariant done + rest == nodes
      invariant forall n :: TallyOf(r, n) == TallyOf(totals, n) + done[n]
      invariant forall n :: n in r <==> n in totals || n in done
      decreases |rest|
    {
      var n :| n in rest;
      if n in r {
        r := r[n := r[n] + 1];
      } else {
        r := r[n := 1];
      }
      rest := rest - multiset{n};
      done := done + multiset{n};
    }
  }

  /** One more round lengthens each label's list by at most one. */
  lemma AppendedBound(m: map<Label, seq<nat>>, labels: seq<Label>, sizes: seq<nat>, n: nat)
    requires |labels| == |sizes|
    requires forall i, j :: 0 <= i < j < |labels| ==> labels[i] != labels[j]
    requires forall key :: key in m ==> |m[key]| <= n
    ensures forall key :: key in Appended(m, labels, sizes) ==> |Appended(m, labels, sizes)[key]| <= n + 1
  {
    AppendedEffect(m, labels, sizes);
    forall key | key in Appended(m, labels, sizes)
      ensures |Appended(m, labels, sizes)[key]| <= n + 1
    {
      if key in labels {
        var i :| 0 <= i < |labels| && labels[i] == key;
        assert Appended(m, labels, sizes)[key] == Get(m, key) + [sizes[i]];
      } else {
        assert Get(Appended(m, labels, sizes), key) == Get(m, key);
      }
    }
  }

  lemma TalliesPositive(totals: map<Node, nat>, nodes: multiset<Node>, r: map<Node, nat>)
    requires forall n :: n in totals ==> totals[n] > 0
    requires forall n :: TallyOf(r, n) == TallyOf(totals, n) + nodes[n]
    requires forall n :: n in r <==> n in totals || n in nodes
    ensures forall n :: n in r ==> r[n] > 0
  {
    forall n | n in r
      ensures r[n] > 0
    {
      assert TallyOf(r, n) == TallyOf(totals, n) + nodes[n];
    }
  }

  lemma DivideMonotone(a: real, b: real, n: real)
    requires 0.0 <= a <= b && n > 0.0
    ensures a / n <= b / n
  {
    assert a / n * n == a && b / n * n == b;
  }

  /** The ratio of a positive count to a round count it does not exceed lies in (0, 1]. */
  lemma Fraction(k: nat, n: nat)
    requires 0 < k <= n
    ensures 0.0 < k as real / n as real <= 1.0
    ensures (k as real / n as real) * n as real == k as real
  {
    DivideMonotone(k as real, n as real, n as real);
  }

  /** A list that is absent reads as empty, so a bound on every stored list bounds each lookup. */
  lemma GetBound(m: map<Label, seq<nat>>, n: nat, key: Label)
    requires forall key :: key in m ==> |m[key]| <= n
    ensures |Get(m, key)| <= n
  {
  }

  /**
   * Lines 172-178 over a distribution recorded in `rounds` rounds: the share of rounds larger
   * than `extent`, or 0 when none is.
   */
  function PValue(dist: seq<nat>, rounds: nat, extent: int): (p: real)
    requires |dist| <= rounds
    ensures 0.0 <= p <= 1.0
    ensures p == 0.0 <==> forall i :: 0 <= i < |dist| ==> dist[i] <= extent
    ensures p > 0.0 ==> OutOf(p, ExceedCount(dist, extent), rounds)
  {
    var k := ExceedCount(dist, extent);
    ExceedCountZero(dist, extent);
    if k > 0 then
      Fraction(k, rounds);
      k as real / rounds as real
    else 0.0
  }

  class PermutationResult {
    /** Stays empty: the append at line 146 is commented out. */
    var groupResults: seq<GroupResult>
    var groupResultsLength: nat
    var cmpExtBySeries: map<Label, seq<nat>>
    var nodeOverlapCounts: seq<nat>
    var nodeTotals: map<Node, nat>

    ghost predicate Valid()
      reads this
    {
      && groupResults == []
      && |nodeOverlapCounts| == groupResultsLength
      && (forall key :: key in cmpExtBySeries ==> |cmpExtBySeries[key]| <= groupResultsLength)
      && (forall n :: n in nodeTotals ==> nodeTotals[n] > 0 && groupResultsLength > 0)
    }

    constructor ()
      ensures Valid()
      ensures groupResults == [] && groupResultsLength == 0
      ensures cmpExtBySeries == map[] && nodeOverlapCounts == [] && nodeTotals == map[]
    {
      groupResults := [];
      groupResultsLength := 0;
      cmpExtBySeries := map[];
      nodeOverlapCounts := [];
      nodeTotals := map[];
    }

    function Tally(n: Node): nat
      reads this
    {
      TallyOf(nodeTotals, n)
    }

    /** `addResult`: record one permutation round. */
    method AddResult(grpRes: GroupResult)
      requires Valid() && grpRes.Valid()
      modifies this
      ensures Valid()
      ensures groupResults == old(groupResults)
      ensures groupResultsLength == old(groupResultsLength) + 1
      ensures cmpExtBySeries == Appended(old(cmpExtBySeries), grpRes.labels, old(LargestSizes(grpRes.graphs)))
      ensures nodeOverlapCounts == old(nodeOverlapCounts) + [|old(grpRes.NodeOverlap())|]
      ensures forall n :: Tally(n) == old(Tally(n)) + old(grpRes.NodeOverlap())[n]
      ensures forall n :: n in nodeTotals <==> n in old(nodeTotals) || n in old(grpRes.NodeOverlap())
    {
      var sizes := LargestSizes(grpRes.graphs);
      var nodes := grpRes.NodeOverlap();
      Record(grpRes.labels, sizes, nodes);
    }

    /** The state change of `addResult`, given the round's sizes per label and its overlap. */
    method Record(labels: seq<Label>, sizes: seq<nat>, nodes: multiset<Node>)
      requires Valid()
      requires |labels| == |sizes|
      requires forall i, j :: 0 <= i < j < |labels| ==> labels[i] != labels[j]
      modifies this
      ensures Valid()
      ensures groupResults == old(groupResults)
      ensures groupResultsLength == old(groupResultsLength) + 1
      ensures cmpExtBySeries == Appended(old(cmpExtBySeries), labels, sizes)
      ensures nodeOverlapCounts == old(nodeOverlapCounts) + [|nodes|]
      ensures forall n :: Tally(n) == old(Tally(n)) + nodes[n]
      ensures forall n :: n in nodeTotals <==> n in old(nodeTotals) || n in nodes
    {
      var ext := AppendSizes(cmpExtBySeries, labels, sizes);
      AppendedBound(cmpExtBySeries, labels, sizes, groupResultsLength);
      var totals := AddTallies(nodeTotals, nodes);
      TalliesPositive(nodeTotals, nodes, totals);
      groupResultsLength, cmpExtBySeries, nodeOverlapCounts, nodeTotals :=
        groupResultsLength + 1, ext, nodeOverlapCounts + [|nodes|], totals;
    }

    /** The recorded largest-component sizes of one label. */
    function Dist(seriesLabel: Label): seq<nat>
      reads this
    {
      Get(cmpExtBySeries, seriesLabel)
    }

    /**
     * `getComponentPVal`: the fraction of rounds whose largest component is strictly
     * larger than `componentExtent`; exactly 0 when no round's is.
     */
    function ComponentPVal(seriesLabel: Label, componentExtent: int): (p: real)
      reads this
      requires Valid()
      ensures 0.0 <= p <= 1.0
      ensures p == 0.0 <==> forall i :: 0 <= i < |Dist(seriesLabel)| ==> Dist(seriesLabel)[i] <= componentExtent
      ensures p > 0.0 ==> OutOf(p, ExceedCount(Dist(seriesLabel), componentExtent), groupResultsLength)
    {
      GetBound(cmpExtBySeries, groupResultsLength, seriesLabel);
      PValue(Dist(seriesLabel), groupResultsLength, componentExtent)
    }

    /**
     * `getOverlapNodePVal`: (tally, rounds, tally / rounds) for a tallied node; for any other
     * node (0, len(groupResults), 0), where `groupResults` is always empty.
     */
    function OverlapNodePVal(ident: Node): (r: (nat, nat, real))
      reads this
      requires Valid()
      ensures ident in nodeTotals ==>
        r.0 == nodeTotals[ident] && r.1 == groupResultsLength && r.1 > 0 && r.2 * r.1 as real == r.0 as real
      ensures ident !in nodeTotals ==> r == (0, 0, 0.0)
      ensures r.2 > 0.0 <==> ident in nodeTotals
    {
      if ident in nodeTotals then
        var nodeCount := nodeTotals[ident];
        (nodeCount, groupResultsLength, nodeCount as real / groupResultsLength as real)
      else
        (0, |groupResults|, 0.0)
    }

    /** `getMaxOverlapSize`: the largest per-round overlap count; `None` where numpy raises. */
    function MaxOverlapSize(): (r: Option<nat>)
      reads this
      ensures r.None? <==> nodeOverlapCounts == []
      ensures r.Some? ==> r.value in nodeOverlapCounts
      ensures r.Some? ==> forall i :: 0 <= i < |nodeOverlapCounts| ==> nodeOverlapCounts[i] <= r.value
    {
      MaxOf(nodeOverlapCounts)
    }

    /** `getOverlapHistogram`: rounds per overlap count, indexed 0..max, summing to the rounds recorded. */
    function OverlapHistogram(): (h: seq<nat>)
      reads this
      requires Valid()
      ensures nodeOverlapCounts != [] ==> |h| == MaxOf(nodeOverlapCounts).value + 1
      ensures forall v :: 0 <= v < |h| ==> h[v] == CountOf(nodeOverlapCounts, v)
      ensures Sum(h) == groupResultsLength
    {
      BinCount(nodeOverlapCounts)
    }
  }

  /** The component p-value does not increase as the observed extent grows. */
  lemma ComponentPValNonIncreasing(pr: PermutationResult, seriesLabel: Label, e1: int, e2: int)
    requires pr.Valid()
    requires e1 <= e2
    ensures pr.ComponentPVal(seriesLabel, e2) <= pr.ComponentPVal(seriesLabel, e1)
  {
    ExceedCountAntitone(pr.Dist(seriesLabel), e1, e2);
    var k1 := ExceedCount(pr.Dist(seriesLabel), e1);
    var k2 := ExceedCount(pr.Dist(seriesLabel), e2);
    if k2 > 0 {
      var n := pr.groupResultsLength as real;
      DivideMonotone(k2 as real, k1 as real, n);
    }
  }
}
