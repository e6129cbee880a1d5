/**
 * `GroupResult`: the graph of every data series for one two-group comparison, kept in
 * the order the labels were first added (the order in which the overlap visits them,
 * so the first series is the overlap's base), with dictionary assignment semantics.
 */
module GroupResults {
  import opened Wrappers
  import opened Components
  import opened Graphs
  import opened Labels
  import Overlap

  /** The largest component's node set of each graph, in order (`None` for a graph without edges). */
  function LargestNodeSets(graphs: seq<Graph>): (r: seq<Option<set<Node>>>)
    reads graphs
    requires forall k :: 0 <= k < |graphs| ==> graphs[k].Valid()
    ensures |r| == |graphs|
    ensures forall k :: 0 <= k < |graphs| ==> (r[k].None? <==> graphs[k].components == [])
    ensures forall k :: 0 <= k < |graphs| && r[k].Some? ==> r[k].value != {}
  {
    if graphs == [] then []
    else
      var first := graphs[0].Largest();
      [if first.Some? then Some(first.value.nodes) else None] + LargestNodeSets(graphs[1..])
  }

  /** Entry k is the node set of graph k's largest component. */
  lemma {:induction false} LargestNodeSetsAt(graphs: seq<Graph>)
    requires forall k :: 0 <= k < |graphs| ==> graphs[k].Valid()
    ensures forall k :: 0 <= k < |graphs| ==>
      LargestNodeSets(graphs)[k] == if graphs[k].Largest().Some? then Some(graphs[k].Largest().value.nodes) else None
  {
    if graphs != [] {
      LargestNodeSetsAt(graphs[1..]);
      forall k | 1 <= k < |graphs|
        ensures LargestNodeSets(graphs)[k] == LargestNodeSets(graphs[1..])[k - 1]
      {
      }
    }
  }

  /** `Graph.getNodeOverlapStrict`. */
  function NodeOverlapStrict(graphs: seq<Graph>): multiset<Node>
    reads graphs
    requires forall k :: 0 <= k < |graphs| ==> graphs[k].Valid()
  {
    Overlap.StrictOverlap(LargestNodeSets(graphs))
  }

  /**
   * The overlap is empty if any graph has no component; otherwise every node in it is in
   * the first graph's largest component and each node occurs at most once per later graph.
   */
  lemma NodeOverlapStrictProperties(graphs: seq<Graph>)
    requires forall k :: 0 <= k < |graphs| ==> graphs[k].Valid()
    ensures (exists k :: 0 <= k < |graphs| && graphs[k].components == []) ==>
      NodeOverlapStrict(graphs) == multiset{}
    ensures |graphs| <= 1 ==> NodeOverlapStrict(graphs) == multiset{}
    ensures (|graphs| >= 1 && forall k :: 0 <= k < |graphs| ==> graphs[k].components != []) ==>
      && (forall x :: x in NodeOverlapStrict(graphs) ==> x in graphs[0].Largest().value.nodes)
      && (forall x :: NodeOverlapStrict(graphs)[x] <= |graphs| - 1)
  {
    var series := LargestNodeSets(graphs);
    if exists k :: 0 <= k < |graphs| && graphs[k].components == [] {
      var k :| 0 <= k < |graphs| && graphs[k].components == [];
      Overlap.MissingSeriesEmptiesOverlap(series, k);
    }
    if |graphs| <= 1 {
      Overlap.SingleSeriesHasNoOverlap(series);
    }
    if |graphs| >= 1 && forall k :: 0 <= k < |graphs| ==> graphs[k].components != [] {
      assert series[0] == Some(graphs[0].Largest().value.nodes);
      Overlap.OverlapProperties(series);
    }
  }

  /**
   * `dataSeriesGraphs` as two aligned lists: the labels in first-insertion order and the
   * graph stored under each.
   */
  datatype GroupResult = GroupResult(labels: seq<Label>, graphs: seq<Graph>) {

    /** Aligned lists with unique labels (dictionary keys). */
    predicate WellShaped()
    {
      && |labels| == |graphs|
      && forall i, j :: 0 <= i < j < |labels| ==> labels[i] != labels[j]
    }

    ghost predicate Valid()
      reads graphs
    {
      WellShaped() && forall k :: 0 <= k < |graphs| ==> graphs[k].Valid()
    }

    /** `addGraph`: `dataSeriesGraphs[key] = graph`. */
    function AddGraph(key: Label, graph: Graph): (r: GroupResult)
      requires WellShaped()
      ensures r.WellShaped()
      ensures key in r.labels
      ensures |r.labels| == if key in labels then |labels| else |labels| + 1
      ensures r.labels[..|labels|] == labels
      ensures forall i :: 0 <= i < |r.labels| ==>
        r.graphs[i] == if r.labels[i] == key then graph else graphs[i]
    {
      match Find(labels, key)
      case Some(i) => GroupResult(labels, graphs[i := graph])
      case None => GroupResult(labels + [key], graphs + [graph])
    }

    /** `getNodeOverlap`. */
    function NodeOverlap(): multiset<Node>
      reads graphs
      requires Valid()
    {
      NodeOverlapStrict(graphs)
    }
  }

  /** The position of `key` in a list of labels, if present. */
  function Find(labels: seq<Label>, key: Label): (r: Option<nat>)
    ensures r.Some? ==> r.value < |labels| && labels[r.value] == key
    ensures r.None? ==> key !in labels
  {
    if labels == [] then None
    else if labels[0] == key then Some(0)
    else match Find(labels[1..], key)
      case None => None
      case Some(i) => Some(i + 1)
  }
}
