/**
 * `tStatNBS`: the network-based statistic driver. It caches every subject's data per label,
 * compares two groups label by label (t-test, threshold, components), builds the null
 * distribution from random relabellings, and gives every observed component its p-value.
 */
module Nbs {
  import opened Wrappers
  import opened Components
  import opened Graphs
  import opened GroupResults
  import opened Permutation
  import opened SubjectCache
  import opened EdgeSelection
  import opened Shuffling
  import opened Labels
  import Overlap
  import opened Tallies

  /** `DataParameters`: one data series, its edge threshold and its node count. */
  datatype DataParameter = DataParameter(seriesLabel: Label, threshold: real, totalNodes: nat)

  /**
   * `scipy.stats.ttest_ind(grp1Data, grp2Data, axis=0)[0]`: one statistic per column. The
   * test itself is not part of this model; it is a parameter.
   */
  type TTest = (seq<seq<real>>, seq<seq<real>>) -> seq<TStat>

  /** What `compare` and its steps raise. */
  datatype NbsError =
    | CacheFailure(cause: CacheError)
    | ReshapeMismatch(series: Label, length: nat, totalNodes: nat)  // `reshape`: ValueError

  /** `ComparisonResult`. */
  datatype ComparisonResult = ComparisonResult(actualResult: GroupResult, permutationResult: PermutationResult)

  /** The labels of the data parameters. */
  function ParamLabels(params: seq<DataParameter>): set<Label>
  {
    set k | 0 <= k < |params| :: params[k].seriesLabel
  }

  /** Lines 219-236: cache every label in turn, or stop at the first that raises. */
  function CacheAll(m: map<Label, CacheItem>, subs: seq<Subject>, params: seq<DataParameter>)
    : Result<map<Label, CacheItem>, CacheError>
  {
    if params == [] then Success(m)
    else
      var n := |params| - 1;
      match CacheAll(m, subs, params[..n])
      case Failure(e) => Failure(e)
      case Success(m') =>
        match BuildItem(subs, params[n].seriesLabel)
        case Failure(e) => Failure(e)
        case Success(item) => Success(m'[params[n].seriesLabel := item])
  }

  /** Caching succeeds exactly when every label's item can be built. */
  lemma {:induction false} CacheAllSucceeds(m: map<Label, CacheItem>, subs: seq<Subject>, params: seq<DataParameter>)
    ensures CacheAll(m, subs, params).Success? <==>
      forall k :: 0 <= k < |params| ==> BuildItem(subs, params[k].seriesLabel).Success?
  {
    if params != [] {
      var n := |params| - 1;
      CacheAllSucceeds(m, subs, params[..n]);
      assert forall k :: 0 <= k < n ==> params[..n][k] == params[k];
      if CacheAll(m, subs, params[..n]).Failure? {
        var k :| 0 <= k < n && BuildItem(subs, params[..n][k].seriesLabel).Failure?;
        assert params[..n][k] == params[k];
      }
    }
  }

  /**
   * After caching, every parameter's label holds the item built from all subjects, and
   * every other entry is kept.
   */
  lemma {:induction false} CacheAllEntries(m: map<Label, CacheItem>, subs: seq<Subject>, params: seq<DataParameter>)
    requires CacheAll(m, subs, params).Success?
    ensures var r := CacheAll(m, subs, params).value;
      && (forall key :: key in r <==> key in m || key in ParamLabels(params))
      && (forall key :: key in ParamLabels(params) ==> BuildItem(subs, key) == Success(r[key]))
      && (forall key :: key in m && key !in ParamLabels(params) ==> r[key] == m[key])
  {
    if params != [] {
      var n := |params| - 1;
      CacheAllEntries(m, subs, params[..n]);
      assert ParamLabels(params) == ParamLabels(params[..n]) + {params[n].seriesLabel} by {
        assert forall k :: 0 <= k < n ==> params[..n][k] == params[k];
      }
    }
  }

  lemma {:induction false} CacheAllFailurePersists(m: map<Label, CacheItem>, subs: seq<Subject>, params: seq<DataParameter>, k: nat)
    requires k <= |params|
    requires CacheAll(m, subs, params[..k]).Failure?
    ensures CacheAll(m, subs, params) == CacheAll(m, subs, params[..k])
    decreases |params| - k
  {
    if k < |params| {
      assert params[..k + 1][..k] == params[..k];
      CacheAllFailurePersists(m, subs, params, k + 1);
    } else {
      assert params[..k] == params;
    }
  }

  /** Every cached item's index names rows of that item. */
  ghost predicate CacheIndexed(cache: map<Label, CacheItem>)
  {
    forall key :: key in cache ==> Indexed(cache[key])
  }

  /**
   * Lines 255-277: look up the cached rows of both groups and test them column by column. An
   * item built over an empty roster has no rows: `dci.data` kept its initial None (line 224),
   * and indexing it at line 269 raises.
   */
  function TTestResult(cache: map<Label, CacheItem>, group1: seq<Subject>, group2: seq<Subject>,
                       key: Label, ttest: TTest): Result<seq<TStat>, NbsError>
    requires CacheIndexed(cache)
  {
    if key !in cache then Failure(CacheFailure(UnknownLabel(key)))
    else
      var item := cache[key];
      LookupCharacterized(item.subjectIndex, group1);
      LookupCharacterized(item.subjectIndex, group2);
      match Lookup(item.subjectIndex, group1)
      case Failure(e) => Failure(CacheFailure(e))
      case Success(idxs1) =>
        match Lookup(item.subjectIndex, group2)
        case Failure(e) => Failure(CacheFailure(e))
        case Success(idxs2) =>
          if item.rows == [] then Failure(CacheFailure(NoRows(key)))
          else Success(ttest(Select(item.rows, idxs1), Select(item.rows, idxs2)))
  }

  /**
   * After caching all subjects of both groups (with unique ids), any two groups drawn from
   * them, in any order, are tested on their members' own data; with no subject at all, the
   * test raises for want of a data matrix.
   */
  lemma TTestUsesOwnData(m: map<Label, CacheItem>, subs: seq<Subject>, params: seq<DataParameter>,
                         key: Label, group1: seq<Subject>, group2: seq<Subject>, ttest: TTest)
    requires CacheIndexed(m)
    requires CacheAll(m, subs, params).Success?
    requires UniqueIds(subs)
    requires key in ParamLabels(params)
    requires forall k :: 0 <= k < |group1| ==> group1[k] in subs
    requires forall k :: 0 <= k < |group2| ==> group2[k] in subs
    ensures CacheIndexed(CacheAll(m, subs, params).value)
    ensures Fits(group1, key, Width(subs, key)) && Fits(group2, key, Width(subs, key))
    ensures TTestResult(CacheAll(m, subs, params).value, group1, group2, key, ttest) ==
      if subs == [] then Failure(CacheFailure(NoRows(key)))
      else Success(ttest(OwnRows(group1, key, Width(subs, key)), OwnRows(group2, key, Width(subs, key))))
  {
    CacheAllSucceeds(m, subs, params);
    CacheAllEntries(m, subs, params);
    var r := CacheAll(m, subs, params).value;
    forall key' | key' in r
      ensures Indexed(r[key'])
    {
      if key' in ParamLabels(params) {
        BuildItemIndexed(subs, key');
      }
    }
    var k :| 0 <= k < |params| && params[k].seriesLabel == key;
    var item := BuildItem(subs, key).value;
    BuildItemIndexed(subs, key);
    SelectsOwnRows(subs, key, item, group1);
    SelectsOwnRows(subs, key, item, group2);
  }

  /** Lines 290-304 for one parameter: the t-test, the reshape, and the supra-threshold edges. */
  function SeriesEdges(cache: map<Label, CacheItem>, group1: seq<Subject>, group2: seq<Subject>,
                       p: DataParameter, ttest: TTest): Result<seq<Coord>, NbsError>
    requires CacheIndexed(cache)
  {
    match TTestResult(cache, group1, group2, p.seriesLabel, ttest)
    case Failure(e) => Failure(e)
    case Success(t) =>
      if |t| != p.totalNodes * p.totalNodes then Failure(ReshapeMismatch(p.seriesLabel, |t|, p.totalNodes))
      else Success(SupraThresholdCoords(t, p.totalNodes, p.threshold))
  }

  /** Lines 287-307: the edges of every series in turn, or the first series that raises. */
  function EdgesOf(cache: map<Label, CacheItem>, group1: seq<Subject>, group2: seq<Subject>,
                   params: seq<DataParameter>, ttest: TTest): (r: Result<seq<seq<Coord>>, NbsError>)
    requires CacheIndexed(cache)
    ensures r.Success? ==> |r.value| == |params|
  {
    if params == [] then Success([])
    else
      var n := |params| - 1;
      match EdgesOf(cache, group1, group2, params[..n], ttest)
      case Failure(e) => Failure(e)
      case Success(edges) =>
        match SeriesEdges(cache, group1, group2, params[n], ttest)
        case Failure(e) => Failure(e)
        case Success(coords) => Success(edges + [coords])
  }

  /** All series succeed exactly when each does; then the k-th entry is the k-th series' edges. */
  lemma {:induction false} EdgesOfEach(cache: map<Label, CacheItem>, group1: seq<Subject>, group2: seq<Subject>,
                                       params: seq<DataParameter>, ttest: TTest)
    requires CacheIndexed(cache)
    ensures EdgesOf(cache, group1, group2, params, ttest).Success? <==>
      forall k :: 0 <= k < |params| ==> SeriesEdges(cache, group1, group2, params[k], ttest).Success?
    ensures EdgesOf(cache, group1, group2, params, ttest).Success? ==>
      var edges := EdgesOf(cache, group1, group2, params, ttest).value;
      |edges| == |params| &&
      forall k :: 0 <= k < |params| ==> SeriesEdges(cache, group1, group2, params[k], ttest) == Success(edges[k])
  {
    if params != [] {
      var n := |params| - 1;
      EdgesOfEach(cache, group1, group2, params[..n], ttest);
      assert forall k :: 0 <= k < n ==> params[..n][k] == params[k];
      if EdgesOf(cache, group1, group2, params[..n], ttest).Failure? {
        var k :| 0 <= k < n && SeriesEdges(cache, group1, group2, params[..n][k], ttest).Failure?;
        assert params[..n][k] == params[k];
      }
    }
  }

  /** One more series: its failure, or its edges appended. */
  lemma EdgesOfStep(cache: map<Label, CacheItem>, group1: seq<Subject>, group2: seq<Subject>,
                    params: seq<DataParameter>, ttest: TTest, k: nat, done: seq<seq<Coord>>)
    requires CacheIndexed(cache)
    requires k < |params|
    requires EdgesOf(cache, group1, group2, params[..k], ttest) == Success(done)
    ensures SeriesEdges(cache, group1, group2, params[k], ttest).Failure? ==>
      EdgesOf(cache, group1, group2, params[..k + 1], ttest) == Failure(SeriesEdges(cache, group1, group2, params[k], ttest).error)
    ensures SeriesEdges(cache, group1, group2, params[k], ttest).Success? ==>
      EdgesOf(cache, group1, group2, params[..k + 1], ttest) == Success(done + [SeriesEdges(cache, group1, group2, params[k], ttest).value])
  {
    assert params[..k + 1][..k] == params[..k];
  }

  lemma {:induction false} EdgesOfFailurePersists(cache: map<Label, CacheItem>, group1: seq<Subject>, group2: seq<Subject>,
                                                  params: seq<DataParameter>, ttest: TTest, k: nat)
    requires CacheIndexed(cache)
    requires k <= |params|
    requires EdgesOf(cache, group1, group2, params[..k], ttest).Failure?
    ensures EdgesOf(cache, group1, group2, params, ttest) == EdgesOf(cache, group1, group2, params[..k], ttest)
    decreases |params| - k
  {
    if k < |params| {
      assert params[..k + 1][..k] == params[..k];
      EdgesOfFailurePersists(cache, group1, group2, params, ttest, k + 1);
    } else {
      assert params[..k] == params;
    }
  }

  /** The last parameter with label `key`: its graph is the one `addGraph` leaves in the dictionary. */
  function LastWith(params: seq<DataParameter>, key: Label): (r: Option<nat>)
    ensures r.None? <==> forall j :: 0 <= j < |params| ==> params[j].seriesLabel != key
    ensures r.Some? ==> r.value < |params| && params[r.value].seriesLabel == key
    ensures r.Some? ==> forall j :: r.value < j < |params| ==> params[j].seriesLabel != key
  {
    if params == [] then None
    else
      var n := |params| - 1;
      assert forall k :: 0 <= k < n ==> params[..n][k] == params[k];
      if params[n].seriesLabel == key then Some(n) else LastWith(params[..n], key)
  }

  /** The dictionary's keys after adding `params` in turn: each label where it was first added. */
  function LabelOrder(params: seq<DataParameter>): (r: seq<Label>)
    ensures forall key :: key in r <==> key in ParamLabels(params)
    ensures forall i, j :: 0 <= i < j < |r| ==> r[i] != r[j]
  {
    if params == [] then []
    else
      var n := |params| - 1;
      var prev := LabelOrder(params[..n]);
      assert ParamLabels(params) == ParamLabels(params[..n]) + {params[n].seriesLabel} by {
        assert forall k :: 0 <= k < n ==> params[..n][k] == params[k];
      }
      if params[n].seriesLabel in prev then prev else prev + [params[n].seriesLabel]
  }

  /** Every parameter's label has a graph. */
  ghost predicate LabelsCovered(res: GroupResult, params: seq<DataParameter>)
  {
    forall j :: 0 <= j < |params| ==> params[j].seriesLabel in res.labels
  }

  /** No two labels share a graph object. */
  ghost predicate DistinctGraphs(res: GroupResult)
  {
    forall i, j :: 0 <= i < j < |res.graphs| ==> res.graphs[i] != res.graphs[j]
  }

  /**
   * Each graph holds the edges of the last parameter with its label (out of `expected`, the
   * edges of every parameter's series) and the components of those edges.
   */
  ghost predicate GraphsHoldEdges(res: GroupResult, params: seq<DataParameter>, expected: seq<seq<Coord>>)
    reads res.graphs
    requires res.WellShaped() && |expected| == |params|
  {
    forall i :: 0 <= i < |res.graphs| ==>
      && LastWith(params, res.labels[i]).Some?
      && res.graphs[i].rawEdges == expected[LastWith(params, res.labels[i]).value]
      && res.graphs[i].components == Decompose(res.graphs[i].rawEdges)
  }

  /** `res` is what `compareGroups` builds from `params`, whose series have the edges `expected`. */
  ghost predicate Holds(res: GroupResult, params: seq<DataParameter>, expected: seq<seq<Coord>>)
    reads res.graphs
  {
    && res.Valid()
    && |expected| == |params|
    && res.labels == LabelOrder(params)
    && LabelsCovered(res, params)
    && DistinctGraphs(res)
    && GraphsHoldEdges(res, params, expected)
  }

  lemma ValidAfterAdd(res: GroupResult, key: Label, graph: Graph)
    requires res.Valid() && graph.Valid()
    ensures res.AddGraph(key, graph).Valid()
  {
    var res' := res.AddGraph(key, graph);
    forall i | 0 <= i < |res'.graphs|
      ensures res'.graphs[i].Valid()
    {
      if res'.labels[i] != key {
        assert res'.graphs[i] == res.graphs[i];
      }
    }
  }

  lemma CoveredAfterAdd(res: GroupResult, params: seq<DataParameter>, graph: Graph)
    requires res.WellShaped()
    requires params != []
    requires LabelsCovered(res, params[..|params| - 1])
    ensures LabelsCovered(res.AddGraph(params[|params| - 1].seriesLabel, graph), params)
  {
    var n := |params| - 1;
    var res' := res.AddGraph(params[n].seriesLabel, graph);
    forall j | 0 <= j < n
      ensures params[j].seriesLabel in res'.labels
    {
      assert params[..n][j] == params[j];
      var i :| 0 <= i < |res.labels| && res.labels[i] == params[j].seriesLabel;
      assert res'.labels[i] == res.labels[i];
    }
  }

  lemma DistinctAfterAdd(res: GroupResult, key: Label, graph: Graph)
    requires res.WellShaped()
    requires DistinctGraphs(res)
    requires graph !in res.graphs
    ensures DistinctGraphs(res.AddGraph(key, graph))
  {
    var res' := res.AddGraph(key, graph);
    forall i, j | 0 <= i < j < |res'.graphs|
      ensures res'.graphs[i] != res'.graphs[j]
    {
      if res'.labels[i] != key {
        assert res'.graphs[i] == res.graphs[i];
      }
      if res'.labels[j] != key {
        assert res'.graphs[j] == res.graphs[j];
      }
    }
  }

  lemma EdgesAfterAdd(res: GroupResult, graph: Graph, params: seq<DataParameter>, expected: seq<seq<Coord>>, edges: seq<Coord>)
    requires res.WellShaped()
    requires params != [] && |expected| == |params| - 1
    requires GraphsHoldEdges(res, params[..|params| - 1], expected)
    requires graph.rawEdges == edges && graph.components == Decompose(edges)
    ensures GraphsHoldEdges(res.AddGraph(params[|params| - 1].seriesLabel, graph), params, expected + [edges])
  {
    var n := |params| - 1;
    var key := params[n].seriesLabel;
    var res' := res.AddGraph(key, graph);
    forall i | 0 <= i < |res'.graphs|
      ensures LastWith(params, res'.labels[i]).Some?
      ensures res'.graphs[i].rawEdges == (expected + [edges])[LastWith(params, res'.labels[i]).value]
      ensures res'.graphs[i].components == Decompose(res'.graphs[i].rawEdges)
    {
      if res'.labels[i] != key {
        assert res'.labels[i] == res.labels[i] && res'.graphs[i] == res.graphs[i];
        assert LastWith(params, res.labels[i]) == LastWith(params[..n], res.labels[i]);
      }
    }
  }

  lemma OrderAfterAdd(res: GroupResult, params: seq<DataParameter>, graph: Graph)
    requires res.WellShaped() && params != []
    requires res.labels == LabelOrder(params[..|params| - 1])
    ensures res.AddGraph(params[|params| - 1].seriesLabel, graph).labels == LabelOrder(params)
  {
    var key := params[|params| - 1].seriesLabel;
    var r := res.AddGraph(key, graph);
    assert r.labels[..|res.labels|] == res.labels;
    if key !in res.labels {
      assert r.labels[|res.labels|] in r.labels;
      assert r.labels == res.labels + [key];
    }
  }

  /** Adding the next parameter's graph keeps `Holds`, now over one more parameter. */
  lemma HoldsAfterAdd(res: GroupResult, key: Label, graph: Graph, params: seq<DataParameter>,
                      expected: seq<seq<Coord>>, edges: seq<Coord>)
    requires params != [] && key == params[|params| - 1].seriesLabel
    requires Holds(res, params[..|params| - 1], expected)
    requires graph !in res.graphs
    requires graph.Valid() && graph.rawEdges == edges && graph.components == Decompose(edges)
    ensures Holds(res.AddGraph(key, graph), params, expected + [edges])
  {
    ValidAfterAdd(res, key, graph);
    OrderAfterAdd(res, params, graph);
    CoveredAfterAdd(res, params, graph);
    DistinctAfterAdd(res, key, graph);
    EdgesAfterAdd(res, graph, params, expected, edges);
  }

  /** A fresh graph holding the components of `coords` (lines 301-304). */
  method NewGraph(coords: seq<Coord>) returns (graph: Graph)
    ensures fresh(graph)
    ensures graph.Valid() && graph.rawEdges == coords && graph.components == Decompose(coords)
  {
    graph := new Graph();
    graph.SetCoords(coords);
  }

  /** Every key of a `Holds` result is a parameter's label, and every parameter's label is a key. */
  lemma HoldsLabels(res: GroupResult, params: seq<DataParameter>, expected: seq<seq<Coord>>)
    requires Holds(res, params, expected)
    ensures forall key :: key in res.labels <==> key in ParamLabels(params)
  {
    forall key | key in res.labels
      ensures key in ParamLabels(params)
    {
      var i :| 0 <= i < |res.labels| && res.labels[i] == key;
      var k := LastWith(params, key).value;
      assert params[k].seriesLabel == key;
    }
  }

  /** The largest component the scan of lines 80-86 keeps for the graph of the edges `es`. */
  function LargestOf(es: seq<Coord>): (r: Option<Component>)
    ensures r.Some? <==> Decompose(es) != []
    ensures r.Some? ==> r.value in Decompose(es)
    ensures r.Some? ==> forall c :: c in Decompose(es) ==> Size(c) <= Size(r.value)
  {
    var cs := Decompose(es);
    LargestIsFirstMaximum(cs, |cs|);
    match LargestFrom(None, cs, 0, |cs|)
    case None => None
    case Some(k) => Some(cs[k])
  }

  /** `getLargestComponentSize` of the graph of `es`. */
  function LargestSizeOf(es: seq<Coord>): nat
  {
    if LargestOf(es).Some? then Size(LargestOf(es).value) else 0
  }

  /** The node set `getNodeOverlapStrict` reads from the graph of `es`, if it has a component. */
  function LargestNodesOf(es: seq<Coord>): Option<set<Node>>
  {
    if LargestOf(es).Some? then Some(LargestOf(es).value.nodes) else None
  }

  /** The edges of the graph stored under `key`: those of the last parameter with that label. */
  function LabelEdges(edges: seq<seq<Coord>>, params: seq<DataParameter>, key: Label): seq<Coord>
    requires |edges| == |params|
  {
    match LastWith(params, key)
    case None => []
    case Some(j) => edges[j]
  }

  /** The node sets `getNodeOverlapStrict` reads, in label order, when the series have the edges `edges`. */
  function RoundNodeSets(edges: seq<seq<Coord>>, params: seq<DataParameter>): (r: seq<Option<set<Node>>>)
    requires |edges| == |params|
    ensures |r| == |LabelOrder(params)|
    ensures forall i :: 0 <= i < |r| ==> r[i] == LargestNodesOf(LabelEdges(edges, params, LabelOrder(params)[i]))
  {
    var order := LabelOrder(params);
    seq(|order|, i requires 0 <= i < |order| => LargestNodesOf(LabelEdges(edges, params, order[i])))
  }

  /** The overlap `getNodeOverlap` finds in a comparison whose series have the edges `edges`. */
  function RoundOverlap(edges: seq<seq<Coord>>, params: seq<DataParameter>): multiset<Node>
    requires |edges| == |params|
  {
    Overlap.StrictOverlap(RoundNodeSets(edges, params))
  }

  /** The size `addResult` appends to `key`'s list for such a comparison: one per parameter label. */
  function RoundSizes(edges: seq<seq<Coord>>, params: seq<DataParameter>, key: Label): (r: seq<nat>)
    requires |edges| == |params|
    ensures |r| == if key in ParamLabels(params) then 1 else 0
  {
    if key in ParamLabels(params) then [LargestSizeOf(LabelEdges(edges, params, key))] else []
  }

  /** Each graph `compareGroups` builds tracks the largest component of its label's edges. */
  lemma GraphsLargest(res: GroupResult, params: seq<DataParameter>, expected: seq<seq<Coord>>)
    requires Holds(res, params, expected)
    ensures forall i :: 0 <= i < |res.graphs| ==>
      res.graphs[i].Largest() == LargestOf(LabelEdges(expected, params, res.labels[i]))
  {
    forall i | 0 <= i < |res.graphs|
      ensures res.graphs[i].Largest() == LargestOf(LabelEdges(expected, params, res.labels[i]))
    {
      assert res.graphs[i].Valid();
    }
  }

  /**
   * What `addResult` reads from a `compareGroups` result is fixed by the series' edges: each
   * graph's largest size is that of its label's edges, and the overlap is `RoundOverlap`.
   */
  lemma RoundReadings(res: GroupResult, params: seq<DataParameter>, expected: seq<seq<Coord>>)
    requires Holds(res, params, expected)
    ensures forall i :: 0 <= i < |res.graphs| ==>
      res.graphs[i].LargestComponentSize() == LargestSizeOf(LabelEdges(expected, params, res.labels[i]))
    ensures res.NodeOverlap() == RoundOverlap(expected, params)
  {
    GraphsLargest(res, params, expected);
    GraphsNodeSets(res, params, expected);
  }

  /** The node sets `getNodeOverlapStrict` reads from such a result are those of the series' edges. */
  lemma GraphsNodeSets(res: GroupResult, params: seq<DataParameter>, expected: seq<seq<Coord>>)
    requires Holds(res, params, expected)
    ensures LargestNodeSets(res.graphs) == RoundNodeSets(expected, params)
  {
    GraphsLargest(res, params, expected);
    LargestNodeSetsAt(res.graphs);
    var sets, want := LargestNodeSets(res.graphs), RoundNodeSets(expected, params);
    assert |sets| == |want|;
    forall i | 0 <= i < |sets|
      ensures sets[i] == want[i]
    {
      assert res.labels[i] == LabelOrder(params)[i];
    }
  }

  /**
   * Recording a `compareGroups` result appends, for every parameter label and no other, the
   * largest size of that label's series.
   */
  lemma RecordedSizes(m: map<Label, seq<nat>>, res: GroupResult, params: seq<DataParameter>, expected: seq<seq<Coord>>)
    requires Holds(res, params, expected)
    ensures forall key ::
      Get(Appended(m, res.labels, LargestSizes(res.graphs)), key) == Get(m, key) + RoundSizes(expected, params, key)
  {
    HoldsLabels(res, params, expected);
    RoundReadings(res, params, expected);
    AppendedRound(m, res.labels, LargestSizes(res.graphs), params, expected);
  }

  lemma AppendedRound(m: map<Label, seq<nat>>, labels: seq<Label>, sizes: seq<nat>, params: seq<DataParameter>,
                      expected: seq<seq<Coord>>)
    requires |labels| == |sizes| && |expected| == |params|
    requires forall i, j :: 0 <= i < j < |labels| ==> labels[i] != labels[j]
    requires forall key :: key in labels <==> key in ParamLabels(params)
    requires forall i :: 0 <= i < |labels| ==> sizes[i] == LargestSizeOf(LabelEdges(expected, params, labels[i]))
    ensures forall key :: Get(Appended(m, labels, sizes), key) == Get(m, key) + RoundSizes(expected, params, key)
  {
    var m' := Appended(m, labels, sizes);
    AppendedEffect(m, labels, sizes);
    forall key
      ensures Get(m', key) == Get(m, key) + RoundSizes(expected, params, key)
    {
      if key in labels {
        var i :| 0 <= i < |labels| && labels[i] == key;
        assert m'[labels[i]] == Get(m, labels[i]) + [sizes[i]];
      }
    }
  }

  /** A round's largest-component sizes, one per label, in the order the labels first appear. */
  function RoundSizeSeq(edges: seq<seq<Coord>>, params: seq<DataParameter>): (r: seq<nat>)
    requires |edges| == |params|
    ensures |r| == |LabelOrder(params)|
    ensures forall i :: 0 <= i < |r| ==> r[i] == LargestSizeOf(LabelEdges(edges, params, LabelOrder(params)[i]))
  {
    var order := LabelOrder(params);
    seq(|order|, i requires 0 <= i < |order| => LargestSizeOf(LabelEdges(edges, params, order[i])))
  }

  /** The sizes `addResult` reads off a round's graphs are the round's sizes in label order. */
  lemma RoundSizesInOrder(res: GroupResult, params: seq<DataParameter>, expected: seq<seq<Coord>>)
    requires Holds(res, params, expected)
    ensures LargestSizes(res.graphs) == RoundSizeSeq(expected, params)
  {
    RoundReadings(res, params, expected);
  }

  /** `result.addGraph(dataParameter, graph)` for the last parameter, keeping `Holds`. */
  method Attach(result: GroupResult, key: Label, graph: Graph, ghost params: seq<DataParameter>,
                ghost done: seq<seq<Coord>>) returns (r: GroupResult)
    requires params != [] && key == params[|params| - 1].seriesLabel
    requires Holds(result, params[..|params| - 1], done)
    requires graph !in result.graphs
    requires graph.Valid() && graph.components == Decompose(graph.rawEdges)
    ensures r == result.AddGraph(key, graph)
    ensures Holds(r, params, done + [graph.rawEdges])
    ensures forall i :: 0 <= i < |r.graphs| ==> r.graphs[i] in result.graphs || r.graphs[i] == graph
  {
    HoldsAfterAdd(result, key, graph, params, done, graph.rawEdges);
    r := result.AddGraph(key, graph);
  }

  /** The random groups of permutation round `round` (lines 325-329). */
  function RandomGroups(group1: seq<Subject>, group2: seq<Subject>, rng: (nat, nat) -> nat, round: nat)
    : (r: (seq<Subject>, seq<Subject>))
    ensures |r.0| == |group1| && |r.1| == |group2|
    ensures multiset(r.0 + r.1) == multiset(group1 + group2)
  {
    var all := ShuffledRounds(group1 + group2, rng, round + 1);
    ShuffledRoundsPermutes(group1 + group2, rng, round + 1);
    RandomGroupsRepartition(all, group1, group2);
    (all[..|group1|], all[|group1|..|group1| + |group2|])
  }

  /** The edges of every series in permutation round `round`. */
  function RoundEdges(cache: map<Label, CacheItem>, group1: seq<Subject>, group2: seq<Subject>,
                      params: seq<DataParameter>, ttest: TTest, rng: (nat, nat) -> nat, round: nat)
    : Result<seq<seq<Coord>>, NbsError>
    requires CacheIndexed(cache)
  {
    var groups := RandomGroups(group1, group2, rng, round);
    EdgesOf(cache, groups.0, groups.1, params, ttest)
  }

  /** `rounds[k]` holds the series' edges of permutation round `k`, for every recorded round. */
  ghost predicate EdgesOfRounds(cache: map<Label, CacheItem>, group1: seq<Subject>, group2: seq<Subject>,
                                params: seq<DataParameter>, ttest: TTest, rng: (nat, nat) -> nat,
                                rounds: seq<seq<seq<Coord>>>)
    requires CacheIndexed(cache)
  {
    forall k :: 0 <= k < |rounds| ==> RoundEdges(cache, group1, group2, params, ttest, rng, k) == Success(rounds[k])
  }

  /** A round whose edges follow the recorded ones extends the record by one. */
  lemma EdgesOfRoundsStep(cache: map<Label, CacheItem>, group1: seq<Subject>, group2: seq<Subject>,
                          params: seq<DataParameter>, ttest: TTest, rng: (nat, nat) -> nat,
                          rounds: seq<seq<seq<Coord>>>, edges: seq<seq<Coord>>)
    requires CacheIndexed(cache)
    requires EdgesOfRounds(cache, group1, group2, params, ttest, rng, rounds)
    requires RoundEdges(cache, group1, group2, params, ttest, rng, |rounds|) == Success(edges)
    ensures EdgesOfRounds(cache, group1, group2, params, ttest, rng, rounds + [edges])
  {
    forall k | 0 <= k < |rounds| + 1
      ensures RoundEdges(cache, group1, group2, params, ttest, rng, k) == Success((rounds + [edges])[k])
    {
      if k < |rounds| {
        assert (rounds + [edges])[k] == rounds[k];
      }
    }
  }

  /** Every round's series have one edge list per parameter. */
  ghost predicate Shaped(rounds: seq<seq<seq<Coord>>>, params: seq<DataParameter>)
  {
    forall k :: 0 <= k < |rounds| ==> |rounds[k]| == |params|
  }

  /** `cmpExtBySeries[key]` after the rounds: what each round appends to `key`'s list, in turn. */
  function NullSizes(rounds: seq<seq<seq<Coord>>>, params: seq<DataParameter>, key: Label): (r: seq<nat>)
    requires Shaped(rounds, params)
    ensures |r| == if key in ParamLabels(params) then |rounds| else 0
  {
    if rounds == [] then []
    else
      var n := |rounds| - 1;
      NullSizes(rounds[..n], params, key) + RoundSizes(rounds[n], params, key)
  }

  /** `cmpExtBySeries` after the rounds: each round appends its sizes in label order. */
  function NullMap(rounds: seq<seq<seq<Coord>>>, params: seq<DataParameter>): map<Label, seq<nat>>
    requires Shaped(rounds, params)
  {
    if rounds == [] then map[]
    else
      var n := |rounds| - 1;
      Appended(NullMap(rounds[..n], params), LabelOrder(params), RoundSizeSeq(rounds[n], params))
  }

  /** Each label's list in `NullMap` is its null distribution over the rounds. */
  lemma {:induction false} NullMapSizes(rounds: seq<seq<seq<Coord>>>, params: seq<DataParameter>, key: Label)
    requires Shaped(rounds, params)
    ensures Get(NullMap(rounds, params), key) == NullSizes(rounds, params, key)
  {
    if rounds != [] {
      var n := |rounds| - 1;
      NullMapSizes(rounds[..n], params, key);
      AppendedRound(NullMap(rounds[..n], params), LabelOrder(params), RoundSizeSeq(rounds[n], params), params, rounds[n]);
    }
  }

  /** `nodeOverlapCounts` after the rounds: each round's overlap size, in turn. */
  function OverlapCounts(rounds: seq<seq<seq<Coord>>>, params: seq<DataParameter>): (r: seq<nat>)
    requires Shaped(rounds, params)
    ensures |r| == |rounds|
  {
    if rounds == [] then []
    else
      var n := |rounds| - 1;
      OverlapCounts(rounds[..n], params) + [|RoundOverlap(rounds[n], params)|]
  }

  /** `nodeTotals[node]` after the rounds (0 for an absent node): its occurrences over all overlaps. */
  function NullTally(rounds: seq<seq<seq<Coord>>>, params: seq<DataParameter>, node: Node): nat
    requires Shaped(rounds, params)
  {
    if rounds == [] then 0
    else
      var n := |rounds| - 1;
      NullTally(rounds[..n], params, node) + RoundOverlap(rounds[n], params)[node]
  }

  /** One more round extends each of the three records by that round's readings. */
  lemma NullStep(rounds: seq<seq<seq<Coord>>>, edges: seq<seq<Coord>>, params: seq<DataParameter>)
    requires Shaped(rounds, params) && |edges| == |params|
    ensures Shaped(rounds + [edges], params)
    ensures NullMap(rounds + [edges], params) == Appended(NullMap(rounds, params), LabelOrder(params), RoundSizeSeq(edges, params))
    ensures forall key :: NullSizes(rounds + [edges], params, key) == NullSizes(rounds, params, key) + RoundSizes(edges, params, key)
    ensures OverlapCounts(rounds + [edges], params) == OverlapCounts(rounds, params) + [|RoundOverlap(edges, params)|]
    ensures forall node :: NullTally(rounds + [edges], params, node) == NullTally(rounds, params, node) + RoundOverlap(edges, params)[node]
  {
    assert (rounds + [edges])[..|rounds|] == rounds;
  }

  /**
   * The three records of a permutation result (sizes per label, overlap counts, node totals)
   * hold, per label, per round and per node, the readings of the rounds' graphs.
   */
  ghost predicate NullRecords(cmp: map<Label, seq<nat>>, counts: seq<nat>, totals: map<Node, nat>,
                              rounds: seq<seq<seq<Coord>>>, params: seq<DataParameter>)
  {
    && Shaped(rounds, params)
    && cmp == NullMap(rounds, params)
    && counts == OverlapCounts(rounds, params)
    && (forall n :: TallyOf(totals, n) == NullTally(rounds, params, n))
  }

  ghost predicate NullOf(pr: PermutationResult, rounds: seq<seq<seq<Coord>>>, params: seq<DataParameter>)
    reads pr
  {
    NullRecords(pr.cmpExtBySeries, pr.nodeOverlapCounts, pr.nodeTotals, rounds, params)
  }

  /**
   * The records went from (`cmp`, `counts`, `totals`) to (`cmp'`, `counts'`, `totals'`) by
   * recording one round whose series have the edges `edges`.
   */
  ghost predicate RoundRecorded(cmp: map<Label, seq<nat>>, counts: seq<nat>, totals: map<Node, nat>,
                                cmp': map<Label, seq<nat>>, counts': seq<nat>, totals': map<Node, nat>,
                                edges: seq<seq<Coord>>, params: seq<DataParameter>)
  {
    && |edges| == |params|
    && cmp' == Appended(cmp, LabelOrder(params), RoundSizeSeq(edges, params))
    && counts' == counts + [|RoundOverlap(edges, params)|]
    && (forall n :: TallyOf(totals', n) == TallyOf(totals, n) + RoundOverlap(edges, params)[n])
  }

  /** Recording one more round's readings keeps the records those of the rounds so far. */
  lemma NullRecordsStep(cmp: map<Label, seq<nat>>, counts: seq<nat>, totals: map<Node, nat>,
                        cmp': map<Label, seq<nat>>, counts': seq<nat>, totals': map<Node, nat>,
                        rounds: seq<seq<seq<Coord>>>, edges: seq<seq<Coord>>, params: seq<DataParameter>)
    requires NullRecords(cmp, counts, totals, rounds, params)
    requires RoundRecorded(cmp, counts, totals, cmp', counts', totals', edges, params)
    ensures NullRecords(cmp', counts', totals', rounds + [edges], params)
  {
    NullStep(rounds, edges, params);
  }

  /**
   * The null distribution of a parameter label holds, round by round, the largest-component
   * size of the graph of its series' edges in that round.
   */
  lemma {:induction false} NullSizesAt(rounds: seq<seq<seq<Coord>>>, params: seq<DataParameter>, key: Label)
    requires Shaped(rounds, params)
    requires key in ParamLabels(params)
    ensures forall k :: 0 <= k < |rounds| ==>
      NullSizes(rounds, params, key)[k] == LargestSizeOf(LabelEdges(rounds[k], params, key))
  {
    if rounds != [] {
      var n := |rounds| - 1;
      var prefix := rounds[..n];
      NullSizesAt(prefix, params, key);
      var sizes := NullSizes(prefix, params, key);
      assert NullSizes(rounds, params, key) == sizes + RoundSizes(rounds[n], params, key);
      forall k | 0 <= k < |rounds|
        ensures NullSizes(rounds, params, key)[k] == LargestSizeOf(LabelEdges(rounds[k], params, key))
      {
        if k < n {
          assert prefix[k] == rounds[k];
        }
      }
    }
  }

  /** Likewise the overlap counts hold, round by round, the size of that round's overlap. */
  lemma {:induction false} OverlapCountsAt(rounds: seq<seq<seq<Coord>>>, params: seq<DataParameter>)
    requires Shaped(rounds, params)
    ensures forall k :: 0 <= k < |rounds| ==> OverlapCounts(rounds, params)[k] == |RoundOverlap(rounds[k], params)|
  {
    if rounds != [] {
      var n := |rounds| - 1;
      var prefix := rounds[..n];
      OverlapCountsAt(prefix, params);
      var counts := OverlapCounts(prefix, params);
      var last := |RoundOverlap(rounds[n], params)|;
      assert OverlapCounts(rounds, params) == counts + [last];
      forall k | 0 <= k < |rounds|
        ensures OverlapCounts(rounds, params)[k] == |RoundOverlap(rounds[k], params)|
      {
        if k < n {
          assert prefix[k] == rounds[k];
          assert OverlapCounts(rounds, params)[k] == counts[k];
        } else {
          assert OverlapCounts(rounds, params)[k] == last;
        }
      }
    }
  }

  /**
   * In every permutation round the t-test sees each regrouped subject's own data: the cache
   * built over the original groups serves any regrouping of the same subjects.
   */
  lemma RoundTestsOwnData(m: map<Label, CacheItem>, group1: seq<Subject>, group2: seq<Subject>,
                          params: seq<DataParameter>, key: Label, ttest: TTest, rng: (nat, nat) -> nat, round: nat)
    requires CacheIndexed(m)
    requires CacheAll(m, group1 + group2, params).Success?
    requires UniqueIds(group1 + group2)
    requires key in ParamLabels(params)
    ensures CacheIndexed(CacheAll(m, group1 + group2, params).value)
    ensures Fits(RandomGroups(group1, group2, rng, round).0, key, Width(group1 + group2, key))
    ensures Fits(RandomGroups(group1, group2, rng, round).1, key, Width(group1 + group2, key))
    ensures TTestResult(CacheAll(m, group1 + group2, params).value, RandomGroups(group1, group2, rng, round).0,
                        RandomGroups(group1, group2, rng, round).1, key, ttest) ==
      if group1 + group2 == [] then Failure(CacheFailure(NoRows(key)))
      else Success(ttest(OwnRows(RandomGroups(group1, group2, rng, round).0, key, Width(group1 + group2, key)),
                    OwnRows(RandomGroups(group1, group2, rng, round).1, key, Width(group1 + group2, key))))
  {
    var g := RandomGroups(group1, group2, rng, round);
    forall k | 0 <= k < |g.0|
      ensures g.0[k] in group1 + group2
    {
      assert (g.0 + g.1)[k] == g.0[k];
      assert g.0[k] in multiset(g.0 + g.1);
    }
    forall k | 0 <= k < |g.1|
      ensures g.1[k] in group1 + group2
    {
      assert (g.0 + g.1)[|g.0| + k] == g.1[k];
      assert g.1[k] in multiset(g.0 + g.1);
    }
    TTestUsesOwnData(m, group1 + group2, params, key, g.0, g.1, ttest);
  }

  /** `components` with each component's p-value set from the permutation distribution of `key`. */
  ghost function WithPVals(components: seq<Component>, pr: PermutationResult, key: Label): (r: seq<Component>)
    reads pr
    requires pr.Valid()
    ensures |r| == |components|
    ensures forall k :: 0 <= k < |r| ==> r[k].nodes == components[k].nodes && r[k].edges == components[k].edges
  {
    seq(|components|, k requires 0 <= k < |components| && pr.Valid() reads pr =>
      components[k].(pVal := Some(pr.ComponentPVal(key, Size(components[k])))))
  }

  /**
   * Each graph holds the components of the last parameter with its label, each carrying the
   * p-value of its size under that label's permutation distribution.
   */
  ghost predicate GraphsScored(res: GroupResult, params: seq<DataParameter>, expected: seq<seq<Coord>>,
                               pr: PermutationResult)
    reads res.graphs, pr
    requires res.WellShaped() && |expected| == |params| && pr.Valid()
  {
    forall i :: 0 <= i < |res.graphs| ==>
      && LastWith(params, res.labels[i]).Some?
      && res.graphs[i].rawEdges == expected[LastWith(params, res.labels[i]).value]
      && res.graphs[i].components == WithPVals(Decompose(res.graphs[i].rawEdges), pr, res.labels[i])
  }

  /** `res` is what `compare` returns as its actual result. */
  ghost predicate Scored(res: GroupResult, params: seq<DataParameter>, expected: seq<seq<Coord>>,
                         pr: PermutationResult)
    reads res.graphs, pr
  {
    && res.Valid()
    && pr.Valid()
    && |expected| == |params|
    && LabelsCovered(res, params)
    && DistinctGraphs(res)
    && GraphsScored(res, params, expected, pr)
  }

  /**
   * After `compare`, every component of the actual result carries a p-value in [0, 1], and it
   * is 0 exactly when no permutation round of its label produced a larger largest component.
   */
  lemma ScoredPValues(res: GroupResult, params: seq<DataParameter>, expected: seq<seq<Coord>>,
                      pr: PermutationResult, i: nat, k: nat)
    requires Scored(res, params, expected, pr)
    requires i < |res.graphs| && k < |res.graphs[i].components|
    ensures res.graphs[i].components[k].pVal.Some?
    ensures 0.0 <= res.graphs[i].components[k].pVal.value <= 1.0
    ensures res.graphs[i].components[k].pVal.value == 0.0 <==>
      forall j :: 0 <= j < |pr.Dist(res.labels[i])| ==> pr.Dist(res.labels[i])[j] <= Size(res.graphs[i].components[k])
  {
    var base := Decompose(res.graphs[i].rawEdges);
    assert res.graphs[i].components == WithPVals(base, pr, res.labels[i]);
    assert res.graphs[i].components[k] == base[k].(pVal := Some(pr.ComponentPVal(res.labels[i], Size(base[k]))));
  }

  /**
   * After `compare`, a component of the actual result has p-value 0 exactly when, in every
   * permutation round, the largest component of its label's graph is no larger than it; and
   * otherwise the p-value times the number of rounds is the number of rounds in which it is larger.
   */
  lemma {:induction false} ComparedPValues(res: GroupResult, params: seq<DataParameter>, expected: seq<seq<Coord>>,
                                           pr: PermutationResult, rounds: seq<seq<seq<Coord>>>, i: nat, k: nat)
    requires Scored(res, params, expected, pr)
    requires NullOf(pr, rounds, params) && pr.groupResultsLength == |rounds|
    requires i < |res.graphs| && k < |res.graphs[i].components|
    ensures res.graphs[i].components[k].pVal.Some?
    ensures res.graphs[i].components[k].pVal.value == 0.0 <==>
      forall j :: 0 <= j < |rounds| ==>
        LargestSizeOf(LabelEdges(rounds[j], params, res.labels[i])) <= Size(res.graphs[i].components[k])
    ensures res.graphs[i].components[k].pVal.value > 0.0 ==>
      OutOf(res.graphs[i].components[k].pVal.value,
            ExceedCount(NullSizes(rounds, params, res.labels[i]), Size(res.graphs[i].components[k])), |rounds|)
  {
    var key := res.labels[i];
    var c := res.graphs[i].components[k];
    var base := Decompose(res.graphs[i].rawEdges);
    assert res.graphs[i].components == WithPVals(base, pr, key);
    assert c == base[k].(pVal := Some(pr.ComponentPVal(key, Size(base[k]))));
    assert params[LastWith(params, key).value].seriesLabel == key;
    var p := c.pVal.value;
    assert p == pr.ComponentPVal(key, Size(c));
    NullMapSizes(rounds, params, key);
    NullPValue(pr.Dist(key), rounds, params, key, Size(c), p, pr.groupResultsLength);
  }

  /** A p-value read off a label's null distribution, in terms of the rounds' graphs. */
  lemma NullPValue(dist: seq<nat>, rounds: seq<seq<seq<Coord>>>, params: seq<DataParameter>, key: Label,
                   extent: int, p: real, n: nat)
    requires Shaped(rounds, params) && key in ParamLabels(params)
    requires dist == NullSizes(rounds, params, key) && n == |rounds|
    requires p == 0.0 <==> forall j :: 0 <= j < |dist| ==> dist[j] <= extent
    requires p > 0.0 ==> OutOf(p, ExceedCount(dist, extent), n)
    ensures p == 0.0 <==> forall j :: 0 <= j < |rounds| ==> LargestSizeOf(LabelEdges(rounds[j], params, key)) <= extent
    ensures p > 0.0 ==> OutOf(p, ExceedCount(NullSizes(rounds, params, key), extent), |rounds|)
  {
    NullSizesAt(rounds, params, key);
  }

  /** The inner loop of lines 354-355: set the p-value of every component of one graph. */
  method AssignPVals(graph: Graph, pr: PermutationResult, key: Label)
    requires graph.Valid() && pr.Valid()
    modifies graph
    ensures graph.Valid() && graph.rawEdges == old(graph.rawEdges)
    ensures graph.components == WithPVals(old(graph.components), pr, key)
  {
    ghost var original := graph.components;
    var c := 0;
    while c < |graph.components|
      invariant c <= |graph.components| == |original|
      invariant graph.Valid() && graph.rawEdges == old(graph.rawEdges)
      invariant forall k :: 0 <= k < |original| ==>
        graph.components[k] == if k < c then WithPVals(original, pr, key)[k] else original[k]
    {
      graph.SetPVal(c, pr.ComponentPVal(key, Size(graph.components[c])));
      c := c + 1;
    }
  }

  /** The outer loop of lines 353-355 over distinct graphs, each scored under its own label. */
  method ScoreAll(graphs: seq<Graph>, labels: seq<Label>, pr: PermutationResult)
    requires |labels| == |graphs| && pr.Valid()
    requires forall j :: 0 <= j < |graphs| ==> graphs[j].Valid()
    requires forall i, j :: 0 <= i < j < |graphs| ==> graphs[i] != graphs[j]
    modifies graphs
    ensures forall j :: 0 <= j < |graphs| ==> graphs[j].Valid() && graphs[j].rawEdges == old(graphs[j].rawEdges)
    ensures forall j :: 0 <= j < |graphs| ==> graphs[j].components == WithPVals(old(graphs[j].components), pr, labels[j])
  {
    ghost var comps := seq(|graphs|, j requires 0 <= j < |graphs| reads graphs => graphs[j].components);
    ghost var edges := seq(|graphs|, j requires 0 <= j < |graphs| reads graphs => graphs[j].rawEdges);
    ghost var scored := seq(|graphs|, j requires 0 <= j < |graphs| && pr.Valid() reads pr => WithPVals(comps[j], pr, labels[j]));
    var i := 0;
    while i < |graphs|
      invariant i <= |graphs|
      invariant forall j :: 0 <= j < |graphs| ==> graphs[j].Valid() && graphs[j].rawEdges == edges[j]
      invariant forall j :: 0 <= j < |graphs| ==> graphs[j].components == if j < i then scored[j] else comps[j]
    {
      label before:
      AssignPVals(graphs[i], pr, labels[i]);
      forall j | 0 <= j < |graphs| && j != i
        ensures graphs[j].components == old@before(graphs[j].components)
        ensures graphs[j].rawEdges == old@before(graphs[j].rawEdges)
        ensures graphs[j].Valid()
      {
        assert graphs[j] != graphs[i];
      }
      i := i + 1;
    }
  }

  /** Lines 353-355: set the p-values of every graph of the actual result. */
  method ScorePVals(res: GroupResult, pr: PermutationResult, ghost params: seq<DataParameter>,
                    ghost expected: seq<seq<Coord>>)
    requires Holds(res, params, expected) && pr.Valid()
    modifies res.graphs
    ensures Scored(res, params, expected, pr)
    ensures unchanged(pr)
  {
    ScoreAll(res.graphs, res.labels, pr);
  }

  class TStatNbs {
    var subDataByLabel: map<Label, CacheItem>

    ghost predicate Valid()
      reads this
    {
      CacheIndexed(subDataByLabel)
    }

    constructor ()
      ensures Valid()
      ensures subDataByLabel == map[]
    {
      subDataByLabel := map[];
    }

    /** `cacheData`: cache every label's data over `group1 + group2`. */
    method CacheData(group1: seq<Subject>, group2: seq<Subject>, params: seq<DataParameter>)
      returns (r: Result<(), CacheError>)
      requires Valid()
      modifies this
      ensures Valid()
      ensures r.Success? <==> CacheAll(old(subDataByLabel), group1 + group2, params).Success?
      ensures r.Success? ==> subDataByLabel == CacheAll(old(subDataByLabel), group1 + group2, params).value
      ensures r.Failure? ==> r.error == CacheAll(old(subDataByLabel), group1 + group2, params).error
    {
      var subs := group1 + group2;
      var k := 0;
      while k < |params|
        invariant 0 <= k <= |params|
        invariant Valid()
        invariant CacheAll(old(subDataByLabel), subs, params[..k]) == Success(subDataByLabel)
      {
        assert params[..k + 1][..k] == params[..k];
        var item := BuildCacheItem(subs, params[k].seriesLabel);
        if item.Failure? {
          CacheAllFailurePersists(old(subDataByLabel), subs, params, k + 1);
          return Failure(item.error);
        }
        BuildItemIndexed(subs, params[k].seriesLabel);
        subDataByLabel := subDataByLabel[params[k].seriesLabel := item.value];
        k := k + 1;
      }
      assert params[..k] == params;
      return Success(());
    }

    /** `tTestGroups`, proved against `TTestResult`. */
    method TTestGroups(group1: seq<Subject>, group2: seq<Subject>, key: Label, ttest: TTest)
      returns (r: Result<seq<TStat>, NbsError>)
      requires Valid()
      ensures r == TTestResult(subDataByLabel, group1, group2, key, ttest)
    {
      if key !in subDataByLabel {
        return Failure(CacheFailure(UnknownLabel(key)));
      }
      var dataCache := subDataByLabel[key];
      var grp1 := LookupIndices(dataCache.subjectIndex, group1);
      if grp1.Failure? {
        return Failure(CacheFailure(grp1.error));
      }
      var grp2 := LookupIndices(dataCache.subjectIndex, group2);
      if grp2.Failure? {
        return Failure(CacheFailure(grp2.error));
      }
      LookupCharacterized(dataCache.subjectIndex, group1);
      LookupCharacterized(dataCache.subjectIndex, group2);
      if dataCache.rows == [] {
        return Failure(CacheFailure(NoRows(key)));
      }
      var grp1Data := Select(dataCache.rows, grp1.value);
      var grp2Data := Select(dataCache.rows, grp2.value);
      return Success(ttest(grp1Data, grp2Data));
    }

    /** One pass of the loop at lines 287-307: the graph of one data series. */
    method SeriesGraph(group1: seq<Subject>, group2: seq<Subject>, p: DataParameter, ttest: TTest)
      returns (r: Result<Graph, NbsError>)
      requires Valid()
      ensures r.Failure? ==> SeriesEdges(subDataByLabel, group1, group2, p, ttest) == Failure(r.error)
      ensures r.Success? ==> SeriesEdges(subDataByLabel, group1, group2, p, ttest) == Success(r.value.rawEdges)
      ensures r.Success? ==> fresh(r.value) && r.value.Valid()
      ensures r.Success? ==> r.value.components == Decompose(r.value.rawEdges)
    {
      var tresult := TTestGroups(group1, group2, p.seriesLabel, ttest);
      if tresult.Failure? {
        return Failure(tresult.error);
      }
      var t := tresult.value;
      if |t| != p.totalNodes * p.totalNodes {
        return Failure(ReshapeMismatch(p.seriesLabel, |t|, p.totalNodes));
      }
      var coords := SupraThresholdCoords(t, p.totalNodes, p.threshold);
      var graph := NewGraph(coords);
      return Success(graph);
    }

    /** One pass of the loop at lines 287-307: add the graph of `params[k]` to `result`. */
    method AddSeries(result: GroupResult, ghost done: seq<seq<Coord>>, group1: seq<Subject>, group2: seq<Subject>,
                     params: seq<DataParameter>, k: nat, ttest: TTest)
      returns (r: Result<GroupResult, NbsError>, ghost edges: seq<Coord>)
      requires Valid()
      requires k < |params|
      requires Holds(result, params[..k], done)
      ensures r.Failure? ==> SeriesEdges(subDataByLabel, group1, group2, params[k], ttest) == Failure(r.error)
      ensures r.Success? ==> SeriesEdges(subDataByLabel, group1, group2, params[k], ttest) == Success(edges)
      ensures r.Success? ==> Holds(r.value, params[..k + 1], done + [edges])
      ensures r.Success? ==> forall i :: 0 <= i < |r.value.graphs| ==>
        r.value.graphs[i] in result.graphs || fresh(r.value.graphs[i])
    {
      var graph := SeriesGraph(group1, group2, params[k], ttest);
      if graph.Failure? {
        return Failure(graph.error), [];
      }
      assert params[..k + 1][..k] == params[..k];
      assert graph.value !in result.graphs;
      assert Holds(result, params[..k], done);
      var next := Attach(result, params[k].seriesLabel, graph.value, params[..k + 1], done);
      return Success(next), graph.value.rawEdges;
    }

    /** `compareGroups`: one graph of supra-threshold components per data series. */
    method CompareGroups(group1: seq<Subject>, group2: seq<Subject>, params: seq<DataParameter>, ttest: TTest)
      returns (r: Result<GroupResult, NbsError>)
      requires Valid()
      ensures r.Success? <==> EdgesOf(subDataByLabel, group1, group2, params, ttest).Success?
      ensures r.Failure? ==> r.error == EdgesOf(subDataByLabel, group1, group2, params, ttest).error
      ensures r.Success? ==> Holds(r.value, params, EdgesOf(subDataByLabel, group1, group2, params, ttest).value)
      ensures r.Success? ==> forall i :: 0 <= i < |r.value.graphs| ==> fresh(r.value.graphs[i])
    {
      var result := GroupResult([], []);
      ghost var done: seq<seq<Coord>> := [];
      var k := 0;
      while k < |params|
        invariant 0 <= k <= |params|
        invariant EdgesOf(subDataByLabel, group1, group2, params[..k], ttest) == Success(done)
        invariant Holds(result, params[..k], done)
        invariant forall i :: 0 <= i < |result.graphs| ==> fresh(result.graphs[i])
      {
        var next;
        ghost var edges;
        next, edges := AddSeries(result, done, group1, group2, params, k, ttest);
        EdgesOfStep(subDataByLabel, group1, group2, params, ttest, k, done);
        if next.Failure? {
          EdgesOfFailurePersists(subDataByLabel, group1, group2, params, ttest, k + 1);
          assert EdgesOf(subDataByLabel, group1, group2, params, ttest) == Failure(next.error);
          return next;
        }
        assert EdgesOf(subDataByLabel, group1, group2, params[..k + 1], ttest) == Success(done + [edges]);
        forall i | 0 <= i < |next.value.graphs|
          ensures fresh(next.value.graphs[i])
        {
          if next.value.graphs[i] in result.graphs {
            var j :| 0 <= j < |result.graphs| && result.graphs[j] == next.value.graphs[i];
          }
        }
        result := next.value;
        done := done + [edges];
        k := k + 1;
      }
      assert params[..k] == params;
      return Success(result);
    }

    /**
     * `result.addResult(permResult)` for a round's comparison over `params`, whose series have
     * the edges `expected`: every parameter label's list gains the largest-component size of
     * its graph, the overlap count gains the size of the round's overlap and every node's tally
     * grows by its occurrences in that overlap.
     */
    static method RecordRound(result: PermutationResult, grpRes: GroupResult, ghost params: seq<DataParameter>,
                              ghost expected: seq<seq<Coord>>)
      requires result.Valid()
      requires Holds(grpRes, params, expected)
      modifies result
      ensures result.Valid() && result.groupResultsLength == old(result.groupResultsLength) + 1
      ensures result.cmpExtBySeries == Appended(old(result.cmpExtBySeries), LabelOrder(params), RoundSizeSeq(expected, params))
      ensures forall key :: result.Dist(key) == old(result.Dist(key)) + RoundSizes(expected, params, key)
      ensures result.nodeOverlapCounts == old(result.nodeOverlapCounts) + [|RoundOverlap(expected, params)|]
      ensures forall n :: result.Tally(n) == old(result.Tally(n)) + RoundOverlap(expected, params)[n]
    {
      RecordedSizes(result.cmpExtBySeries, grpRes, params, expected);
      RoundReadings(grpRes, params, expected);
      RoundSizesInOrder(grpRes, params, expected);
      result.AddResult(grpRes);
    }

    /** Lines 325-332: shuffle the roster, split it into groups of the original sizes and compare them. */
    method DrawRound(allSubjects: array<Subject>, group1: seq<Subject>, group2: seq<Subject>,
                     params: seq<DataParameter>, ttest: TTest, rng: (nat, nat) -> nat, round: nat)
      returns (r: Result<GroupResult, NbsError>)
      requires Valid()
      requires allSubjects[..] == ShuffledRounds(group1 + group2, rng, round)
      modifies allSubjects
      ensures allSubjects[..] == ShuffledRounds(group1 + group2, rng, round + 1)
      ensures r.Success? <==> RoundEdges(subDataByLabel, group1, group2, params, ttest, rng, round).Success?
      ensures r.Failure? ==> RoundEdges(subDataByLabel, group1, group2, params, ttest, rng, round) == Failure(r.error)
      ensures r.Success? ==> Holds(r.value, params, RoundEdges(subDataByLabel, group1, group2, params, ttest, rng, round).value)
    {
      ShuffledRoundsPermutes(group1 + group2, rng, round);
      Shuffle(allSubjects, rng, round);
      var randomGroup1 := allSubjects[..|group1|];
      var randomGroup2 := allSubjects[|group1|..|group1| + |group2|];
      r := CompareGroups(randomGroup1, randomGroup2, params, ttest);
    }

    /** One pass of the loop at lines 322-335: shuffle, regroup, compare and record. */
    method PermutationRound(result: PermutationResult, allSubjects: array<Subject>, group1: seq<Subject>,
                            group2: seq<Subject>, params: seq<DataParameter>, ttest: TTest,
                            rng: (nat, nat) -> nat, round: nat, ghost rounds: seq<seq<seq<Coord>>>)
      returns (r: Result<(), NbsError>, ghost edges: seq<seq<Coord>>)
      requires Valid()
      requires allSubjects[..] == ShuffledRounds(group1 + group2, rng, round)
      requires result.Valid()
      requires |rounds| == round && EdgesOfRounds(subDataByLabel, group1, group2, params, ttest, rng, rounds)
      requires NullOf(result, rounds, params)
      modifies allSubjects, result
      ensures allSubjects[..] == ShuffledRounds(group1 + group2, rng, round + 1)
      ensures r.Success? <==> RoundEdges(subDataByLabel, group1, group2, params, ttest, rng, round).Success?
      ensures r.Failure? ==> RoundEdges(subDataByLabel, group1, group2, params, ttest, rng, round) == Failure(r.error)
      ensures r.Success? ==> RoundEdges(subDataByLabel, group1, group2, params, ttest, rng, round) == Success(edges)
      ensures r.Success? ==> result.Valid() && result.groupResultsLength == old(result.groupResultsLength) + 1
      ensures r.Success? ==> RoundRecorded(old(result.cmpExtBySeries), old(result.nodeOverlapCounts), old(result.nodeTotals),
                                           result.cmpExtBySeries, result.nodeOverlapCounts, result.nodeTotals, edges, params)
      ensures r.Success? ==>
        && EdgesOfRounds(subDataByLabel, group1, group2, params, ttest, rng, rounds + [edges])
        && NullOf(result, rounds + [edges], params)
    {
      ghost var cmp, counts, totals := result.cmpExtBySeries, result.nodeOverlapCounts, result.nodeTotals;
      var permResult := DrawRound(allSubjects, group1, group2, params, ttest, rng, round);
      if permResult.Failure? {
        return Failure(permResult.error), [];
      }
      edges := RoundEdges(subDataByLabel, group1, group2, params, ttest, rng, round).value;
      RecordRound(result, permResult.value, params, edges);
      EdgesOfRoundsStep(subDataByLabel, group1, group2, params, ttest, rng, rounds, edges);
      NullRecordsStep(cmp, counts, totals, result.cmpExtBySeries, result.nodeOverlapCounts, result.nodeTotals,
                      rounds, edges, params);
      return Success(()), edges;
    }

    /**
     * `getRandomDistribution`: `iterations` rounds of random regrouping. It fails with the first
     * round whose comparison fails; otherwise each label's null distribution, the overlap counts
     * and the node tallies are those of the rounds' graphs, round by round.
     */
    method GetRandomDistribution(group1: seq<Subject>, group2: seq<Subject>, params: seq<DataParameter>,
                                 iterations: nat, ttest: TTest, rng: (nat, nat) -> nat)
      returns (r: Result<PermutationResult, NbsError>, ghost rounds: seq<seq<seq<Coord>>>)
      requires Valid()
      ensures r.Success? <==>
        forall round :: 0 <= round < iterations ==> RoundEdges(subDataByLabel, group1, group2, params, ttest, rng, round).Success?
      ensures r.Failure? ==>
        (exists round :: 0 <= round < iterations
          && RoundEdges(subDataByLabel, group1, group2, params, ttest, rng, round) == Failure(r.error))
      ensures r.Failure? ==>
        && |rounds| < iterations
        && EdgesOfRounds(subDataByLabel, group1, group2, params, ttest, rng, rounds)
        && RoundEdges(subDataByLabel, group1, group2, params, ttest, rng, |rounds|) == Failure(r.error)
      ensures r.Success? ==> fresh(r.value) && r.value.Valid() && r.value.groupResultsLength == iterations
      ensures r.Success? ==>
        && |rounds| == iterations
        && EdgesOfRounds(subDataByLabel, group1, group2, params, ttest, rng, rounds)
        && NullOf(r.value, rounds, params)
    {
      var subjects := group1 + group2;
      var allSubjects := new Subject[|subjects|](i requires 0 <= i < |subjects| => subjects[i]);
      assert allSubjects[..] == subjects;
      var result := new PermutationResult();
      rounds := [];
      var round := 0;
      assert allSubjects[..] == ShuffledRounds(subjects, rng, round);
      while round < iterations
        invariant round <= iterations
        invariant fresh(result) && fresh(allSubjects)
        invariant allSubjects[..] == ShuffledRounds(subjects, rng, round)
        invariant result.Valid() && result.groupResultsLength == round
        invariant |rounds| == round && EdgesOfRounds(subDataByLabel, group1, group2, params, ttest, rng, rounds)
        invariant NullOf(result, rounds, params)
      {
        var step;
        ghost var edges;
        step, edges := PermutationRound(result, allSubjects, group1, group2, params, ttest, rng, round, rounds);
        if step.Failure? {
          return Failure(step.error), rounds;
        }
        assert allSubjects[..] == ShuffledRounds(subjects, rng, round + 1);
        rounds := rounds + [edges];
        round := round + 1;
      }
      return Success(result), rounds;
    }

    /**
     * Lines 346-357 of `compare`, once the data is cached: build the actual groups' graphs,
     * then the permutation distribution and the p-values. The model draws the rounds before it
     * builds the actual graphs: neither step reads what the other builds, and the actual
     * comparison's failure is still the one returned when both fail.
     */
    method CompareCached(group1: seq<Subject>, group2: seq<Subject>, params: seq<DataParameter>,
                         iterations: nat, ttest: TTest, rng: (nat, nat) -> nat)
      returns (r: Result<ComparisonResult, NbsError>, ghost rounds: seq<seq<seq<Coord>>>)
      requires Valid()
      ensures r.Success? <==>
        && EdgesOf(subDataByLabel, group1, group2, params, ttest).Success?
        && forall round :: 0 <= round < iterations ==> RoundEdges(subDataByLabel, group1, group2, params, ttest, rng, round).Success?
      ensures r.Failure? ==>
        || EdgesOf(subDataByLabel, group1, group2, params, ttest) == Failure(r.error)
        || exists round :: 0 <= round < iterations
             && RoundEdges(subDataByLabel, group1, group2, params, ttest, rng, round) == Failure(r.error)
      ensures EdgesOf(subDataByLabel, group1, group2, params, ttest).Failure? ==>
        r == Failure(EdgesOf(subDataByLabel, group1, group2, params, ttest).error)
      ensures r.Failure? && EdgesOf(subDataByLabel, group1, group2, params, ttest).Success? ==>
        && |rounds| < iterations
        && EdgesOfRounds(subDataByLabel, group1, group2, params, ttest, rng, rounds)
        && RoundEdges(subDataByLabel, group1, group2, params, ttest, rng, |rounds|) == Failure(r.error)
      ensures r.Success? ==>
        var pr := r.value.permutationResult;
        && fresh(pr)
        && pr.groupResultsLength == iterations
        && |rounds| == iterations
        && EdgesOfRounds(subDataByLabel, group1, group2, params, ttest, rng, rounds)
        && NullOf(pr, rounds, params)
        && Scored(r.value.actualResult, params, EdgesOf(subDataByLabel, group1, group2, params, ttest).value, pr)
    {
      var permutation;
      permutation, rounds := GetRandomDistribution(group1, group2, params, iterations, ttest, rng);
      var actual := CompareGroups(group1, group2, params, ttest);
      if actual.Failure? {
        return Failure(actual.error), rounds;
      }
      if permutation.Failure? {
        return Failure(permutation.error), rounds;
      }
      var pr := permutation.value;
      ScorePVals(actual.value, pr, params, EdgesOf(subDataByLabel, group1, group2, params, ttest).value);
      return Success(ComparisonResult(actual.value, pr)), rounds;
    }

    /**
     * `compare`: cache the data, then compare the cached groups. A failure to cache is the
     * failure of the whole comparison.
     */
    method Compare(group1: seq<Subject>, group2: seq<Subject>, params: seq<DataParameter>,
                   iterations: nat, ttest: TTest, rng: (nat, nat) -> nat)
      returns (r: Result<ComparisonResult, NbsError>, ghost rounds: seq<seq<seq<Coord>>>)
      requires Valid()
      modifies this
      ensures Valid()
      ensures CacheAll(old(subDataByLabel), group1 + group2, params).Success? ==>
        subDataByLabel == CacheAll(old(subDataByLabel), group1 + group2, params).value
      ensures CacheAll(old(subDataByLabel), group1 + group2, params).Failure? ==>
        r == Failure(CacheFailure(CacheAll(old(subDataByLabel), group1 + group2, params).error))
      ensures r.Success? <==>
        && CacheAll(old(subDataByLabel), group1 + group2, params).Success?
        && EdgesOf(subDataByLabel, group1, group2, params, ttest).Success?
        && forall round :: 0 <= round < iterations ==> RoundEdges(subDataByLabel, group1, group2, params, ttest, rng, round).Success?
      ensures CacheAll(old(subDataByLabel), group1 + group2, params).Success? && EdgesOf(subDataByLabel, group1, group2, params, ttest).Failure? ==>
        r == Failure(EdgesOf(subDataByLabel, group1, group2, params, ttest).error)
      ensures CacheAll(old(subDataByLabel), group1 + group2, params).Success? && r.Failure? && EdgesOf(subDataByLabel, group1, group2, params, ttest).Success? ==>
        && |rounds| < iterations
        && EdgesOfRounds(subDataByLabel, group1, group2, params, ttest, rng, rounds)
        && RoundEdges(subDataByLabel, group1, group2, params, ttest, rng, |rounds|) == Failure(r.error)
      ensures r.Success? ==>
        var pr := r.value.permutationResult;
        && fresh(pr)
        && pr.groupResultsLength == iterations
        && |rounds| == iterations
        && EdgesOfRounds(subDataByLabel, group1, group2, params, ttest, rng, rounds)
        && NullOf(pr, rounds, params)
        && Scored(r.value.actualResult, params, EdgesOf(subDataByLabel, group1, group2, params, ttest).value, pr)
    {
      var cached := CacheData(group1, group2, params);
      if cached.Failure? {
        return Failure(CacheFailure(cached.error)), [];
      }
      r, rounds := CompareCached(group1, group2, params, iterations, ttest, rng);
    }
  }
}
