/**
 * `Graph`: the supra-threshold graph of one data series. `SetCoords` adds edges, appends
 * the graph's components to `components` and keeps the index of the largest one, which
 * (as the Python object reference does) names an entry of `components` itself.
 */
module Graphs {
  import opened Wrappers
  import opened Components

  /** One step of the scan at line 85: a later component wins only if strictly larger. */
  function Better(cur: Option<nat>, cs: seq<Component>, k: nat): Option<nat>
    requires k < |cs|
    requires cur.Some? ==> cur.value < |cs|
  {
    if cur.None? || Size(cs[k]) > Size(cs[cur.value]) then Some(k) else cur
  }

  /** The largest index the scan holds after visiting `cs[lo..hi]`, starting from `cur`. */
  function LargestFrom(cur: Option<nat>, cs: seq<Component>, lo: nat, hi: nat): (r: Option<nat>)
    requires lo <= hi <= |cs|
    requires cur.Some? ==> cur.value < |cs|
    ensures r.Some? ==> r.value < |cs|
    decreases hi
  {
    if hi == lo then cur else Better(LargestFrom(cur, cs, lo, hi - 1), cs, hi - 1)
  }

  /** Scanning in two stretches is scanning once: repeated `setCoords` calls keep one largest. */
  lemma {:induction false} LargestFromSplit(cs: seq<Component>, mid: nat, hi: nat)
    requires mid <= hi <= |cs|
    ensures LargestFrom(LargestFrom(None, cs, 0, mid), cs, mid, hi) == LargestFrom(None, cs, 0, hi)
    decreases hi
  {
    if hi > mid {
      LargestFromSplit(cs, mid, hi - 1);
    }
  }

  /**
   * The scan finds a component exactly when there is one, its size is at least every
   * other's, and on a tie the earliest one is kept (every earlier one is strictly smaller).
   */
  lemma {:induction false} LargestIsFirstMaximum(cs: seq<Component>, hi: nat)
    requires hi <= |cs|
    ensures LargestFrom(None, cs, 0, hi).None? <==> hi == 0
    ensures LargestFrom(None, cs, 0, hi).Some? ==>
      var k := LargestFrom(None, cs, 0, hi).value;
      && k < hi
      && (forall j :: 0 <= j < hi ==> Size(cs[j]) <= Size(cs[k]))
      && (forall j :: 0 <= j < k ==> Size(cs[j]) < Size(cs[k]))
  {
    if hi > 0 {
      LargestIsFirstMaximum(cs, hi - 1);
    }
  }

  /** The scan looks only at sizes, so annotating components does not move the largest. */
  lemma {:induction false} LargestFromSizesOnly(cs: seq<Component>, ds: seq<Component>, hi: nat)
    requires |cs| == |ds| && hi <= |cs|
    requires forall i :: 0 <= i < |cs| ==> Size(cs[i]) == Size(ds[i])
    ensures LargestFrom(None, cs, 0, hi) == LargestFrom(None, ds, 0, hi)
  {
    if hi > 0 {
      LargestFromSizesOnly(cs, ds, hi - 1);
    }
  }

  /** The graph invariant: `big` is the scan's result over `cs`, and no component is empty. */
  ghost predicate Tracked(cs: seq<Component>, big: Option<nat>)
  {
    && big == LargestFrom(None, cs, 0, |cs|)
    && forall i :: 0 <= i < |cs| ==> cs[i].nodes != {}
  }

  lemma ExtendTracked(cs: seq<Component>, big: Option<nat>, sub: seq<Component>)
    requires Tracked(cs, big)
    requires forall i :: 0 <= i < |sub| ==> sub[i].nodes != {}
    ensures Tracked(cs + sub, LargestFrom(big, cs + sub, |cs|, |cs + sub|))
  {
    assert (cs + sub)[..|cs|] == cs;
    LargestFromSplit(cs + sub, |cs|, |cs + sub|);
    PrefixScan(None, cs, cs + sub, 0, |cs|);
    AppendKeepsNodesNonEmpty(cs, sub);
  }

  /**
   * The loop of lines 80-86: append each new component after `base`, replacing the held
   * largest index only by a strictly larger component.
   */
  method AppendScanning(base: seq<Component>, start: Option<nat>, subGraphs: seq<Component>)
    returns (comps: seq<Component>, big: Option<nat>)
    requires start.Some? ==> start.value < |base|
    ensures comps == base + subGraphs
    ensures big == LargestFrom(start, comps, |base|, |comps|)
  {
    comps, big := base, start;
    var i := 0;
    while i < |subGraphs|
      invariant 0 <= i <= |subGraphs|
      invariant comps == base + subGraphs[..i]
      invariant big == LargestFrom(start, comps, |base|, |comps|)
    {
      ScanStep(start, comps, subGraphs[i], |base|);
      assert subGraphs[..i + 1] == subGraphs[..i] + [subGraphs[i]];
      big := Better(big, comps + [subGraphs[i]], |comps|);
      comps := comps + [subGraphs[i]];
      i := i + 1;
    }
    assert subGraphs[..i] == subGraphs;
  }

  class Graph {
    /** The coordinates given to `add_edge` so far (the raw networkx graph). */
    var rawEdges: seq<Coord>
    var components: seq<Component>
    /** Index into `components` of the largest component, if any. */
    var largest: Option<nat>

    ghost predicate Valid()
      reads this
    {
      Tracked(components, largest)
    }

    constructor ()
      ensures Valid()
      ensures rawEdges == [] && components == [] && largest == None
    {
      rawEdges := [];
      components := [];
      largest := None;
    }

    /** `setCoords`: add the edges, append every component of the graph, track the largest. */
    method SetCoords(coords: seq<Coord>)
      requires Valid()
      modifies this
      ensures Valid()
      ensures rawEdges == old(rawEdges) + coords
      ensures components == old(components) + Decompose(rawEdges)
      ensures largest == LargestFrom(old(largest), components, |old(components)|, |components|)
    {
      var edges := rawEdges + coords;
      var subGraphs := Decompose(edges);
      var base, start := components, largest;
      var comps, big := AppendScanning(base, start, subGraphs);
      DecomposeNodesNonEmpty(edges);
      ExtendTracked(base, start, subGraphs);
      rawEdges, components, largest := edges, comps, big;
    }

    /** Line 355: record a p-value on one component; sizes, and so the largest, are unchanged. */
    method SetPVal(i: nat, p: real)
      requires Valid()
      requires i < |components|
      modifies this
      ensures Valid()
      ensures rawEdges == old(rawEdges) && largest == old(largest)
      ensures components == old(components)[i := old(components)[i].(pVal := Some(p))]
    {
      var updated := components[i := components[i].(pVal := Some(p))];
      LargestFromSizesOnly(components, updated, |components|);
      components := updated;
    }

    /** `getComponentCount`: zero exactly when the graph has no largest component. */
    function ComponentCount(): (n: nat)
      reads this
      ensures Valid() ==> (n == 0 <==> largest.None?)
    {
      |components|
    }

    /** The largest component, if the graph has any edge. */
    function Largest(): (r: Option<Component>)
      reads this
      requires Valid()
      ensures r.Some? <==> components != []
      ensures r.Some? ==> r.value in components
    {
      LargestIsFirstMaximum(components, |components|);
      if largest.Some? then Some(components[largest.value]) else None
    }

    /** `getLargestComponentSize`: the largest component's edge count, 0 without components. */
    function LargestComponentSize(): (n: nat)
      reads this
      requires Valid()
      ensures components == [] <==> largest.None?
      ensures components == [] ==> n == 0
    {
      LargestIsFirstMaximum(components, |components|);
      if largest.Some? then Size(components[largest.value]) else 0
    }

    /** The reported size is the maximum component size, attained by some component. */
    lemma LargestComponentSizeIsMaximum()
      requires Valid()
      ensures forall i :: 0 <= i < |components| ==> Size(components[i]) <= LargestComponentSize()
      ensures components != [] ==>
        exists i :: 0 <= i < |components| && Size(components[i]) == LargestComponentSize()
    {
      LargestIsFirstMaximum(components, |components|);
    }
  }

  /** Scanning a stretch of a prefix gives the same result within any extension. */
  lemma {:induction false} PrefixScan(cur: Option<nat>, short: seq<Component>, long: seq<Component>, lo: nat, hi: nat)
    requires lo <= hi <= |short| <= |long|
    requires long[..|short|] == short
    requires cur.Some? ==> cur.value < |short|
    ensures LargestFrom(cur, short, lo, hi) == LargestFrom(cur, long, lo, hi)
    decreases hi
  {
    if hi > lo {
      PrefixScan(cur, short, long, lo, hi - 1);
      assert short[hi - 1] == long[hi - 1];
      var prev := LargestFrom(cur, short, lo, hi - 1);
      if prev.Some? {
        assert short[prev.value] == long[prev.value];
      }
    }
  }

  /** Appending one component advances the scan by one step. */
  lemma ScanStep(cur: Option<nat>, cs: seq<Component>, x: Component, lo: nat)
    requires lo <= |cs|
    requires cur.Some? ==> cur.value < |cs|
    ensures LargestFrom(cur, cs + [x], lo, |cs| + 1) == Better(LargestFrom(cur, cs, lo, |cs|), cs + [x], |cs|)
  {
    assert (cs + [x])[..|cs|] == cs;
    PrefixScan(cur, cs, cs + [x], lo, |cs|);
  }

  lemma AppendKeepsNodesNonEmpty(a: seq<Component>, b: seq<Component>)
    requires forall i :: 0 <= i < |a| ==> a[i].nodes != {}
    requires forall i :: 0 <= i < |b| ==> b[i].nodes != {}
    ensures forall i :: 0 <= i < |a + b| ==> (a + b)[i].nodes != {}
  {
    forall i | 0 <= i < |a + b|
      ensures (a + b)[i].nodes != {}
    {
      if i >= |a| {
        assert (a + b)[i] == b[i - |a|];
      }
    }
  }
}
