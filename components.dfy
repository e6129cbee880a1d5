/**
 * Connected components of an undirected graph given as a list of coordinates
 * (the contract `networkx.connected_component_subgraphs` fulfils for `Graph.setCoords`).
 *
 * A coordinate (i, j) and its mirror (j, i) are the same undirected edge; an edge is
 * stored with its smaller endpoint first. The graph's nodes are exactly the endpoints
 * of its edges, since nodes only ever enter the graph through `add_edge`.
 */
module Components {
  import opened Wrappers

  type Node = nat
  type Coord = (Node, Node)
  type Edge = (Node, Node)

  /** The undirected edge a coordinate stands for. */
  function Norm(c: Coord): (e: Edge)
    ensures e.0 <= e.1
    ensures {e.0, e.1} == {c.0, c.1}
  {
    if c.0 <= c.1 then c else (c.1, c.0)
  }

  /** The edge set of the graph after `add_edge` of every coordinate, duplicates merged. */
  function EdgeSet(coords: seq<Coord>): set<Edge>
  {
    if |coords| == 0 then {} else EdgeSet(coords[..|coords| - 1]) + {Norm(coords[|coords| - 1])}
  }

  /** Every edge of the graph comes from some coordinate, and every coordinate gives one. */
  lemma {:induction false} EdgeSetMembers(coords: seq<Coord>, e: Edge)
    ensures e in EdgeSet(coords) <==> exists k :: 0 <= k < |coords| && Norm(coords[k]) == e
  {
    if |coords| > 0 {
      var init := coords[..|coords| - 1];
      EdgeSetMembers(init, e);
      if e in EdgeSet(init) {
        var k :| 0 <= k < |init| && Norm(init[k]) == e;
        assert coords[k] == init[k];
      }
      if exists k :: 0 <= k < |coords| && Norm(coords[k]) == e {
        var k :| 0 <= k < |coords| && Norm(coords[k]) == e;
        if k < |init| {
          assert init[k] == coords[k];
        }
      }
    }
  }

  /** A coordinate and its mirror give the same edge. */
  lemma MirrorIsSameEdge(i: Node, j: Node)
    ensures Norm((i, j)) == Norm((j, i))
  {
  }

  function Endpoints(es: set<Edge>): set<Node>
  {
    (set e | e in es :: e.0) + (set e | e in es :: e.1)
  }

  /** A connected subgraph; `pVal` is filled in only for the observed (unpermuted) result. */
  datatype Component = Component(nodes: set<Node>, edges: set<Edge>, pVal: Option<real>)

  /** `Component.size`: the number of edges. */
  function Size(c: Component): nat { |c.edges| }

  /** `Component.len`: the number of nodes. */
  function Len(c: Component): nat { |c.nodes| }

  predicate Crosses(e: Edge, s: set<Node>)
  {
    (e.0 in s) != (e.1 in s)
  }

  /** No cut of the node set is free of edges: every proper, non-empty part is left by an edge. */
  ghost predicate Connected(c: Component)
  {
    forall s: set<Node> :: s <= c.nodes && s != {} && s != c.nodes ==>
      exists e :: e in c.edges && Crosses(e, s)
  }

  /** What every component found in a graph satisfies. */
  ghost predicate WellFormed(c: Component)
  {
    && c.nodes == Endpoints(c.edges)
    && c.edges != {}
    && c.pVal == None
    && Connected(c)
  }

  function UnionNodes(cs: seq<Component>): set<Node>
  {
    if cs == [] then {} else cs[0].nodes + UnionNodes(cs[1..])
  }

  function UnionEdges(cs: seq<Component>): set<Edge>
  {
    if cs == [] then {} else cs[0].edges + UnionEdges(cs[1..])
  }

  /** Sum of `Component.size` over a list of components. */
  function SumSizes(cs: seq<Component>): nat
  {
    if cs == [] then 0 else Size(cs[0]) + SumSizes(cs[1..])
  }

  /** Well-formed components, each node-disjoint from all that follow it. */
  ghost predicate Partitioned(cs: seq<Component>)
  {
    cs == [] ||
    (WellFormed(cs[0]) && cs[0].nodes !! UnionNodes(cs[1..]) && Partitioned(cs[1..]))
  }

  // ---------------------------------------------------------------------------
  // Decomposition: each coordinate merges the components holding its endpoints.
  // ---------------------------------------------------------------------------

  /** The one-node component a node forms before any edge touches it. */
  function Lone(x: Node): Component
  {
    Component({x}, {}, None)
  }

  /** Removes the component holding `x` (or yields `Lone(x)` if none does). */
  function Extract(cs: seq<Component>, x: Node): (Component, seq<Component>)
  {
    if cs == [] then (Lone(x), [])
    else if x in cs[0].nodes then (cs[0], cs[1..])
    else
      var (c, rest) := Extract(cs[1..], x);
      (c, [cs[0]] + rest)
  }

  function Join(cu: Component, cv: Component, e: Edge): Component
  {
    Component(cu.nodes + cv.nodes, cu.edges + cv.edges + {e}, None)
  }

  /** Adds one undirected edge to a list of components. */
  function Insert(cs: seq<Component>, e: Edge): seq<Component>
  {
    var (cu, rest) := Extract(cs, e.0);
    var (cv, rest2) := Extract(rest, e.1);
    [Join(cu, cv, e)] + rest2
  }

  /** The connected components of the graph built from `coords`. */
  function Decompose(coords: seq<Coord>): seq<Component>
  {
    if |coords| == 0 then []
    else Insert(Decompose(coords[..|coords| - 1]), Norm(coords[|coords| - 1]))
  }

  // ---------------------------------------------------------------------------
  // Proof of the partition invariant.
  // ---------------------------------------------------------------------------

  /** A component in the making: holds `x`, is connected, and its nodes are `x` and its edges' endpoints. */
  ghost predicate Rooted(c: Component, x: Node)
  {
    && x in c.nodes
    && Connected(c)
    && Endpoints(c.edges) <= c.nodes
    && c.nodes <= Endpoints(c.edges) + {x}
  }

  lemma LoneIsRooted(x: Node)
    ensures Rooted(Lone(x), x)
  {
    forall s: set<Node> | s <= {x} && s != {}
      ensures s == {x}
    {
      var y :| y in s;
    }
  }

  lemma EndpointsUnion(a: set<Edge>, b: set<Edge>)
    ensures Endpoints(a + b) == Endpoints(a) + Endpoints(b)
  {
  }

  lemma EndpointsSingle(e: Edge)
    ensures Endpoints({e}) == {e.0, e.1}
  {
  }

  /** An edge that crosses a cut of part of the nodes crosses the same cut of all of them. */
  lemma CrossesPart(f: Edge, part: set<Node>, s: set<Node>)
    requires f.0 in part && f.1 in part
    requires Crosses(f, s * part)
    ensures Crosses(f, s)
  {
  }

  lemma {:induction false} JoinConnected(cu: Component, cv: Component, e: Edge)
    requires Rooted(cu, e.0) && Rooted(cv, e.1)
    ensures Connected(Join(cu, cv, e))
  {
    var j := Join(cu, cv, e);
    forall s: set<Node> | s <= j.nodes && s != {} && s != j.nodes
      ensures exists f :: f in j.edges && Crosses(f, s)
    {
      var s1 := s * cu.nodes;
      var s2 := s * cv.nodes;
      if s1 != {} && s1 != cu.nodes {
        assert s1 <= cu.nodes;
        var f :| f in cu.edges && Crosses(f, s1);
        assert f.0 in Endpoints(cu.edges) && f.1 in Endpoints(cu.edges);
        CrossesPart(f, cu.nodes, s);
        assert f in j.edges;
      } else if s2 != {} && s2 != cv.nodes {
        assert s2 <= cv.nodes;
        var f :| f in cv.edges && Crosses(f, s2);
        assert f.0 in Endpoints(cv.edges) && f.1 in Endpoints(cv.edges);
        CrossesPart(f, cv.nodes, s);
        assert f in j.edges;
      } else {
        assert s == s1 + s2;
        assert e in j.edges && Crosses(e, s);
      }
    }
  }

  lemma {:induction false} JoinWellFormed(cu: Component, cv: Component, e: Edge)
    requires Rooted(cu, e.0) && Rooted(cv, e.1)
    ensures WellFormed(Join(cu, cv, e))
  {
    var j := Join(cu, cv, e);
    EndpointsUnion(cu.edges + cv.edges, {e});
    EndpointsUnion(cu.edges, cv.edges);
    EndpointsSingle(e);
    assert j.nodes == Endpoints(j.edges);
    JoinConnected(cu, cv, e);
  }

  lemma {:induction false} UnionNodesOfEdges(cs: seq<Component>)
    requires Partitioned(cs)
    ensures Endpoints(UnionEdges(cs)) == UnionNodes(cs)
  {
    if cs != [] {
      UnionNodesOfEdges(cs[1..]);
      EndpointsUnion(cs[0].edges, UnionEdges(cs[1..]));
    }
  }

  lemma {:induction false} ExtractProps(cs: seq<Component>, x: Node)
    requires Partitioned(cs)
    ensures var (c, rest) := Extract(cs, x);
      && Rooted(c, x)
      && Partitioned(rest)
      && x !in UnionNodes(rest)
      && c.nodes !! UnionNodes(rest)
      && UnionNodes(cs) + {x} == c.nodes + UnionNodes(rest)
      && UnionNodes(rest) <= UnionNodes(cs)
      && UnionEdges(cs) == c.edges + UnionEdges(rest)
  {
    if cs == [] {
      LoneIsRooted(x);
    } else if x in cs[0].nodes {
      var c := cs[0];
      assert Connected(c);
      assert Endpoints(c.edges) == c.nodes;
    } else {
      ExtractProps(cs[1..], x);
      var (c, rest) := Extract(cs[1..], x);
      assert Extract(cs, x) == (c, [cs[0]] + rest);
      var r := [cs[0]] + rest;
      assert r[0] == cs[0] && r[1..] == rest;
    }
  }

  lemma {:induction false} InsertProps(cs: seq<Component>, e: Edge)
    requires Partitioned(cs)
    ensures Partitioned(Insert(cs, e))
    ensures UnionEdges(Insert(cs, e)) == UnionEdges(cs) + {e}
  {
    var (cu, rest) := Extract(cs, e.0);
    ExtractProps(cs, e.0);
    var (cv, rest2) := Extract(rest, e.1);
    ExtractProps(rest, e.1);
    JoinWellFormed(cu, cv, e);
    var r := [Join(cu, cv, e)] + rest2;
    assert r[1..] == rest2;
    assert Insert(cs, e) == r;
  }

  /** The components of a graph partition its edges, and each one is connected. */
  lemma {:induction false} DecomposePartitions(coords: seq<Coord>)
    ensures Partitioned(Decompose(coords))
    ensures UnionEdges(Decompose(coords)) == EdgeSet(coords)
  {
    if |coords| > 0 {
      DecomposePartitions(coords[..|coords| - 1]);
      InsertProps(Decompose(coords[..|coords| - 1]), Norm(coords[|coords| - 1]));
    }
  }

  // ---------------------------------------------------------------------------
  // What the decomposition promises, stated per component.
  // ---------------------------------------------------------------------------

  lemma {:induction false} InUnionNodes(cs: seq<Component>, x: Node)
    ensures x in UnionNodes(cs) <==> exists i :: 0 <= i < |cs| && x in cs[i].nodes
  {
    if cs != [] {
      InUnionNodes(cs[1..], x);
      if exists i :: 0 <= i < |cs| && x in cs[i].nodes {
        var i :| 0 <= i < |cs| && x in cs[i].nodes;
        if i > 0 {
          assert cs[1..][i - 1] == cs[i];
        }
      }
    }
  }

  lemma {:induction false} InUnionEdges(cs: seq<Component>, e: Edge)
    ensures e in UnionEdges(cs) <==> exists i :: 0 <= i < |cs| && e in cs[i].edges
  {
    if cs != [] {
      InUnionEdges(cs[1..], e);
      if exists i :: 0 <= i < |cs| && e in cs[i].edges {
        var i :| 0 <= i < |cs| && e in cs[i].edges;
        if i > 0 {
          assert cs[1..][i - 1] == cs[i];
        }
      }
    }
  }

  lemma {:induction false} PartitionedIndexed(cs: seq<Component>)
    requires Partitioned(cs)
    ensures forall i :: 0 <= i < |cs| ==> WellFormed(cs[i])
    ensures forall i, j :: 0 <= i < j < |cs| ==> cs[i].nodes !! cs[j].nodes
  {
    if cs != [] {
      var tail := cs[1..];
      PartitionedIndexed(tail);
      forall i | 0 < i < |cs|
        ensures WellFormed(cs[i]) && cs[0].nodes !! cs[i].nodes
      {
        assert cs[i] == tail[i - 1];
        forall x | x in cs[i].nodes
          ensures x in UnionNodes(tail)
        {
          InUnionNodes(tail, x);
        }
      }
      forall i, j | 0 < i < j < |cs|
        ensures cs[i].nodes !! cs[j].nodes
      {
        assert cs[i] == tail[i - 1] && cs[j] == tail[j - 1];
      }
    }
  }

  lemma {:induction false} SumSizesPartitioned(cs: seq<Component>)
    requires Partitioned(cs)
    ensures SumSizes(cs) == |UnionEdges(cs)|
  {
    if cs != [] {
      var tail := cs[1..];
      SumSizesPartitioned(tail);
      UnionNodesOfEdges(tail);
      forall f | f in cs[0].edges
        ensures f !in UnionEdges(tail)
      {
        assert f.0 in Endpoints(cs[0].edges);
        assert f.0 !in UnionNodes(tail);
        assert f.0 !in Endpoints(UnionEdges(tail));
      }
    }
  }

  /** `setCoords` yields well-formed (connected, non-empty) components that share no node. */
  lemma ComponentsConnectedAndDisjoint(coords: seq<Coord>)
    ensures forall i :: 0 <= i < |Decompose(coords)| ==> WellFormed(Decompose(coords)[i])
    ensures forall i, j :: 0 <= i < j < |Decompose(coords)| ==>
      Decompose(coords)[i].nodes !! Decompose(coords)[j].nodes
  {
    DecomposePartitions(coords);
    PartitionedIndexed(Decompose(coords));
  }

  /** Every edge of the graph, (i, j) and (j, i) counted once, lies in exactly one component. */
  lemma EdgeInExactlyOneComponent(coords: seq<Coord>, e: Edge)
    requires e in EdgeSet(coords)
    ensures exists i :: 0 <= i < |Decompose(coords)| && e in Decompose(coords)[i].edges
    ensures forall i, j ::
      (0 <= i < |Decompose(coords)| && 0 <= j < |Decompose(coords)| &&
       e in Decompose(coords)[i].edges && e in Decompose(coords)[j].edges) ==> i == j
  {
    var cs := Decompose(coords);
    DecomposePartitions(coords);
    PartitionedIndexed(cs);
    InUnionEdges(cs, e);
    forall i, j | 0 <= i < |cs| && 0 <= j < |cs| && e in cs[i].edges && e in cs[j].edges
      ensures i == j
    {
      assert e.0 in Endpoints(cs[i].edges) && e.0 in Endpoints(cs[j].edges);
    }
  }

  /** Components are maximal: no edge of the graph leaves the component holding one of its ends. */
  lemma ComponentsAreMaximal(coords: seq<Coord>, e: Edge, i: nat)
    requires e in EdgeSet(coords)
    requires i < |Decompose(coords)|
    ensures e.0 in Decompose(coords)[i].nodes <==> e.1 in Decompose(coords)[i].nodes
  {
    var cs := Decompose(coords);
    DecomposePartitions(coords);
    PartitionedIndexed(cs);
    EdgeInExactlyOneComponent(coords, e);
    var k :| 0 <= k < |cs| && e in cs[k].edges;
    assert e.0 in Endpoints(cs[k].edges) && e.1 in Endpoints(cs[k].edges);
    assert i != k ==> cs[i].nodes !! cs[k].nodes;
  }

  /** The components cover exactly the graph's nodes. */
  lemma ComponentsCoverNodes(coords: seq<Coord>)
    ensures UnionNodes(Decompose(coords)) == Endpoints(EdgeSet(coords))
  {
    DecomposePartitions(coords);
    UnionNodesOfEdges(Decompose(coords));
  }

  /** Component sizes (edge counts) add up to the number of distinct edges. */
  lemma ComponentSizesSumToEdgeCount(coords: seq<Coord>)
    ensures SumSizes(Decompose(coords)) == |EdgeSet(coords)|
  {
    DecomposePartitions(coords);
    SumSizesPartitioned(Decompose(coords));
  }

  /** A graph has no components exactly when no coordinate was added. */
  lemma NoComponentsIffNoCoords(coords: seq<Coord>)
    ensures |Decompose(coords)| == 0 <==> |coords| == 0
  {
  }

  /** Every component has at least one node. */
  lemma DecomposeNodesNonEmpty(coords: seq<Coord>)
    ensures forall k :: 0 <= k < |Decompose(coords)| ==> Decompose(coords)[k].nodes != {}
  {
    var cs := Decompose(coords);
    ComponentsConnectedAndDisjoint(coords);
    forall k | 0 <= k < |cs|
      ensures cs[k].nodes != {}
    {
      var e :| e in cs[k].edges;
      assert e.0 in Endpoints(cs[k].edges);
    }
  }

  lemma {:induction false} EndpointsBound(es: set<Edge>)
    ensures |Endpoints(es)| <= 2 * |es|
    decreases |es|
  {
    if es != {} {
      var e :| e in es;
      var rest := es - {e};
      EndpointsBound(rest);
      EndpointsUnion(rest, {e});
      EndpointsSingle(e);
      assert es == rest + {e};
      assert |{e.0, e.1}| <= 2;
    }
  }

  /**
   * `size` and `len` of a component found in a graph: it has at least one edge and one
   * node, and at most two nodes per edge.
   */
  lemma ComponentExtents(c: Component)
    requires WellFormed(c)
    ensures 1 <= Size(c)
    ensures 1 <= Len(c) <= 2 * Size(c)
  {
    EndpointsBound(c.edges);
    var e :| e in c.edges;
    assert e.0 in c.nodes;
  }
}
