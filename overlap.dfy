/**
 * Node overlap of the largest components across the data series of one group
 * comparison (`Graph.getNodeOverlapStrict`). Each series is given by its largest
 * component's node set, or `None` when its graph has no component.
 *
 * The first series' nodes form the base; each later series contributes those of its
 * nodes that are in the base. This is not an intersection over all series: a node
 * present in several later series is contributed once per series. The result is kept
 * as a multiset because all later uses (its length and per-node tallies) ignore order.
 */
module Overlap {
  import opened Wrappers
  import opened Components

  /** The loop of `getNodeOverlapStrict`, continued from base `base` and overlap `acc`. */
  function OverlapFrom(series: seq<Option<set<Node>>>, base: set<Node>, acc: multiset<Node>): multiset<Node>
  {
    if series == [] then acc
    else if series[0].None? then multiset{}
    else if base == {} then OverlapFrom(series[1..], series[0].value, acc)
    else OverlapFrom(series[1..], base, acc + multiset(series[0].value * base))
  }

  /** `getNodeOverlapStrict`. */
  function StrictOverlap(series: seq<Option<set<Node>>>): multiset<Node>
  {
    OverlapFrom(series, {}, multiset{})
  }

  predicate AllPresent(series: seq<Option<set<Node>>>)
  {
    forall k :: 0 <= k < |series| ==> series[k].Some?
  }

  /** Reference definition: the sum over later series of (their nodes ∩ base), duplicates kept. */
  function AgainstBase(later: seq<Option<set<Node>>>, base: set<Node>): multiset<Node>
    requires AllPresent(later)
  {
    if later == [] then multiset{} else multiset(later[0].value * base) + AgainstBase(later[1..], base)
  }

  /** Σ |nodes ∩ base| over the later series. */
  function SumShared(later: seq<Option<set<Node>>>, base: set<Node>): nat
    requires AllPresent(later)
  {
    if later == [] then 0 else |later[0].value * base| + SumShared(later[1..], base)
  }

  /** How many later series hold `x`, when `x` is in the base. */
  function Occurrences(later: seq<Option<set<Node>>>, base: set<Node>, x: Node): nat
    requires AllPresent(later)
  {
    if later == [] then 0
    else (if x in later[0].value && x in base then 1 else 0) + Occurrences(later[1..], base, x)
  }

  lemma {:induction false} MissingFrom(series: seq<Option<set<Node>>>, k: nat, base: set<Node>, acc: multiset<Node>)
    requires k < |series| && series[k].None?
    ensures OverlapFrom(series, base, acc) == multiset{}
  {
    if series[0].Some? {
      var base' := if base == {} then series[0].value else base;
      var acc' := if base == {} then acc else acc + multiset(series[0].value * base);
      MissingFrom(series[1..], k - 1, base', acc');
    }
  }

  /** A series without a largest component empties the overlap, wherever it stands. */
  lemma MissingSeriesEmptiesOverlap(series: seq<Option<set<Node>>>, k: nat)
    requires k < |series| && series[k].None?
    ensures StrictOverlap(series) == multiset{}
  {
    MissingFrom(series, k, {}, multiset{});
  }

  /** With one series (or none) there is nothing to compare the base with. */
  lemma SingleSeriesHasNoOverlap(series: seq<Option<set<Node>>>)
    requires |series| <= 1
    ensures StrictOverlap(series) == multiset{}
  {
    if |series| == 1 && series[0].Some? {
      assert series[1..] == [];
      assert StrictOverlap(series) == OverlapFrom([], series[0].value, multiset{});
    }
  }

  lemma {:induction false} OverlapFromAgainstBase(later: seq<Option<set<Node>>>, base: set<Node>, acc: multiset<Node>)
    requires AllPresent(later) && base != {}
    ensures OverlapFrom(later, base, acc) == acc + AgainstBase(later, base)
  {
    if later != [] {
      OverlapFromAgainstBase(later[1..], base, acc + multiset(later[0].value * base));
    }
  }

  /** Once the first series has nodes, the overlap is exactly the reference definition. */
  lemma OverlapIsAgainstBase(series: seq<Option<set<Node>>>)
    requires |series| >= 1 && AllPresent(series) && series[0].value != {}
    ensures StrictOverlap(series) == AgainstBase(series[1..], series[0].value)
  {
    OverlapFromAgainstBase(series[1..], series[0].value, multiset{});
  }

  lemma {:induction false} AgainstBaseProps(later: seq<Option<set<Node>>>, base: set<Node>)
    requires AllPresent(later)
    ensures forall x :: x in AgainstBase(later, base) ==> x in base
    ensures |AgainstBase(later, base)| == SumShared(later, base)
    ensures forall x :: AgainstBase(later, base)[x] == Occurrences(later, base, x)
  {
    if later != [] {
      AgainstBaseProps(later[1..], base);
    }
  }

  lemma {:induction false} OccurrencesBound(later: seq<Option<set<Node>>>, base: set<Node>, x: Node)
    requires AllPresent(later)
    ensures Occurrences(later, base, x) <= |later|
  {
    if later != [] {
      OccurrencesBound(later[1..], base, x);
    }
  }

  /**
   * Every overlapping node is in the first series' largest component; the overlap's
   * length is Σ |later nodes ∩ base|; a node occurs once per later series that holds it.
   */
  lemma OverlapProperties(series: seq<Option<set<Node>>>)
    requires |series| >= 1 && AllPresent(series) && series[0].value != {}
    ensures forall x :: x in StrictOverlap(series) ==> x in series[0].value
    ensures |StrictOverlap(series)| == SumShared(series[1..], series[0].value)
    ensures forall x :: StrictOverlap(series)[x] == Occurrences(series[1..], series[0].value, x)
    ensures forall x :: StrictOverlap(series)[x] <= |series| - 1
  {
    OverlapIsAgainstBase(series);
    AgainstBaseProps(series[1..], series[0].value);
    forall x
      ensures Occurrences(series[1..], series[0].value, x) <= |series| - 1
    {
      OccurrencesBound(series[1..], series[0].value, x);
    }
  }

  /** With exactly two series the overlap is a true intersection, each node once. */
  lemma TwoSeriesOverlapIsIntersection(a: set<Node>, b: set<Node>)
    requires a != {}
    ensures StrictOverlap([Some(a), Some(b)]) == multiset(b * a)
  {
    OverlapIsAgainstBase([Some(a), Some(b)]);
    assert [Some(a), Some(b)][1..] == [Some(b)];
    assert [Some(b)][1..] == [];
  }

  /** With three series a node shared by all is counted twice: not an intersection. */
  lemma ThreeSeriesCountTwice()
    ensures StrictOverlap([Some({0, 1}), Some({0, 1}), Some({0, 1})])[0] == 2
  {
    var s: seq<Option<set<Node>>> := [Some({0, 1}), Some({0, 1}), Some({0, 1})];
    OverlapProperties(s);
    assert s[1..][1..] == [Some({0, 1})];
  }
}
