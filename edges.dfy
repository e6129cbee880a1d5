/**
 * The edge selection of `compareGroups` (lines 293-304): the flat t-statistics of one label
 * are read as a `totalNodes` x `totalNodes` matrix, and every cell whose absolute value is
 * strictly above the threshold becomes an edge (row, column), listed in row-major order.
 */
module EdgeSelection {
  import opened Components

  /** One entry of a t-test result; a test over constant data yields NaN. */
  datatype TStat = Value(t: real) | NotANumber

  function Abs(x: real): real
  {
    if x < 0.0 then -x else x
  }

  /** `np.abs(t) > threshold`; a comparison with NaN is false. */
  predicate Above(s: TStat, threshold: real)
  {
    s.Value? && Abs(s.t) > threshold
  }

  /** The cell (i, j) of the matrix lies inside the flat list. */
  lemma CellInRange(n: nat, i: nat, j: nat)
    requires i < n && j < n
    ensures i * n + j < n * n
  {
    assert i * n <= (n - 1) * n;
  }

  /** Columns `j` .. n-1 of row `i` that are above the threshold. */
  function RowCoords(t: seq<TStat>, n: nat, threshold: real, i: nat, j: nat): seq<Coord>
    requires |t| == n * n && i < n && j <= n
    decreases n - j
  {
    if j == n then []
    else
      CellInRange(n, i, j);
      (if Above(t[i * n + j], threshold) then [(i, j)] else []) + RowCoords(t, n, threshold, i, j + 1)
  }

  /** Rows `i` .. n-1. */
  function MatrixCoords(t: seq<TStat>, n: nat, threshold: real, i: nat): seq<Coord>
    requires |t| == n * n && i <= n
    decreases n - i
  {
    if i == n then [] else RowCoords(t, n, threshold, i, 0) + MatrixCoords(t, n, threshold, i + 1)
  }

  /** `zip(*np.where(abs(reshape(t, (n, n))) > threshold))`. */
  function SupraThresholdCoords(t: seq<TStat>, n: nat, threshold: real): seq<Coord>
    requires |t| == n * n
  {
    MatrixCoords(t, n, threshold, 0)
  }

  /** Row-major order: strictly increasing by row, then by column. */
  predicate Before(a: Coord, b: Coord)
  {
    a.0 < b.0 || (a.0 == b.0 && a.1 < b.1)
  }

  ghost predicate RowMajor(cs: seq<Coord>)
  {
    forall k, l :: 0 <= k < l < |cs| ==> Before(cs[k], cs[l])
  }

  lemma {:induction false} RowCoordsMembers(t: seq<TStat>, n: nat, threshold: real, i: nat, j: nat)
    requires |t| == n * n && i < n && j <= n
    ensures forall c :: c in RowCoords(t, n, threshold, i, j) <==>
      c.0 == i && j <= c.1 < n && c.0 * n + c.1 < n * n && Above(t[c.0 * n + c.1], threshold)
    ensures RowMajor(RowCoords(t, n, threshold, i, j))
    decreases n - j
  {
    if j < n {
      CellInRange(n, i, j);
      RowCoordsMembers(t, n, threshold, i, j + 1);
      forall c: Coord | c.0 == i && j < c.1 < n
        ensures c.0 * n + c.1 < n * n
      {
        CellInRange(n, c.0, c.1);
      }
    }
  }

  lemma {:induction false} MatrixCoordsMembers(t: seq<TStat>, n: nat, threshold: real, i: nat)
    requires |t| == n * n && i <= n
    ensures forall c :: c in MatrixCoords(t, n, threshold, i) <==>
      i <= c.0 < n && c.1 < n && c.0 * n + c.1 < n * n && Above(t[c.0 * n + c.1], threshold)
    ensures RowMajor(MatrixCoords(t, n, threshold, i))
    ensures forall c :: c in MatrixCoords(t, n, threshold, i) ==> i <= c.0
    decreases n - i
  {
    if i < n {
      RowCoordsMembers(t, n, threshold, i, 0);
      MatrixCoordsMembers(t, n, threshold, i + 1);
      var row := RowCoords(t, n, threshold, i, 0);
      var rest := MatrixCoords(t, n, threshold, i + 1);
      forall k, l | 0 <= k < l < |row + rest|
        ensures Before((row + rest)[k], (row + rest)[l])
      {
        if l >= |row| && k < |row| {
          assert row[k] in row && rest[l - |row|] in rest;
        }
      }
      forall c: Coord | i <= c.0 < n && c.1 < n
        ensures c.0 * n + c.1 < n * n
      {
        CellInRange(n, c.0, c.1);
      }
    }
  }

  /**
   * An edge (i, j) is selected exactly when both ends are nodes of the matrix and the cell's
   * absolute t-statistic is strictly above the threshold; the edges come in row-major order.
   */
  lemma SupraThresholdCoordsMembers(t: seq<TStat>, n: nat, threshold: real)
    requires |t| == n * n
    ensures forall c :: c in SupraThresholdCoords(t, n, threshold) <==>
      c.0 < n && c.1 < n && c.0 * n + c.1 < n * n && Above(t[c.0 * n + c.1], threshold)
    ensures RowMajor(SupraThresholdCoords(t, n, threshold))
  {
    MatrixCoordsMembers(t, n, threshold, 0);
  }

  /** No cell above the threshold: no edge, hence no component. */
  lemma NothingAboveGivesNoComponents(t: seq<TStat>, n: nat, threshold: real)
    requires |t| == n * n
    requires forall k :: 0 <= k < |t| ==> !Above(t[k], threshold)
    ensures SupraThresholdCoords(t, n, threshold) == []
    ensures Decompose(SupraThresholdCoords(t, n, threshold)) == []
  {
    NothingAboveMatrix(t, n, threshold, 0);
  }

  lemma {:induction false} NothingAboveRow(t: seq<TStat>, n: nat, threshold: real, i: nat, j: nat)
    requires |t| == n * n && i < n && j <= n
    requires forall k :: 0 <= k < |t| ==> !Above(t[k], threshold)
    ensures RowCoords(t, n, threshold, i, j) == []
    decreases n - j
  {
    if j < n {
      CellInRange(n, i, j);
      NothingAboveRow(t, n, threshold, i, j + 1);
    }
  }

  lemma {:induction false} NothingAboveMatrix(t: seq<TStat>, n: nat, threshold: real, i: nat)
    requires |t| == n * n && i <= n
    requires forall k :: 0 <= k < |t| ==> !Above(t[k], threshold)
    ensures MatrixCoords(t, n, threshold, i) == []
    decreases n - i
  {
    if i < n {
      NothingAboveRow(t, n, threshold, i, 0);
      NothingAboveMatrix(t, n, threshold, i + 1);
    }
  }

  /** A higher threshold selects a subset of the edges. */
  lemma ThresholdMonotone(t: seq<TStat>, n: nat, lo: real, hi: real)
    requires |t| == n * n
    requires lo <= hi
    ensures forall c :: c in SupraThresholdCoords(t, n, hi) ==> c in SupraThresholdCoords(t, n, lo)
  {
    SupraThresholdCoordsMembers(t, n, lo);
    SupraThresholdCoordsMembers(t, n, hi);
  }

  /** The t-statistics with the groups swapped: every value negated, NaN kept. */
  function Negated(t: seq<TStat>): (r: seq<TStat>)
    ensures |r| == |t|
    ensures forall k :: 0 <= k < |t| ==> r[k] == if t[k].Value? then Value(-t[k].t) else NotANumber
  {
    seq(|t|, k requires 0 <= k < |t| => if t[k].Value? then Value(-t[k].t) else NotANumber)
  }

  /** The absolute value makes the selection independent of which group comes first. */
  lemma SwappedGroupsSameEdges(t: seq<TStat>, n: nat, threshold: real)
    requires |t| == n * n
    ensures SupraThresholdCoords(Negated(t), n, threshold) == SupraThresholdCoords(t, n, threshold)
  {
    SwappedMatrix(t, n, threshold, 0);
  }

  lemma {:induction false} SwappedRow(t: seq<TStat>, n: nat, threshold: real, i: nat, j: nat)
    requires |t| == n * n && i < n && j <= n
    ensures RowCoords(Negated(t), n, threshold, i, j) == RowCoords(t, n, threshold, i, j)
    decreases n - j
  {
    if j < n {
      CellInRange(n, i, j);
      SwappedRow(t, n, threshold, i, j + 1);
    }
  }

  lemma {:induction false} SwappedMatrix(t: seq<TStat>, n: nat, threshold: real, i: nat)
    requires |t| == n * n && i <= n
    ensures MatrixCoords(Negated(t), n, threshold, i) == MatrixCoords(t, n, threshold, i)
    decreases n - i
  {
    if i < n {
      SwappedRow(t, n, threshold, i, 0);
      SwappedMatrix(t, n, threshold, i + 1);
    }
  }
}
