/**
 * The weld joints a voxel compound creates between adjacent occupied cells,
 * as a function of the occupancy grid, and what that list is.
 *
 * A grid g is indexed g[x][y] with y = 0 the bottom row. The voxel's vertex
 * numbering is not part of this model; the weld pairs only fit the
 * numbering 0 (top left), 1 (top right), 2 (bottom right) and 3 (bottom
 * left), under which each pair joins two corners of the shared edge.
 */
module Welds {

  /** A vertex body: vertex `vertex` of the voxel in cell (x, y). */
  datatype Corner = Corner(x: nat, y: nat, vertex: nat)

  /** A weld joint between two vertex bodies, in the order they were joined. */
  datatype Joint = Joint(body1: Corner, body2: Corner)

  /** A cell with coordinates (x, y). */
  datatype Cell = Cell(x: nat, y: nat)

  /** Every column has the same height. */
  ghost predicate Rectangular(g: seq<seq<bool>>) {
    forall i, j :: 0 <= i < |g| && 0 <= j < |g| ==> |g[i]| == |g[j]|
  }

  /** Cell (x, y) comes before cell (m, n) in the construction's traversal: columns left to right, each bottom to top. */
  predicate Before(x: nat, y: nat, m: nat, n: nat) {
    x < m || (x == m && y < n)
  }

  /** The two joints welding the voxel of cell (x, y) to its left neighbour. */
  function LeftWeld(x: nat, y: nat): seq<Joint>
    requires x > 0
  {
    [Joint(Corner(x, y, 0), Corner(x - 1, y, 1)), Joint(Corner(x, y, 3), Corner(x - 1, y, 2))]
  }

  /** The two joints welding the voxel of cell (x, y) to its neighbour below. */
  function BelowWeld(x: nat, y: nat): seq<Joint>
    requires y > 0
  {
    [Joint(Corner(x, y, 3), Corner(x, y - 1, 0)), Joint(Corner(x, y, 2), Corner(x, y - 1, 1))]
  }

  /** The joints created when the voxel of cell (x, y) is placed. */
  function CellJoints(g: seq<seq<bool>>, x: nat, y: nat): seq<Joint>
    requires Rectangular(g) && x < |g| && y < |g[x]|
  {
    if !g[x][y] then []
    else
      (if x > 0 && g[x - 1][y] then LeftWeld(x, y) else [])
      + (if y > 0 && g[x][y - 1] then BelowWeld(x, y) else [])
  }

  ghost predicate InRange(g: seq<seq<bool>>, m: nat, n: nat) {
    m <= |g| && (m < |g| ==> n <= |g[m]|) && (m == |g| ==> n == 0)
  }

  /** The joints created while placing the cells before (m, n). */
  function JointsUpTo(g: seq<seq<bool>>, m: nat, n: nat): seq<Joint>
    requires Rectangular(g) && InRange(g, m, n)
    decreases m, n
  {
    if n > 0 then JointsUpTo(g, m, n - 1) + CellJoints(g, m, n - 1)
    else if m > 0 then JointsUpTo(g, m - 1, |g[m - 1]|)
    else []
  }

  /** All the joints of a compound built on g. */
  function Joints(g: seq<seq<bool>>): seq<Joint>
    requires Rectangular(g)
  {
    JointsUpTo(g, |g|, 0)
  }

  /**
   * j welds two adjacent occupied cells at their shared edge: the right voxel's
   * vertex 0 to the left one's 1 and 3 to 2, or the upper voxel's vertex 3 to
   * the lower one's 0 and 2 to 1.
   */
  ghost predicate IsWeld(g: seq<seq<bool>>, j: Joint)
    requires Rectangular(g)
  {
    var a, b := j.body1, j.body2;
    && a.x < |g| && a.y < |g[a.x]| && g[a.x][a.y]
    && ( (a.x > 0 && b.x == a.x - 1 && b.y == a.y && g[b.x][b.y]
          && ((a.vertex == 0 && b.vertex == 1) || (a.vertex == 3 && b.vertex == 2)))
      || (a.y > 0 && b.x == a.x && b.y == a.y - 1 && g[b.x][b.y]
          && ((a.vertex == 3 && b.vertex == 0) || (a.vertex == 2 && b.vertex == 1))))
  }

  ghost predicate Distinct<T>(s: seq<T>) {
    forall i, j :: 0 <= i < j < |s| ==> s[i] != s[j]
  }

  /** Occupied cells whose left neighbour is occupied too, one per horizontally adjacent pair. */
  ghost function HorizontalPairs(g: seq<seq<bool>>): set<Cell>
    requires Rectangular(g)
  {
    set x, y | 0 < x < |g| && 0 <= y < |g[x]| && g[x][y] && g[x - 1][y] :: Cell(x, y)
  }

  /** Occupied cells whose lower neighbour is occupied too, one per vertically adjacent pair. */
  ghost function VerticalPairs(g: seq<seq<bool>>): set<Cell>
    requires Rectangular(g)
  {
    set x, y | 0 <= x < |g| && 0 < y < |g[x]| && g[x][y] && g[x][y - 1] :: Cell(x, y)
  }

  ghost function HorizontalBefore(g: seq<seq<bool>>, m: nat, n: nat): set<Cell>
    requires Rectangular(g)
  {
    set x, y | 0 < x < |g| && 0 <= y < |g[x]| && Before(x, y, m, n) && g[x][y] && g[x - 1][y] :: Cell(x, y)
  }

  ghost function VerticalBefore(g: seq<seq<bool>>, m: nat, n: nat): set<Cell>
    requires Rectangular(g)
  {
    set x, y | 0 <= x < |g| && 0 < y < |g[x]| && Before(x, y, m, n) && g[x][y] && g[x][y - 1] :: Cell(x, y)
  }

  lemma CellJointsAreWelds(g: seq<seq<bool>>, x: nat, y: nat)
    requires Rectangular(g) && x < |g| && y < |g[x]|
    ensures forall j :: j in CellJoints(g, x, y) <==> IsWeld(g, j) && j.body1.x == x && j.body1.y == y
    ensures Distinct(CellJoints(g, x, y))
  {
    var cj := CellJoints(g, x, y);
    forall j | j in cj
      ensures IsWeld(g, j) && j.body1.x == x && j.body1.y == y
    {
    }
    forall j | IsWeld(g, j) && j.body1.x == x && j.body1.y == y
      ensures j in cj
    {
      var a, b := j.body1, j.body2;
      assert a == Corner(x, y, a.vertex) && b == Corner(b.x, b.y, b.vertex);
      if a.x > 0 && b.x == a.x - 1 && b.y == a.y {
        assert j in LeftWeld(x, y);
      } else {
        assert j in BelowWeld(x, y);
      }
    }
  }

  /** Every joint created before (m, n) is a weld of a cell before (m, n), and conversely. */
  lemma {:induction false} JointsUpToAreWelds(g: seq<seq<bool>>, m: nat, n: nat)
    requires Rectangular(g) && InRange(g, m, n)
    ensures forall j :: j in JointsUpTo(g, m, n) <==> IsWeld(g, j) && Before(j.body1.x, j.body1.y, m, n)
    ensures Distinct(JointsUpTo(g, m, n))
    decreases m, n
  {
    if n > 0 {
      JointsUpToAreWelds(g, m, n - 1);
      CellJointsAreWelds(g, m, n - 1);
      var a, b := JointsUpTo(g, m, n - 1), CellJoints(g, m, n - 1);
      forall i, k | 0 <= i < k < |a + b|
        ensures (a + b)[i] != (a + b)[k]
      {
        if i < |a| && k >= |a| {
          assert (a + b)[i] in a && (a + b)[k] in b;
        }
      }
    } else if m > 0 {
      JointsUpToAreWelds(g, m - 1, |g[m - 1]|);
      forall j | IsWeld(g, j)
        ensures Before(j.body1.x, j.body1.y, m, 0) <==> Before(j.body1.x, j.body1.y, m - 1, |g[m - 1]|)
      {
        assert |g[j.body1.x]| == |g[m - 1]|;
      }
    }
  }

  /**
   * The joint list of a compound: it holds exactly the welds between adjacent
   * occupied cells (so no diagonal joints), each exactly once.
   */
  lemma JointsAreWelds(g: seq<seq<bool>>)
    requires Rectangular(g)
    ensures forall j :: j in Joints(g) <==> IsWeld(g, j)
    ensures Distinct(Joints(g))
  {
    JointsUpToAreWelds(g, |g|, 0);
  }

  lemma CellJointCount(g: seq<seq<bool>>, m: nat, n: nat)
    requires Rectangular(g) && m < |g| && n < |g[m]|
    ensures HorizontalBefore(g, m, n + 1) == HorizontalBefore(g, m, n) + (if m > 0 && g[m][n] && g[m - 1][n] then {Cell(m, n)} else {})
    ensures VerticalBefore(g, m, n + 1) == VerticalBefore(g, m, n) + (if n > 0 && g[m][n] && g[m][n - 1] then {Cell(m, n)} else {})
    ensures Cell(m, n) !in HorizontalBefore(g, m, n) && Cell(m, n) !in VerticalBefore(g, m, n)
    ensures |CellJoints(g, m, n)|
      == 2 * ((if m > 0 && g[m][n] && g[m - 1][n] then 1 else 0) + (if n > 0 && g[m][n] && g[m][n - 1] then 1 else 0))
  {
  }

  /** Finishing column m - 1 is starting column m. */
  lemma ColumnBoundary(g: seq<seq<bool>>, m: nat)
    requires Rectangular(g) && 0 < m <= |g|
    ensures HorizontalBefore(g, m, 0) == HorizontalBefore(g, m - 1, |g[m - 1]|)
    ensures VerticalBefore(g, m, 0) == VerticalBefore(g, m - 1, |g[m - 1]|)
  {
    forall c | c in HorizontalBefore(g, m - 1, |g[m - 1]|) ensures c in HorizontalBefore(g, m, 0) {
      assert |g[c.x]| == |g[m - 1]|;
    }
    forall c | c in VerticalBefore(g, m - 1, |g[m - 1]|) ensures c in VerticalBefore(g, m, 0) {
      assert |g[c.x]| == |g[m - 1]|;
    }
  }

  /** Placing cell (m, n - 1) adds two joints per pair it completes. */
  lemma CellStepCount(g: seq<seq<bool>>, m: nat, n: nat)
    requires Rectangular(g) && m < |g| && 0 < n <= |g[m]|
    requires |JointsUpTo(g, m, n - 1)| == 2 * (|HorizontalBefore(g, m, n - 1)| + |VerticalBefore(g, m, n - 1)|)
    ensures |JointsUpTo(g, m, n)| == 2 * (|HorizontalBefore(g, m, n)| + |VerticalBefore(g, m, n)|)
  {
    CellJointCount(g, m, n - 1);
    assert |JointsUpTo(g, m, n)| == |JointsUpTo(g, m, n - 1)| + |CellJoints(g, m, n - 1)|;
  }

  /** Two joints per adjacent pair of cells placed before (m, n). */
  lemma {:induction false} JointsUpToCount(g: seq<seq<bool>>, m: nat, n: nat)
    requires Rectangular(g) && InRange(g, m, n)
    ensures |JointsUpTo(g, m, n)| == 2 * (|HorizontalBefore(g, m, n)| + |VerticalBefore(g, m, n)|)
    decreases m, n
  {
    if n > 0 {
      JointsUpToCount(g, m, n - 1);
      CellStepCount(g, m, n);
    } else if m > 0 {
      JointsUpToCount(g, m - 1, |g[m - 1]|);
      ColumnBoundary(g, m);
    } else {
      assert HorizontalBefore(g, 0, 0) == {};
      assert VerticalBefore(g, 0, 0) == {};
    }
  }

  /** A compound has two joints per horizontally or vertically adjacent pair of occupied cells. */
  lemma JointCount(g: seq<seq<bool>>)
    requires Rectangular(g)
    ensures |Joints(g)| == 2 * (|HorizontalPairs(g)| + |VerticalPairs(g)|)
  {
    JointsUpToCount(g, |g|, 0);
    assert HorizontalPairs(g) == HorizontalBefore(g, |g|, 0);
    assert VerticalPairs(g) == VerticalBefore(g, |g|, 0);
  }
}
