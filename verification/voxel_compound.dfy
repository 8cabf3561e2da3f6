/**
 * A voxel compound: a grid of optional voxels welded at the shared edges of
 * adjacent cells, driven by an optional controller.
 *
 * The voxel itself is not part of this model: its type is the parameter V,
 * and what the compound asks of a voxel (building one at an origin, applying
 * a force, translating it, its centre, its snapshot components) is passed in
 * as a function.
 */
module VoxelCompounds {
  import opened Options
  import opened Geometry
  import opened Welds
  import opened Rows

  /** Builds voxels of a given side length at a given origin. */
  datatype Builder<V> = Builder(sideLength: real, build: (real, real) -> V)

  /** Maps time, time step and the current voxel grid to a grid of actuation signals. */
  datatype Controller<!V> = Controller(control: (real, real, seq<seq<Option<V>>>) -> seq<seq<real>>)

  /** The contents of a boolean grid array, indexed [x][y]. */
  ghost function Occupancy(grid: array2<bool>): (g: seq<seq<bool>>)
    reads grid
    ensures |g| == grid.Length0 && Rectangular(g)
    ensures forall x :: 0 <= x < |g| ==> |g[x]| == grid.Length1
    ensures forall x, y :: 0 <= x < grid.Length0 && 0 <= y < grid.Length1 ==> g[x][y] == grid[x, y]
  {
    seq(grid.Length0, x requires 0 <= x < grid.Length0 reads grid =>
      seq(grid.Length1, y requires 0 <= y < grid.Length1 reads grid => grid[x, y]))
  }

  /** The contents of a voxel grid, indexed [x][y]: the view the controller is given. */
  function Cells<V>(voxels: array2<Option<V>>): (cells: seq<seq<Option<V>>>)
    reads voxels
    ensures |cells| == voxels.Length0
    ensures forall x :: 0 <= x < |cells| ==> |cells[x]| == voxels.Length1
    ensures forall x, y :: 0 <= x < voxels.Length0 && 0 <= y < voxels.Length1 ==> cells[x][y] == voxels[x, y]
  {
    seq(voxels.Length0, x requires 0 <= x < voxels.Length0 reads voxels =>
      seq(voxels.Length1, y requires 0 <= y < voxels.Length1 reads voxels => voxels[x, y]))
  }

  /** Which cells of a voxel grid hold a voxel. */
  ghost function Occupied<V>(voxels: array2<Option<V>>): (g: seq<seq<bool>>)
    reads voxels
    ensures |g| == voxels.Length0 && Rectangular(g)
    ensures forall x :: 0 <= x < |g| ==> |g[x]| == voxels.Length1
    ensures forall x, y :: 0 <= x < voxels.Length0 && 0 <= y < voxels.Length1 ==> g[x][y] == voxels[x, y].Some?
  {
    seq(voxels.Length0, x requires 0 <= x < voxels.Length0 reads voxels =>
      seq(voxels.Length1, y requires 0 <= y < voxels.Length1 reads voxels => voxels[x, y].Some?))
  }

  /** The voxels of one column, bottom to top. */
  function Column<V>(col: seq<Option<V>>): seq<V> {
    if col == [] then []
    else Column(col[..|col| - 1]) + (if col[|col| - 1].Some? then [col[|col| - 1].value] else [])
  }

  /** The voxels of a grid, column by column, bottom to top. */
  function Present<V>(cells: seq<seq<Option<V>>>): seq<V> {
    if cells == [] then [] else Present(cells[..|cells| - 1]) + Column(cells[|cells| - 1])
  }

  lemma {:induction false} ColumnHas<V>(col: seq<Option<V>>, y: nat)
    requires y < |col| && col[y].Some?
    ensures col[y].value in Column(col)
    decreases |col|
  {
    if y < |col| - 1 {
      assert col[..|col| - 1][y] == col[y];
      ColumnHas(col[..|col| - 1], y);
    }
  }

  /** Every voxel of the grid is among the present ones. */
  lemma {:induction false} PresentHas<V>(cells: seq<seq<Option<V>>>, x: nat, y: nat)
    requires x < |cells| && y < |cells[x]| && cells[x][y].Some?
    ensures cells[x][y].value in Present(cells)
    decreases |cells|
  {
    if x < |cells| - 1 {
      assert cells[..|cells| - 1][x] == cells[x];
      PresentHas(cells[..|cells| - 1], x, y);
    } else {
      ColumnHas(cells[x], y);
    }
  }

  /** Every voxel of a column is the voxel of one of its occupied cells. */
  lemma {:induction false} ColumnFrom<V>(col: seq<Option<V>>, v: V)
    requires v in Column(col)
    ensures exists y :: 0 <= y < |col| && col[y] == Some(v)
    decreases |col|
  {
    var front := col[..|col| - 1];
    if v in Column(front) {
      ColumnFrom(front, v);
      var y :| 0 <= y < |front| && front[y] == Some(v);
      assert col[y] == Some(v);
    } else {
      assert col[|col| - 1] == Some(v);
    }
  }

  /** Every voxel the compound visits is the voxel of one of its occupied cells. */
  lemma {:induction false} PresentFrom<V>(cells: seq<seq<Option<V>>>, v: V)
    requires v in Present(cells)
    ensures exists x, y :: 0 <= x < |cells| && 0 <= y < |cells[x]| && cells[x][y] == Some(v)
    decreases |cells|
  {
    var front := cells[..|cells| - 1];
    if v in Present(front) {
      PresentFrom(front, v);
      var x, y :| 0 <= x < |front| && 0 <= y < |front[x]| && front[x][y] == Some(v);
      assert cells[x] == front[x];
    } else {
      ColumnFrom(cells[|cells| - 1], v);
    }
  }

  /** The compound visits no voxel exactly when every cell is empty. */
  lemma PresentEmpty<V>(cells: seq<seq<Option<V>>>)
    ensures |Present(cells)| == 0 <==> forall x, y :: 0 <= x < |cells| && 0 <= y < |cells[x]| ==> cells[x][y].None?
  {
    if |Present(cells)| > 0 {
      PresentFrom(cells, Present(cells)[0]);
    }
    forall x, y | 0 <= x < |cells| && 0 <= y < |cells[x]| && cells[x][y].Some?
      ensures |Present(cells)| > 0
    {
      PresentHas(cells, x, y);
    }
  }

  /** f applied to each of vs, in order. */
  function Map<A, B>(vs: seq<A>, f: A -> B): (r: seq<B>)
    ensures |r| == |vs|
  {
    seq(|vs|, i requires 0 <= i < |vs| => f(vs[i]))
  }

  /** The snapshot components of the voxels vs, in order. */
  function Components<V, C>(vs: seq<V>, componentsOf: V -> seq<C>): seq<C> {
    if vs == [] then [] else Components(vs[..|vs| - 1], componentsOf) + componentsOf(vs[|vs| - 1])
  }

  /** The grid after applying f to every voxel. */
  function MapCells<V>(cells: seq<seq<Option<V>>>, f: V -> V): (r: seq<seq<Option<V>>>)
    ensures |r| == |cells| && forall x :: 0 <= x < |cells| ==> |r[x]| == |cells[x]|
  {
    seq(|cells|, x requires 0 <= x < |cells| =>
      seq(|cells[x]|, y requires 0 <= y < |cells[x]| => if cells[x][y].Some? then Some(f(cells[x][y].value)) else None))
  }

  lemma {:induction false} ColumnMap<V>(col: seq<Option<V>>, f: V -> V)
    ensures Column(seq(|col|, y requires 0 <= y < |col| => if col[y].Some? then Some(f(col[y].value)) else None))
      == Map(Column(col), f)
    decreases |col|
  {
    var mc := seq(|col|, y requires 0 <= y < |col| => if col[y].Some? then Some(f(col[y].value)) else None);
    if col != [] {
      var front := col[..|col| - 1];
      assert mc[..|mc| - 1] == seq(|front|, y requires 0 <= y < |front| => if front[y].Some? then Some(f(front[y].value)) else None);
      ColumnMap(front, f);
    }
  }

  lemma {:induction false} PresentMap<V>(cells: seq<seq<Option<V>>>, f: V -> V)
    ensures Present(MapCells(cells, f)) == Map(Present(cells), f)
    decreases |cells|
  {
    if cells != [] {
      var front := cells[..|cells| - 1];
      assert MapCells(cells, f)[..|cells| - 1] == MapCells(front, f);
      PresentMap(front, f);
      ColumnMap(cells[|cells| - 1], f);
    }
  }

  /**
   * When translating a voxel by d moves its centre by d, translating every
   * voxel of a compound by d moves the compound's centre by d.
   */
  lemma CenterTranslated<V>(cells: seq<seq<Option<V>>>, centerOf: V -> Vec2, translate: V -> V, d: Vec2)
    requires |Present(cells)| > 0
    requires forall v :: centerOf(translate(v)) == Plus(centerOf(v), d)
    ensures |Present(MapCells(cells, translate))| > 0
    ensures Mean(Map(Present(MapCells(cells, translate)), centerOf)) == Plus(Mean(Map(Present(cells), centerOf)), d)
  {
    PresentMap(cells, translate);
    var vs := Present(cells);
    assert Map(Map(vs, translate), centerOf) == Translated(Map(vs, centerOf), d);
    MeanTranslated(Map(vs, centerOf), d);
  }

  /** The voxel the builder makes for cell (gx, gy) of a compound placed at (x, y). */
  function BuiltAt<V>(builder: Builder<V>, x: real, y: real, gx: nat, gy: nat): V {
    builder.build(x + gx as real * builder.sideLength, y + gy as real * builder.sideLength)
  }

  /** Appending one voxel adds its centre to the sum of centres. */
  lemma CentersSnoc<V>(vs: seq<V>, v: V, centerOf: V -> Vec2)
    ensures Sum(Map(vs + [v], centerOf)) == Plus(Sum(Map(vs, centerOf)), centerOf(v))
  {
    var cs := Map(vs + [v], centerOf);
    assert cs[..|cs| - 1] == Map(vs, centerOf);
  }

  /** Appending one voxel appends its components. */
  lemma ComponentsSnoc<V, C>(vs: seq<V>, v: V, componentsOf: V -> seq<C>)
    ensures Components(vs + [v], componentsOf) == Components(vs, componentsOf) + componentsOf(v)
  {
    assert (vs + [v])[..|vs|] == vs;
  }

  /** Taking one more cell of a column. */
  lemma ColumnSnoc<V>(col: seq<Option<V>>, y: nat)
    requires y < |col|
    ensures Column(col[..y + 1]) == Column(col[..y]) + (if col[y].Some? then [col[y].value] else [])
  {
    assert col[..y + 1][..y] == col[..y];
  }

  /** Taking one more column of a grid. */
  lemma PresentSnoc<V>(cells: seq<seq<Option<V>>>, x: nat)
    requires x < |cells|
    ensures Present(cells[..x + 1]) == Present(cells[..x]) + Column(cells[x])
  {
    assert cells[..x + 1][..x] == cells[..x];
  }

  /**
   * The centre does not depend on the order in which the voxels are
   * visited: any rearrangement of them has the same mean centre.
   */
  lemma CenterOrderFree<V>(vs: seq<V>, ws: seq<V>, centerOf: V -> Vec2)
    requires |vs| > 0 && multiset(vs) == multiset(ws)
    ensures |ws| == |vs| && Mean(Map(ws, centerOf)) == Mean(Map(vs, centerOf))
  {
    assert |ws| == |multiset(ws)| == |multiset(vs)| == |vs|;
    CentersPermutation(vs, ws, centerOf);
    MeanPermutation(Map(vs, centerOf), Map(ws, centerOf));
  }

  lemma CentersAppend<V>(a: seq<V>, b: seq<V>, centerOf: V -> Vec2)
    ensures Map(a + b, centerOf) == Map(a, centerOf) + Map(b, centerOf)
  {
  }

  /** Removing the j-th voxel removes its centre from the multiset of centres. */
  lemma CentersRemoveAt<V>(ws: seq<V>, j: nat, centerOf: V -> Vec2)
    requires j < |ws|
    ensures multiset(Map(ws, centerOf)) == multiset(Map(ws[..j] + ws[j + 1..], centerOf)) + multiset{centerOf(ws[j])}
  {
    var left, right := ws[..j], ws[j + 1..];
    assert ws == left + [ws[j]] + right;
    CentersAppend(left + [ws[j]], right, centerOf);
    CentersAppend(left, [ws[j]], centerOf);
    CentersAppend(left, right, centerOf);
  }

  lemma {:induction false} CentersPermutation<V>(vs: seq<V>, ws: seq<V>, centerOf: V -> Vec2)
    requires multiset(vs) == multiset(ws)
    ensures multiset(Map(vs, centerOf)) == multiset(Map(ws, centerOf))
    decreases |vs|
  {
    if vs == [] {
      assert |ws| == |multiset(ws)| == 0;
    } else {
      var n := |vs| - 1;
      assert vs[n] in multiset(ws);
      var j :| 0 <= j < |ws| && ws[j] == vs[n];
      assert multiset(vs[..n]) == multiset(ws[..j] + ws[j + 1..]) by {
        assert vs == vs[..n] + [vs[n]];
        MultisetRemoveAt(ws, j);
      }
      CentersPermutation(vs[..n], ws[..j] + ws[j + 1..], centerOf);
      CentersRemoveAt(vs, n, centerOf);
      CentersRemoveAt(ws, j, centerOf);
      assert vs[..n] + vs[n + 1..] == vs[..n];
    }
  }

  /** Every component of every voxel of the grid is part of the snapshot. */
  lemma ComponentsHave<V, C>(cells: seq<seq<Option<V>>>, x: nat, y: nat, componentsOf: V -> seq<C>, c: C)
    requires x < |cells| && y < |cells[x]| && cells[x][y].Some? && c in componentsOf(cells[x][y].value)
    ensures c in Components(Present(cells), componentsOf)
  {
    PresentHas(cells, x, y);
    ComponentsOfMember(Present(cells), cells[x][y].value, componentsOf, c);
  }

  lemma {:induction false} ComponentsOfMember<V, C>(vs: seq<V>, v: V, componentsOf: V -> seq<C>, c: C)
    requires v in vs && c in componentsOf(v)
    ensures c in Components(vs, componentsOf)
    decreases |vs|
  {
    if vs[|vs| - 1] != v {
      assert v in vs[..|vs| - 1] by {
        var i :| 0 <= i < |vs| && vs[i] == v;
        assert vs[..|vs| - 1][i] == v;
      }
      ComponentsOfMember(vs[..|vs| - 1], v, componentsOf, c);
    }
  }

  /** The voxel left in a cell once the force grid has been applied. */
  function Forced<V>(cell: Option<V>, forces: seq<seq<real>>, x: nat, y: nat, applyForce: (V, real) -> V): Option<V> {
    if cell.Some? && x < |forces| && y < |forces[x]| then Some(applyForce(cell.value, forces[x][y])) else cell
  }

  /**
   * grid is the occupancy grid of the rows: as wide as the first row, one
   * row tall per row, the first row at the top; cell (x, y) is occupied
   * exactly when character x of row |rows| - 1 - y exists and is not a blank.
   */
  ghost predicate ShapeOf(rows: seq<string>, g: seq<seq<bool>>) {
    |rows| >= 1 && |g| == |rows[0]| &&
    (forall x :: 0 <= x < |g| ==> |g[x]| == |rows|) &&
    forall x, y :: 0 <= x < |g| && 0 <= y < |rows| ==>
      g[x][y] == (x < |rows[|rows| - 1 - y]| && rows[|rows| - 1 - y][x] != ' ')
  }

  /**
   * The shape "XX ,XXX" is three cells wide and two tall, its first row on
   * top: the blank closes the top row's third cell, and the bottom row is full.
   */
  lemma ShapeExample(g: seq<seq<bool>>)
    requires ShapeOf(Split("XX ,XXX"), g)
    ensures g == [[true, true], [true, true], [true, false]]
  {
    var rows := ["XX ", "XXX"];
    PiecesJoin(rows);
    assert Join(rows) == "XX ,XXX";
    assert Split("XX ,XXX") == rows;
    assert |g| == 3 && |g[0]| == |g[1]| == |g[2]| == 2;
    assert g[0] == [true, true] by {
      assert g[0][0] == (0 < |rows[1]| && rows[1][0] != ' ');
      assert g[0][1] == (0 < |rows[0]| && rows[0][0] != ' ');
    }
    assert g[1] == [true, true] by {
      assert g[1][0] == (1 < |rows[1]| && rows[1][1] != ' ');
      assert g[1][1] == (1 < |rows[0]| && rows[0][1] != ' ');
    }
    assert g[2] == [true, false] by {
      assert g[2][0] == (2 < |rows[1]| && rows[1][2] != ' ');
      assert g[2][1] == (2 < |rows[0]| && rows[0][2] != ' ');
    }
  }

  /** The cells before (m, n) hold the voxels built for them where grid is set, the others nothing. */
  ghost predicate Placed<V>(x: real, y: real, grid: array2<bool>, builder: Builder<V>, vs: array2<Option<V>>, m: nat, n: nat)
    reads grid, vs
    requires vs.Length0 == grid.Length0 && vs.Length1 == grid.Length1
  {
    forall cx, cy :: 0 <= cx < grid.Length0 && 0 <= cy < grid.Length1 ==>
      vs[cx, cy] == if Before(cx, cy, m, n) && grid[cx, cy] then Some(BuiltAt(builder, x, y, cx, cy)) else None
  }

  /** A compound of voxels (the source's VoxelCompound). */
  class VoxelCompound<V> {
    const controller: Option<Controller<V>>
    const builder: Builder<V>
    /** The voxel grid; None is an empty cell. */
    const voxels: array2<Option<V>>
    const joints: seq<Joint>

    /** The joints are those of the occupancy pattern. */
    ghost predicate Valid()
      reads this, voxels
    {
      joints == Joints(Occupied(voxels))
    }

    /**
     * Places a voxel in every occupied cell, column by column and bottom to
     * top, welding it to the already placed voxels on its left and below.
     */
    static method Place(x: real, y: real, grid: array2<bool>, builder: Builder<V>)
      returns (vs: array2<Option<V>>, js: seq<Joint>)
      ensures fresh(vs) && vs.Length0 == grid.Length0 && vs.Length1 == grid.Length1
      ensures forall gx, gy :: 0 <= gx < grid.Length0 && 0 <= gy < grid.Length1 ==>
        vs[gx, gy] == if grid[gx, gy] then Some(BuiltAt(builder, x, y, gx, gy)) else None
      ensures js == Joints(Occupancy(grid))
    {
      vs := new Option<V>[grid.Length0, grid.Length1]((_, _) => None);
      js := [];
      assert Placed(x, y, grid, builder, vs, 0, 0);
      for gx := 0 to grid.Length0
        invariant Placed(x, y, grid, builder, vs, gx, 0)
        invariant js == JointsUpTo(Occupancy(grid), gx, 0)
      {
        js := PlaceColumn(x, y, grid, builder, vs, gx, js);
      }
    }

    /** The inner loop of the placement: the cells of column gx, bottom to top. */
    static method PlaceColumn(x: real, y: real, grid: array2<bool>, builder: Builder<V>,
                              vs: array2<Option<V>>, gx: nat, js0: seq<Joint>)
      returns (js: seq<Joint>)
      requires vs.Length0 == grid.Length0 && vs.Length1 == grid.Length1 && gx < grid.Length0
      requires Placed(x, y, grid, builder, vs, gx, 0)
      requires js0 == JointsUpTo(Occupancy(grid), gx, 0)
      modifies vs
      ensures Placed(x, y, grid, builder, vs, gx + 1, 0)
      ensures js == JointsUpTo(Occupancy(grid), gx + 1, 0)
    {
      js := js0;
      for gy := 0 to grid.Length1
        invariant Placed(x, y, grid, builder, vs, gx, gy)
        invariant js == JointsUpTo(Occupancy(grid), gx, gy)
      {
        js := PlaceCell(x, y, grid, builder, vs, gx, gy, js);
      }
    }

    /** One step of the placement: the voxel of cell (gx, gy) and its welds to the left and below. */
    static method PlaceCell(x: real, y: real, grid: array2<bool>, builder: Builder<V>,
                            vs: array2<Option<V>>, gx: nat, gy: nat, js0: seq<Joint>)
      returns (js: seq<Joint>)
      requires vs.Length0 == grid.Length0 && vs.Length1 == grid.Length1 && gx < grid.Length0 && gy < grid.Length1
      requires Placed(x, y, grid, builder, vs, gx, gy)
      modifies vs
      ensures Placed(x, y, grid, builder, vs, gx, gy + 1)
      ensures js == js0 + CellJoints(Occupancy(grid), gx, gy)
    {
      ghost var g := Occupancy(grid);
      js := js0;
      label Top:
      if grid[gx, gy] {
        vs[gx, gy] := Some(BuiltAt(builder, x, y, gx, gy));
        ghost var hasLeft := gx > 0 && grid[gx - 1, gy];
        ghost var hasBelow := gy > 0 && grid[gx, gy - 1];
        assert CellJoints(g, gx, gy) == (if hasLeft then LeftWeld(gx, gy) else []) + (if hasBelow then BelowWeld(gx, gy) else []);
        if gx > 0 && vs[gx - 1, gy].Some? {
          js := js + LeftWeld(gx, gy);
        }
        ghost var middle := js;
        assert middle == js0 + (if hasLeft then LeftWeld(gx, gy) else []);
        if gy > 0 && vs[gx, gy - 1].Some? {
          js := js + BelowWeld(gx, gy);
        }
        assert js == middle + (if hasBelow then BelowWeld(gx, gy) else []);
      }
      forall cx, cy | 0 <= cx < grid.Length0 && 0 <= cy < grid.Length1
        ensures vs[cx, cy] == if Before(cx, cy, gx, gy + 1) && grid[cx, cy] then Some(BuiltAt(builder, x, y, cx, cy)) else None
      {
        if cx != gx || cy != gy {
          assert vs[cx, cy] == old@Top(vs[cx, cy]);
        }
      }
    }

    constructor (x: real, y: real, grid: array2<bool>, controller: Option<Controller<V>>, builder: Builder<V>)
      ensures this.controller == controller && this.builder == builder
      ensures fresh(voxels) && voxels.Length0 == grid.Length0 && voxels.Length1 == grid.Length1
      ensures forall gx, gy :: 0 <= gx < grid.Length0 && 0 <= gy < grid.Length1 ==>
        voxels[gx, gy] == if grid[gx, gy] then Some(BuiltAt(builder, x, y, gx, gy)) else None
      ensures Occupied(voxels) == Occupancy(grid)
      ensures joints == Joints(Occupancy(grid)) && Valid()
    {
      this.builder := builder;
      this.controller := controller;
      var vs, js := Place(x, y, grid, builder);
      voxels := vs;
      joints := js;
      new;
      assert Occupied(voxels) == Occupancy(grid) by {
        forall gx | 0 <= gx < grid.Length0
          ensures Occupied(voxels)[gx] == Occupancy(grid)[gx]
        {
        }
      }
    }

    /**
     * The occupancy grid a shape description stands for: as wide as its top
     * row and as tall as the number of rows, with the top row at the top;
     * a row shorter than the top one leaves its remaining cells empty.
     * None stands for the exception the source raises when the description
     * is made of separators alone.
     */
    static method FromString(s: string) returns (grid: Option<array2<bool>>)
      ensures grid.None? <==> Split(s) == []
      ensures grid.Some? ==> fresh(grid.value)
      ensures grid.Some? ==> grid.value.Length0 == |Split(s)[0]| && grid.value.Length1 == |Split(s)|
      ensures grid.Some? ==> ShapeOf(Split(s), Occupancy(grid.value))
    {
      var rows := Split(s);
      if |rows| == 0 {
        return None;
      }
      var g := new bool[|rows[0]|, |rows|]((_, _) => false);
      var h := g.Length1;
      for y := 0 to h
        invariant forall cx, cy :: 0 <= cx < g.Length0 && h - y <= cy < h ==>
          g[cx, cy] == (cx < |rows[h - 1 - cy]| && rows[h - 1 - cy][cx] != ' ')
      {
        var row, r := rows[y], h - y - 1;
        for x := 0 to g.Length0
          invariant forall cx, cy :: 0 <= cx < g.Length0 && h - y <= cy < h ==>
            g[cx, cy] == (cx < |rows[h - 1 - cy]| && rows[h - 1 - cy][cx] != ' ')
          invariant forall cx :: 0 <= cx < x ==> g[cx, r] == (cx < |row| && row[cx] != ' ')
        {
          if x >= |row| {
            g[x, r] := false;
          } else {
            g[x, r] := row[x] != ' ';
          }
        }
      }
      return Some(g);
    }

    /** A compound built on the grid of a shape description; None where the description has no rows. */
    static method OfString(x: real, y: real, s: string, controller: Option<Controller<V>>, builder: Builder<V>)
      returns (c: Option<VoxelCompound<V>>)
      ensures c.None? <==> Split(s) == []
      ensures c.Some? ==> fresh(c.value) && fresh(c.value.voxels)
      ensures c.Some? ==> c.value.voxels.Length0 == |Split(s)[0]| && c.value.voxels.Length1 == |Split(s)|
      ensures c.Some? ==> c.value.controller == controller && c.value.builder == builder && c.value.Valid()
      ensures c.Some? ==> ShapeOf(Split(s), Occupied(c.value.voxels)) && c.value.PlacedAt(x, y)
    {
      var grid := FromString(s);
      if grid.None? {
        return None;
      }
      var compound := new VoxelCompound(x, y, grid.value, controller, builder);
      return Some(compound);
    }

    /** Every voxel stands where the builder puts the voxel of its cell for a compound at (x, y). */
    ghost predicate PlacedAt(x: real, y: real)
      reads this, voxels
    {
      forall gx, gy :: 0 <= gx < voxels.Length0 && 0 <= gy < voxels.Length1 && voxels[gx, gy].Some? ==>
        voxels[gx, gy].value == BuiltAt(builder, x, y, gx, gy)
    }

    /**
     * Asks the controller for a force per cell and applies each force to
     * the voxel of its cell; cells that hold no voxel, and forces outside
     * the grid, are skipped. Without a controller nothing happens and None
     * is returned.
     */
    method Control(t: real, dt: real, applyForce: (V, real) -> V) returns (forces: Option<seq<seq<real>>>)
      requires Valid()
      modifies voxels
      ensures controller.None? ==> forces.None? && Cells(voxels) == old(Cells(voxels))
      ensures controller.Some? ==> forces == Some(controller.value.control(t, dt, old(Cells(voxels))))
      ensures forces.Some? ==> forall gx, gy :: 0 <= gx < voxels.Length0 && 0 <= gy < voxels.Length1 ==>
        voxels[gx, gy] == Forced(old(voxels[gx, gy]), forces.value, gx, gy, applyForce)
      ensures Occupied(voxels) == old(Occupied(voxels)) && Valid()
    {
      if controller.None? {
        return None;
      }
      var fg := controller.value.control(t, dt, Cells(voxels));
      for fx := 0 to |fg|
        invariant forall cx, cy :: 0 <= cx < voxels.Length0 && 0 <= cy < voxels.Length1 ==>
          voxels[cx, cy] == if cx < fx then Forced(old(voxels[cx, cy]), fg, cx, cy, applyForce) else old(voxels[cx, cy])
      {
        for fy := 0 to |fg[fx]|
          invariant forall cx, cy :: 0 <= cx < voxels.Length0 && 0 <= cy < voxels.Length1 ==>
            voxels[cx, cy] == if Before(cx, cy, fx, fy) then Forced(old(voxels[cx, cy]), fg, cx, cy, applyForce) else old(voxels[cx, cy])
        {
          if fx < voxels.Length0 && fy < voxels.Length1 && voxels[fx, fy].Some? {
            voxels[fx, fy] := Some(applyForce(voxels[fx, fy].value, fg[fx][fy]));
          }
        }
      }
      forall gx, gy | 0 <= gx < voxels.Length0 && 0 <= gy < voxels.Length1
        ensures voxels[gx, gy] == Forced(old(voxels[gx, gy]), fg, gx, gy, applyForce)
      {
        if gx >= |fg| {
          assert voxels[gx, gy] == old(voxels[gx, gy]);
        }
      }
      SameOccupancy(old(Occupied(voxels)));
      return Some(fg);
    }

    /** Occupied(voxels) is g when every cell's occupancy agrees with g. */
    lemma SameOccupancy(g: seq<seq<bool>>)
      requires |g| == voxels.Length0 && forall x :: 0 <= x < |g| ==> |g[x]| == voxels.Length1
      requires forall x, y :: 0 <= x < voxels.Length0 && 0 <= y < voxels.Length1 ==> g[x][y] == voxels[x, y].Some?
      ensures Occupied(voxels) == g
    {
      forall x | 0 <= x < |g|
        ensures Occupied(voxels)[x] == g[x]
      {
      }
    }

    /** The mean of the centres of the voxels; None (the source's NaN vector) when the grid is empty. */
    method Center(centerOf: V -> Vec2) returns (c: Option<Vec2>)
      ensures c.None? <==> |Present(Cells(voxels))| == 0
      ensures c.None? <==> forall gx, gy :: 0 <= gx < voxels.Length0 && 0 <= gy < voxels.Length1 ==> voxels[gx, gy].None?
      ensures c.Some? ==> c.value == Mean(Map(Present(Cells(voxels)), centerOf))
    {
      ghost var cells := Cells(voxels);
      ghost var seen: seq<V> := [];
      var xc, yc, n := 0.0, 0.0, 0.0;
      for gx := 0 to voxels.Length0
        invariant seen == Present(cells[..gx])
        invariant Vec2(xc, yc) == Sum(Map(seen, centerOf)) && n == |seen| as real
      {
        for gy := 0 to voxels.Length1
          invariant seen == Present(cells[..gx]) + Column(cells[gx][..gy])
          invariant Vec2(xc, yc) == Sum(Map(seen, centerOf)) && n == |seen| as real
        {
          ColumnSnoc(cells[gx], gy);
          if voxels[gx, gy].Some? {
            var center := centerOf(voxels[gx, gy].value);
            CentersSnoc(seen, voxels[gx, gy].value, centerOf);
            seen := seen + [voxels[gx, gy].value];
            xc := xc + center.x;
            yc := yc + center.y;
            n := n + 1.0;
          }
        }
        PresentSnoc(cells, gx);
        assert cells[gx][..voxels.Length1] == cells[gx];
      }
      assert cells[..voxels.Length0] == cells;
      PresentEmpty(cells);
      if n == 0.0 {
        return None;
      }
      return Some(Vec2(xc / n, yc / n));
    }

    /** Moves every voxel with translate. */
    method Translate(translate: V -> V)
      requires Valid()
      modifies voxels
      ensures Cells(voxels) == MapCells(old(Cells(voxels)), translate)
      ensures Occupied(voxels) == old(Occupied(voxels)) && Valid()
    {
      for gx := 0 to voxels.Length0
        invariant forall cx, cy :: 0 <= cx < voxels.Length0 && 0 <= cy < voxels.Length1 ==>
          voxels[cx, cy] == if cx < gx && old(voxels[cx, cy]).Some? then Some(translate(old(voxels[cx, cy]).value)) else old(voxels[cx, cy])
      {
        for gy := 0 to voxels.Length1
          invariant forall cx, cy :: 0 <= cx < voxels.Length0 && 0 <= cy < voxels.Length1 ==>
            voxels[cx, cy] == if Before(cx, cy, gx, gy) && old(voxels[cx, cy]).Some? then Some(translate(old(voxels[cx, cy]).value)) else old(voxels[cx, cy])
        {
          if voxels[gx, gy].Some? {
            voxels[gx, gy] := Some(translate(voxels[gx, gy].value));
          }
        }
      }
      ghost var before := old(Cells(voxels));
      forall x | 0 <= x < voxels.Length0
        ensures Cells(voxels)[x] == MapCells(before, translate)[x]
      {
      }
      SameOccupancy(old(Occupied(voxels)));
    }

    /** The snapshot components of all the voxels, voxel after voxel. */
    method Snapshot<C>(componentsOf: V -> seq<C>) returns (components: seq<C>)
      ensures components == Components(Present(Cells(voxels)), componentsOf)
    {
      ghost var cells := Cells(voxels);
      ghost var seen: seq<V> := [];
      components := [];
      for gx := 0 to voxels.Length0
        invariant seen == Present(cells[..gx])
        invariant components == Components(seen, componentsOf)
      {
        for gy := 0 to voxels.Length1
          invariant seen == Present(cells[..gx]) + Column(cells[gx][..gy])
          invariant components == Components(seen, componentsOf)
        {
          ColumnSnoc(cells[gx], gy);
          if voxels[gx, gy].Some? {
            ComponentsSnoc(seen, voxels[gx, gy].value, componentsOf);
            seen := seen + [voxels[gx, gy].value];
            components := components + componentsOf(voxels[gx, gy].value);
          }
        }
        PresentSnoc(cells, gx);
        assert cells[gx][..voxels.Length1] == cells[gx];
      }
      assert cells[..voxels.Length0] == cells;
    }

    /**
     * A new compound of the same shape, controller and builder, built at
     * the origin: its voxels are new ones, and its joints are the same.
     */
    method Clone() returns (c: VoxelCompound<V>)
      requires Valid()
      ensures fresh(c) && fresh(c.voxels)
      ensures c.controller == controller && c.builder == builder
      ensures Occupied(c.voxels) == Occupied(voxels) && c.PlacedAt(0.0, 0.0)
      ensures c.joints == joints && c.Valid()
    {
      var grid := new bool[voxels.Length0, voxels.Length1]((_, _) => false);
      for gx := 0 to voxels.Length0
        invariant forall cx, cy :: 0 <= cx < gx && 0 <= cy < voxels.Length1 ==> grid[cx, cy] == voxels[cx, cy].Some?
      {
        for gy := 0 to voxels.Length1
          invariant forall cx, cy :: 0 <= cx < voxels.Length0 && 0 <= cy < voxels.Length1 && Before(cx, cy, gx, gy) ==>
            grid[cx, cy] == voxels[cx, cy].Some?
        {
          grid[gx, gy] := voxels[gx, gy].Some?;
        }
      }
      assert Occupancy(grid) == Occupied(voxels) by {
        forall x | 0 <= x < voxels.Length0
          ensures Occupancy(grid)[x] == Occupied(voxels)[x]
        {
        }
      }
      c := new VoxelCompound(0.0, 0.0, grid, controller, builder);
    }
  }
}
