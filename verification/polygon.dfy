/**
 * An immutable polygon: its vertex array, the shoelace area and the
 * vertex-mean centre.
 */
module Polygon {
  import opened Geometry
  import opened Options

  function Abs(r: real): (a: real)
    ensures a >= 0.0 && (a == r || a == -r)
  {
    if r < 0.0 then -r else r
  }

  /** Sum of a sequence of reals, accumulated front to back. */
  function Total(s: seq<real>): real {
    if s == [] then 0.0 else Total(s[..|s| - 1]) + s[|s| - 1]
  }

  /** The cyclic neighbour indices the area loop computes as (l + i + 1) % l and (l + i - 1) % l. */
  lemma NeighbourIndices(l: nat, i: nat)
    requires i < l
    ensures (l + i + 1) % l == if i + 1 == l then 0 else i + 1
    ensures (l + i - 1) % l == if i == 0 then l - 1 else i - 1
  {
  }

  /** The i-th summand of the shoelace formula. */
  function Term(vs: seq<Vec2>, i: nat): real
    requires i < |vs|
  {
    var l := |vs|;
    vs[i].x * (vs[(l + i + 1) % l].y - vs[(l + i - 1) % l].y)
  }

  function Terms(vs: seq<Vec2>): (t: seq<real>)
    ensures |t| == |vs|
  {
    seq(|vs|, i requires 0 <= i < |vs| => Term(vs, i))
  }

  /** Area of the polygon with vertices vs in cyclic order (shoelace formula). */
  function ShoelaceArea(vs: seq<Vec2>): (a: real)
    ensures a >= 0.0
    ensures vs == [] ==> a == 0.0
  {
    0.5 * Abs(Total(Terms(vs)))
  }

  lemma {:induction false} TotalAppend(a: seq<real>, b: seq<real>)
    ensures Total(a + b) == Total(a) + Total(b)
    decreases |b|
  {
    if b == [] {
      assert a + b == a;
    } else {
      assert (a + b)[..|a + b| - 1] == a + b[..|b| - 1];
      TotalAppend(a, b[..|b| - 1]);
    }
  }

  /** Moving the first vertex to the end, as a cyclic shift by one. */
  function RotateLeft<T>(s: seq<T>): (r: seq<T>)
    requires |s| > 0
    ensures |r| == |s|
  {
    s[1..] + [s[0]]
  }

  lemma TermsRotateLeft(vs: seq<Vec2>)
    requires |vs| > 0
    ensures Terms(RotateLeft(vs)) == RotateLeft(Terms(vs))
  {
    var l := |vs|;
    var w := RotateLeft(vs);
    forall i | 0 <= i < l
      ensures Terms(w)[i] == Terms(vs)[if i + 1 == l then 0 else i + 1]
    {
      var k := if i + 1 == l then 0 else i + 1;
      var kk := if k + 1 == l then 0 else k + 1;
      var p := if i == 0 then l - 1 else i - 1;
      NeighbourIndices(l, i);
      NeighbourIndices(l, k);
      assert w[i] == vs[k];
      assert w[k] == vs[kk];
      assert w[p] == vs[i];
      assert Term(w, i) == vs[k].x * (vs[kk].y - vs[i].y);
      assert Term(vs, k) == vs[k].x * (vs[kk].y - vs[i].y);
    }
  }

  /** Shifting the vertex list cyclically by one does not change the area. */
  lemma AreaRotateLeft(vs: seq<Vec2>)
    requires |vs| > 0
    ensures ShoelaceArea(RotateLeft(vs)) == ShoelaceArea(vs)
  {
    var t := Terms(vs);
    TermsRotateLeft(vs);
    TotalAppend(t[1..], [t[0]]);
    TotalAppend([t[0]], t[1..]);
    assert t == [t[0]] + t[1..];
    assert Total([t[0]]) == t[0] by {
      assert [t[0]][..0] == [];
    }
  }

  /** Any cyclic shift of the vertex list keeps the area. */
  lemma {:induction false} AreaRotate(vs: seq<Vec2>, k: nat)
    requires k <= |vs|
    ensures ShoelaceArea(vs[k..] + vs[..k]) == ShoelaceArea(vs)
    decreases k
  {
    if k == 0 {
      assert vs[k..] + vs[..k] == vs;
    } else {
      AreaRotate(vs, k - 1);
      var prev := vs[k - 1..] + vs[..k - 1];
      assert vs[k..] + vs[..k] == RotateLeft(prev);
      AreaRotateLeft(prev);
    }
  }

  function Reverse<T>(s: seq<T>): (r: seq<T>)
    ensures |r| == |s|
  {
    seq(|s|, i requires 0 <= i < |s| => s[|s| - 1 - i])
  }

  lemma {:induction false} TotalNegatedReverse(s: seq<real>)
    ensures Total(seq(|s|, i requires 0 <= i < |s| => -s[|s| - 1 - i])) == -Total(s)
    decreases |s|
  {
    var n := seq(|s|, i requires 0 <= i < |s| => -s[|s| - 1 - i]);
    if s != [] {
      var rest := s[1..];
      var m := seq(|rest|, i requires 0 <= i < |rest| => -rest[|rest| - 1 - i]);
      assert n[..|n| - 1] == m;
      TotalNegatedReverse(rest);
      assert s == [s[0]] + rest;
      TotalAppend([s[0]], rest);
      assert Total([s[0]]) == s[0] by {
        assert [s[0]][..0] == [];
      }
    }
  }

  /** Listing the vertices in the opposite direction keeps the area. */
  lemma AreaReverse(vs: seq<Vec2>)
    ensures ShoelaceArea(Reverse(vs)) == ShoelaceArea(vs)
  {
    var l := |vs|;
    var r := Reverse(vs);
    var t := Terms(vs);
    forall i | 0 <= i < l
      ensures Terms(r)[i] == -t[l - 1 - i]
    {
      var j := l - 1 - i;
      NeighbourIndices(l, i);
      NeighbourIndices(l, j);
    }
    assert Terms(r) == seq(|t|, i requires 0 <= i < |t| => -t[|t| - 1 - i]);
    TotalNegatedReverse(t);
  }

  /** An axis-aligned square of side s, corners listed counter-clockwise from (x, y). */
  function Square(x: real, y: real, s: real): seq<Vec2> {
    [Vec2(x, y), Vec2(x + s, y), Vec2(x + s, y + s), Vec2(x, y + s)]
  }

  /** A voxel's rest shape, a square of side s, has area s * s. */
  lemma SquareArea(x: real, y: real, s: real)
    ensures ShoelaceArea(Square(x, y, s)) == s * s
  {
    var vs := Square(x, y, s);
    var t := Terms(vs);
    assert t[0] == x * (y - (y + s));
    assert t[1] == (x + s) * ((y + s) - y);
    assert t[2] == (x + s) * ((y + s) - y);
    assert t[3] == x * (y - (y + s));
    assert Total(t) == t[0] + t[1] + t[2] + t[3] by {
      assert Total(t[..1]) == t[0] by {
        assert t[..1][..0] == [];
      }
      assert Total(t[..2]) == Total(t[..1]) + t[1] by {
        assert t[..2][..1] == t[..1];
      }
      assert Total(t[..3]) == Total(t[..2]) + t[2] by {
        assert t[..3][..2] == t[..2];
      }
      assert t[..4] == t;
    }
  }

  /** The centre of a square is the middle of its sides, whatever the order of its corners. */
  lemma SquareCenter(x: real, y: real, s: real, corners: seq<Vec2>)
    requires multiset(corners) == multiset(Square(x, y, s))
    ensures |corners| == 4 && Mean(corners) == Vec2(x + s / 2.0, y + s / 2.0)
  {
    var vs := Square(x, y, s);
    MeanPermutation(vs, corners);
    assert Sum(vs) == Vec2(4.0 * x + 2.0 * s, 4.0 * y + 2.0 * s) by {
      assert Sum(vs[..1]) == vs[0] by {
        assert vs[..1][..0] == [];
      }
      assert Sum(vs[..2]) == Plus(Sum(vs[..1]), vs[1]) by {
        assert vs[..2][..1] == vs[..1];
      }
      assert Sum(vs[..3]) == Plus(Sum(vs[..2]), vs[2]) by {
        assert vs[..3][..2] == vs[..2];
      }
      assert vs[..4] == vs;
    }
  }

  /** A polygon, held as the array of its vertices (the source's Poly). */
  class Poly {
    const vertexes: array<Vec2>

    /** Copies the given vertex list, in order. */
    constructor FromList(vs: seq<Vec2>)
      ensures fresh(vertexes) && vertexes[..] == vs
    {
      var a := new Vec2[|vs|];
      for i := 0 to |vs|
        invariant a[..i] == vs[..i]
      {
        a[i] := vs[i];
      }
      vertexes := a;
    }

    /** Keeps the given array itself, as the varargs constructor does. */
    constructor (vs: array<Vec2>)
      ensures vertexes == vs
    {
      vertexes := vs;
    }

    method Area() returns (a: real)
      ensures a == ShoelaceArea(vertexes[..])
    {
      ghost var vs := vertexes[..];
      var l := vertexes.Length;
      a := 0.0;
      for i := 0 to l
        invariant a == Total(Terms(vs)[..i])
      {
        assert Terms(vs)[..i + 1][..i] == Terms(vs)[..i];
        a := a + vertexes[i].x * (vertexes[(l + i + 1) % l].y - vertexes[(l + i - 1) % l].y);
      }
      assert Terms(vs)[..l] == Terms(vs);
      a := 0.5 * Abs(a);
    }

    /** The mean of the vertices; None (the source's NaN point) for a polygon without vertices. */
    method Center() returns (c: Option<Vec2>)
      ensures c.None? <==> vertexes.Length == 0
      ensures c.Some? ==> vertexes.Length > 0 && c.value == Mean(vertexes[..])
    {
      ghost var vs := vertexes[..];
      var x, y := 0.0, 0.0;
      for i := 0 to vertexes.Length
        invariant Vec2(x, y) == Sum(vs[..i])
      {
        assert vs[..i + 1][..i] == vs[..i];
        x := x + vertexes[i].x;
        y := y + vertexes[i].y;
      }
      assert vs[..vertexes.Length] == vs;
      if vertexes.Length == 0 {
        return None;
      }
      c := Some(Vec2(x / vertexes.Length as real, y / vertexes.Length as real));
    }
  }
}
