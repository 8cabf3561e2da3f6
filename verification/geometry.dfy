/**
 * Plane vectors and the component-wise mean that both a polygon's centre
 * and a voxel compound's centre are defined by.
 */
module Geometry {

  /** A point or vector of the plane (the source's Point2 and Vector2). */
  datatype Vec2 = Vec2(x: real, y: real)

  function Plus(a: Vec2, b: Vec2): Vec2 {
    Vec2(a.x + b.x, a.y + b.y)
  }

  /** Component-wise sum, accumulated front to back like the source's loops. */
  function Sum(vs: seq<Vec2>): Vec2 {
    if vs == [] then Vec2(0.0, 0.0) else Plus(Sum(vs[..|vs| - 1]), vs[|vs| - 1])
  }

  /** Component-wise mean; undefined for an empty sequence. */
  function Mean(vs: seq<Vec2>): Vec2
    requires |vs| > 0
  {
    var s := Sum(vs);
    Vec2(s.x / |vs| as real, s.y / |vs| as real)
  }

  lemma {:induction false} SumAppend(a: seq<Vec2>, b: seq<Vec2>)
    ensures Sum(a + b) == Plus(Sum(a), Sum(b))
    decreases |b|
  {
    if b == [] {
      assert a + b == a;
    } else {
      var last := b[|b| - 1];
      assert (a + b)[..|a + b| - 1] == a + b[..|b| - 1];
      SumAppend(a, b[..|b| - 1]);
    }
  }

  /** Removing the j-th element of b leaves b's multiset less that element. */
  lemma MultisetRemoveAt<T>(b: seq<T>, j: nat)
    requires j < |b|
    ensures multiset(b[..j] + b[j + 1..]) == multiset(b) - multiset{b[j]}
  {
    assert b == b[..j] + [b[j]] + b[j + 1..];
    assert multiset(b) == multiset(b[..j]) + multiset{b[j]} + multiset(b[j + 1..]);
  }

  lemma SumCons(v: Vec2, s: seq<Vec2>)
    ensures Sum([v] + s) == Plus(v, Sum(s))
  {
    assert Sum([v]) == v by {
      assert [v][..0] == [];
    }
    SumAppend([v], s);
  }

  /** Removing the j-th element of b takes it out of b's sum. */
  lemma SumRemoveAt(b: seq<Vec2>, j: nat)
    requires j < |b|
    ensures Sum(b) == Plus(Sum(b[..j] + b[j + 1..]), b[j])
  {
    var front, v, back := b[..j], b[j], b[j + 1..];
    assert b == front + ([v] + back);
    SumAppend(front, [v] + back);
    SumCons(v, back);
    SumAppend(front, back);
    PlusShuffle(Sum(front), v, Sum(back));
  }

  lemma PlusShuffle(p: Vec2, v: Vec2, q: Vec2)
    ensures Plus(p, Plus(v, q)) == Plus(Plus(p, q), v)
  {
  }

  /** The sum does not depend on the order of the summands. */
  lemma {:induction false} SumPermutation(a: seq<Vec2>, b: seq<Vec2>)
    requires multiset(a) == multiset(b)
    ensures Sum(a) == Sum(b)
    decreases |a|
  {
    if a == [] {
      assert |b| == |multiset(b)| == 0;
    } else {
      var last := a[|a| - 1];
      var front := a[..|a| - 1];
      assert a == front + [last];
      assert multiset(front) == multiset(a) - multiset{last};
      assert last in multiset(b);
      var j :| 0 <= j < |b| && b[j] == last;
      MultisetRemoveAt(b, j);
      SumPermutation(front, b[..j] + b[j + 1..]);
      SumRemoveAt(b, j);
    }
  }

  /** The mean of a collection of points is independent of their order. */
  lemma MeanPermutation(a: seq<Vec2>, b: seq<Vec2>)
    requires |a| > 0 && multiset(a) == multiset(b)
    ensures |b| == |a| && Mean(a) == Mean(b)
  {
    assert |b| == |multiset(b)| == |multiset(a)| == |a|;
    SumPermutation(a, b);
  }

  function Translated(vs: seq<Vec2>, d: Vec2): (r: seq<Vec2>)
    ensures |r| == |vs|
  {
    seq(|vs|, i requires 0 <= i < |vs| => Plus(vs[i], d))
  }

  lemma {:induction false} SumTranslated(vs: seq<Vec2>, d: Vec2)
    ensures Sum(Translated(vs, d)) == Plus(Sum(vs), Vec2(|vs| as real * d.x, |vs| as real * d.y))
    decreases |vs|
  {
    if vs != [] {
      var front := vs[..|vs| - 1];
      assert Translated(vs, d)[..|vs| - 1] == Translated(front, d);
      SumTranslated(front, d);
    }
  }

  /** Moving every point by d moves the mean by d. */
  lemma MeanTranslated(vs: seq<Vec2>, d: Vec2)
    requires |vs| > 0
    ensures Mean(Translated(vs, d)) == Plus(Mean(vs), d)
  {
    SumTranslated(vs, d);
    var n := |vs| as real;
    var s := Sum(vs);
    assert (s.x + n * d.x) / n == s.x / n + d.x;
    assert (s.y + n * d.y) / n == s.y / n + d.y;
  }
}
