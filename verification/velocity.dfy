/**
 * Sensor domains and the velocity sensor: which components of a voxel's
 * linear velocity it reports, and in which channel.
 */
module Sensors {
  import opened Geometry

  datatype Axis = X | Y

  /** The declared range [min, max] of one output channel. */
  datatype Domain = Domain(min: real, max: real)

  /**
   * What the velocity sensor reads of a voxel: its linear velocity and the
   * unit vector pointing along its current angle.
   */
  datatype Motion = Motion(velocity: Vec2, heading: Vec2)

  function Dot(a: Vec2, b: Vec2): real {
    a.x * b.x + a.y * b.y
  }

  /** The unit vector at angle + pi/2 when u is the unit vector at angle. */
  function Perp(u: Vec2): Vec2 {
    Vec2(-u.y, u.x)
  }

  /** Number of axes in a set: a set of axes has at most the two elements X and Y. */
  lemma AxisCount(axes: set<Axis>)
    ensures |axes| == (if X in axes then 1 else 0) + (if Y in axes then 1 else 0)
  {
    var xs := if X in axes then {X} else {};
    var ys := if Y in axes then {Y} else {};
    forall a | a in axes
      ensures a in xs + ys
    {
      if a.X? { assert a == X; } else { assert a == Y; }
    }
    assert axes == xs + ys;
  }

  /** The axis set the varargs constructor builds: none given means none selected; repeats collapse. */
  function AxisSet(axes: seq<Axis>): (s: set<Axis>)
    ensures forall a :: a in s <==> a in axes
    ensures |s| <= 2 && |s| <= |axes|
  {
    AxisCount(set a | a in axes);
    if |axes| > 0 then {axes[0]} + set a | a in axes else {}
  }

  /** The reading of one selected channel. */
  function Component(rotated: bool, axis: Axis, m: Motion): real {
    match axis
    case X => if rotated then Dot(m.velocity, m.heading) else m.velocity.x
    case Y => if rotated then Dot(m.velocity, Perp(m.heading)) else m.velocity.y
  }

  /** The channels of a velocity reading: X's component first, then Y's, each only when selected. */
  function Reading(rotated: bool, axes: set<Axis>, m: Motion): (r: seq<real>)
    ensures |r| == |axes| == (if X in axes then 1 else 0) + (if Y in axes then 1 else 0)
    ensures X in axes ==> r[0] == Component(rotated, X, m)
    ensures Y in axes ==> r[if X in axes then 1 else 0] == Component(rotated, Y, m)
  {
    AxisCount(axes);
    (if X in axes then [Component(rotated, X, m)] else [])
      + (if Y in axes then [Component(rotated, Y, m)] else [])
  }

  /**
   * The sensor reports the raw component: a voxel moving at (3, -4) seen by a
   * non-rotated X-only sensor reads 3 even when the declared domain is [-2, 2].
   */
  lemma ReadingIsNotClamped()
    ensures var d := Domain(-2.0, 2.0);
            var r := Reading(false, {X}, Motion(Vec2(3.0, -4.0), Vec2(1.0, 0.0)));
            r == [3.0] && !(d.min <= r[0] <= d.max)
  {
  }

  /** The velocity sensor (the source's Velocity). */
  class Velocity {
    const rotated: bool
    const axes: set<Axis>
    const maxVelocityNorm: real
    const domains: array<Domain>

    ghost predicate Valid()
    {
      domains.Length == |axes|
    }

    /** Every channel of a sensor on axes gets the domain [-maxVelocityNorm, maxVelocityNorm]. */
    constructor (rotated: bool, maxVelocityNorm: real, axes: set<Axis>)
      ensures Valid() && fresh(domains)
      ensures this.rotated == rotated && this.axes == axes && this.maxVelocityNorm == maxVelocityNorm
      ensures forall i :: 0 <= i < domains.Length ==> domains[i] == Domain(-maxVelocityNorm, maxVelocityNorm)
    {
      this.rotated := rotated;
      this.maxVelocityNorm := maxVelocityNorm;
      this.axes := axes;
      domains := new Domain[|axes|](_ => Domain(-maxVelocityNorm, maxVelocityNorm));
    }

    /** The varargs form: the given axes, repeats collapsed, none meaning none. */
    constructor OfAxes(rotated: bool, maxVelocityNorm: real, axes: seq<Axis>)
      ensures Valid() && fresh(domains)
      ensures this.rotated == rotated && this.axes == AxisSet(axes) && this.maxVelocityNorm == maxVelocityNorm
      ensures forall i :: 0 <= i < domains.Length ==> domains[i] == Domain(-maxVelocityNorm, maxVelocityNorm)
    {
      this.rotated := rotated;
      this.maxVelocityNorm := maxVelocityNorm;
      this.axes := AxisSet(axes);
      domains := new Domain[|AxisSet(axes)|](_ => Domain(-maxVelocityNorm, maxVelocityNorm));
    }

    /** Writes the selected components into a fresh array, one slot per domain. */
    method Sense(m: Motion, t: real) returns (values: array<real>)
      requires Valid()
      ensures fresh(values) && values.Length == domains.Length
      ensures values[..] == Reading(rotated, axes, m)
    {
      AxisCount(axes);
      values := new real[domains.Length];
      var c := 0;
      var velocity := m.velocity;
      if X in axes {
        if !rotated {
          values[c] := velocity.x;
        } else {
          values[c] := Dot(velocity, m.heading);
        }
        c := c + 1;
      }
      if Y in axes {
        if !rotated {
          values[c] := velocity.y;
        } else {
          values[c] := Dot(velocity, Perp(m.heading));
        }
      }
    }
  }
}
