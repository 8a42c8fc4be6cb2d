/** Flock.cpp: a group of units that receives one move order.  The flock keeps a
    running bounding box of the positions of the units added to it and, on a move
    order, computes one offset vector that every member adds to its own position. */
module Flocks {
  import opened Geometry
  import opened Units

  /** A flock.  `minX`..`maxY` start from initial values that Flock.h (not part of
      this model) supplies; `NewFlock` takes them as parameters. */
  datatype Flock = Flock(
    units: seq<Unit>,
    minX: real,
    maxX: real,
    minY: real,
    maxY: real,
    worldWidth: real,
    worldHeight: real)

  /** `Flock::Flock(argWidth, argHeight)`: no members, the given world. */
  function NewFlock(width: real, height: real, minX: real, maxX: real, minY: real, maxY: real): (f: Flock)
    ensures f.units == []
    ensures f.worldWidth == width && f.worldHeight == height
    ensures f.minX == minX && f.maxX == maxX && f.minY == minY && f.maxY == maxY
  {
    Flock([], minX, maxX, minY, maxY, width, height)
  }

  /** `Flock::add`: append the unit and update the bounding box.  The x update is an
      `if`/`else if`, so a unit left of `minX` never widens `maxX`.  The y update
      assigns `minY` in both of its tests, so `minY` always ends up equal to the new
      unit's y and `maxY` is never touched. */
  function Add(f: Flock, u: Unit): (g: Flock)
    ensures g.units == f.units + [u]
    ensures g.worldWidth == f.worldWidth && g.worldHeight == f.worldHeight
    ensures g.minX <= f.minX && f.maxX <= g.maxX
    ensures f.minX <= f.maxX ==> g.minX <= u.position.x <= g.maxX
    ensures f.minX <= f.maxX ==>
      g.minX == Min(f.minX, u.position.x) && g.maxX == Max(f.maxX, u.position.x)
    ensures g.minY == u.position.y
    ensures g.maxY == f.maxY
  {
    var x := u.position.x;
    var y := u.position.y;
    var (minX, maxX) :=
      if x < f.minX then (x, f.maxX)
      else if x > f.maxX then (f.minX, x)
      else (f.minX, f.maxX);
    var minY := if y < f.minY then y else f.minY;
    var minY' := if y > minY then y else minY;
    f.(units := f.units + [u], minX := minX, maxX := maxX, minY := minY')
  }

  /** Adding units one after the other, as the flock builder does. */
  function AddAll(f: Flock, us: seq<Unit>): Flock
    decreases |us|
  {
    if us == [] then f else AddAll(Add(f, us[0]), us[1..])
  }

  /** `Flock::center`: half the extent of the bounding box on each axis. */
  function Center(f: Flock): (c: Vec2)
    ensures f.minX + 2.0 * c.x == f.maxX
    ensures f.minY + 2.0 * c.y == f.maxY
  {
    Vec2((f.maxX - f.minX) / 2.0, (f.maxY - f.minY) / 2.0)
  }

  /** Adding a sequence appends it to the members in order and leaves the world and
      `maxY` alone; `minY` is the y of the last unit added. */
  lemma {:induction false} AddAllAppends(f: Flock, us: seq<Unit>)
    ensures AddAll(f, us).units == f.units + us
    ensures AddAll(f, us).worldWidth == f.worldWidth
    ensures AddAll(f, us).worldHeight == f.worldHeight
    ensures AddAll(f, us).maxY == f.maxY
    ensures us != [] ==> AddAll(f, us).minY == us[|us| - 1].position.y
    decreases |us|
  {
    if us != [] {
      AddAllAppends(Add(f, us[0]), us[1..]);
      assert f.units + [us[0]] + us[1..] == f.units + us;
      if |us| > 1 {
        assert us[1..][|us[1..]| - 1] == us[|us| - 1];
      }
    }
  }

  /** Starting from a box with `minX <= maxX`, the x-extent only grows and covers
      every unit added. */
  lemma {:induction false} AddAllBoundsX(f: Flock, us: seq<Unit>)
    requires f.minX <= f.maxX
    ensures AddAll(f, us).minX <= f.minX
    ensures f.maxX <= AddAll(f, us).maxX
    ensures forall k :: 0 <= k < |us| ==>
      AddAll(f, us).minX <= us[k].position.x <= AddAll(f, us).maxX
    decreases |us|
  {
    if us != [] {
      var f' := Add(f, us[0]);
      AddAllBoundsX(f', us[1..]);
      forall k | 1 <= k < |us|
        ensures AddAll(f, us).minX <= us[k].position.x <= AddAll(f, us).maxX
      {
        assert us[k] == us[1..][k - 1];
      }
    }
  }

  /** Twice the x-component of `center()` bounds the x-distance between any two
      units added to a flock whose initial box was not inverted. */
  lemma {:induction false} CenterSpansMembers(f: Flock, us: seq<Unit>, a: nat, b: nat)
    requires f.minX <= f.maxX
    requires a < |us| && b < |us|
    ensures us[a].position.x - us[b].position.x <= 2.0 * Center(AddAll(f, us)).x
  {
    AddAllBoundsX(f, us);
  }

  /** The `else if` of lines 13-16: a unit that is both left of `minX` and right of
      `maxX` (possible only while the box is inverted) lowers `minX` but is not
      covered by `maxX`. */
  lemma AddInvertedBox(f: Flock, u: Unit)
    requires f.maxX < u.position.x < f.minX
    ensures Add(f, u).minX == u.position.x
    ensures Add(f, u).maxX == f.maxX < u.position.x
  {
  }

  // ------------------------------------------------------------------
  // setDestination: the shared offset

  /** One axis of one member's boundary tests: first the lower test against the
      radius, then, with the updated value, the upper test against `testBound`,
      which on a hit subtracts `(shiftBound - r) - d`. */
  function AxisAdjust(p: real, r: real, v: real, d: real, testBound: real, shiftBound: real): real {
    var v1 := if p + v < r then v - (r - d) else v;
    if p + v1 > testBound - r then v1 - ((shiftBound - r) - d) else v1
  }

  /** The four tests one member applies to the offset `v`, in source order, with
      `d` the requested destination.  On x the upper test compares against the
      world height but shifts by the world width; on y both use the height. */
  function Adjust(u: Unit, v: Vec2, d: Vec2, width: real, height: real): (v': Vec2)
    ensures v'.x == AxisAdjust(u.position.x, u.radius, v.x, d.x, height, width)
    ensures v'.y == AxisAdjust(u.position.y, u.radius, v.y, d.y, height, height)
  {
    var r := u.radius;
    var p := u.position;
    var v1 := if p.x + v.x < r then v.(x := v.x - (r - d.x)) else v;
    var v2 := if p.x + v1.x > height - r then v1.(x := v1.x - ((width - r) - d.x)) else v1;
    var v3 := if p.y + v2.y < r then v2.(y := v2.y - (r - d.y)) else v2;
    if p.y + v3.y > height - r then v3.(y := v3.y - ((height - r) - d.y)) else v3
  }

  /** The offset after every member, first to last, has adjusted it. */
  function Offset(us: seq<Unit>, v: Vec2, d: Vec2, width: real, height: real): Vec2
    decreases |us|
  {
    if us == [] then v else Offset(us[1..], Adjust(us[0], v, d, width, height), d, width, height)
  }

  /** The offset `setDestination(target)` hands to every member: `target + center()`
      adjusted by every member in turn. */
  function GroupOffset(f: Flock, target: Vec2): Vec2 {
    Offset(f.units, target.Plus(Center(f)), target, f.worldWidth, f.worldHeight)
  }

  datatype Axis = X | Y

  function Coord(u: Unit, a: Axis): real {
    match a
    case X => u.position.x
    case Y => u.position.y
  }

  /** A one-axis reference for `Offset`: it sees only the members' coordinate on
      axis `a` and their radii. */
  function AxisOffset(us: seq<Unit>, a: Axis, v: real, d: real, testBound: real, shiftBound: real): real
    decreases |us|
  {
    if us == [] then v
    else AxisOffset(us[1..], a, AxisAdjust(Coord(us[0], a), us[0].radius, v, d, testBound, shiftBound),
                    d, testBound, shiftBound)
  }

  /** The vector offset splits into two independent one-axis computations: x uses
      the members' x, the height as test bound and the width as shift bound; y uses
      the members' y and the height for both. */
  lemma {:induction false} OffsetPerAxis(us: seq<Unit>, v: Vec2, d: Vec2, width: real, height: real)
    ensures Offset(us, v, d, width, height).x == AxisOffset(us, X, v.x, d.x, height, width)
    ensures Offset(us, v, d, width, height).y == AxisOffset(us, Y, v.y, d.y, height, height)
    decreases |us|
  {
    if us != [] {
      OffsetPerAxis(us[1..], Adjust(us[0], v, d, width, height), d, width, height);
    }
  }

  /** `AxisOffset` depends on the members only through their coordinate on its axis
      and their radii. */
  lemma {:induction false} AxisOffsetCongruent(us1: seq<Unit>, us2: seq<Unit>, a: Axis, v: real, d: real,
                                               testBound: real, shiftBound: real)
    requires |us1| == |us2|
    requires forall k :: 0 <= k < |us1| ==>
      Coord(us1[k], a) == Coord(us2[k], a) && us1[k].radius == us2[k].radius
    ensures AxisOffset(us1, a, v, d, testBound, shiftBound) == AxisOffset(us2, a, v, d, testBound, shiftBound)
    decreases |us1|
  {
    if us1 != [] {
      var v' := AxisAdjust(Coord(us1[0], a), us1[0].radius, v, d, testBound, shiftBound);
      AxisOffsetCongruent(us1[1..], us2[1..], a, v', d, testBound, shiftBound);
    }
  }

  /** The y-component of the offset does not depend on the members' x-positions or
      on the world width. */
  lemma {:induction false} OffsetYIgnoresX(us1: seq<Unit>, us2: seq<Unit>, v1: Vec2, v2: Vec2, d1: Vec2, d2: Vec2,
                        width1: real, width2: real, height: real)
    requires |us1| == |us2|
    requires forall k :: 0 <= k < |us1| ==>
      us1[k].position.y == us2[k].position.y && us1[k].radius == us2[k].radius
    requires v1.y == v2.y && d1.y == d2.y
    ensures Offset(us1, v1, d1, width1, height).y == Offset(us2, v2, d2, width2, height).y
  {
    OffsetPerAxis(us1, v1, d1, width1, height);
    OffsetPerAxis(us2, v2, d2, width2, height);
    AxisOffsetCongruent(us1, us2, Y, v1.y, d1.y, height, height);
  }

  /** The x-component of the offset does not depend on the members' y-positions. */
  lemma {:induction false} OffsetXIgnoresY(us1: seq<Unit>, us2: seq<Unit>, v1: Vec2, v2: Vec2, d1: Vec2, d2: Vec2,
                        width: real, height: real)
    requires |us1| == |us2|
    requires forall k :: 0 <= k < |us1| ==>
      us1[k].position.x == us2[k].position.x && us1[k].radius == us2[k].radius
    requires v1.x == v2.x && d1.x == d2.x
    ensures Offset(us1, v1, d1, width, height).x == Offset(us2, v2, d2, width, height).x
  {
    OffsetPerAxis(us1, v1, d1, width, height);
    OffsetPerAxis(us2, v2, d2, width, height);
    AxisOffsetCongruent(us1, us2, X, v1.x, d1.x, height, width);
  }

  /** None of a member's four tests fires for offset `v` (the upper x test compares
      against the height, as written). */
  predicate Quiet(u: Unit, v: Vec2, height: real) {
    var r := u.radius;
    && r <= u.position.x + v.x <= height - r
    && r <= u.position.y + v.y <= height - r
  }

  /** When no member triggers a boundary test, the offset passes through unchanged. */
  lemma {:induction false} OffsetWhenQuiet(us: seq<Unit>, v: Vec2, d: Vec2, width: real, height: real)
    requires forall k :: 0 <= k < |us| ==> Quiet(us[k], v, height)
    ensures Offset(us, v, d, width, height) == v
    decreases |us|
  {
    if us != [] {
      assert Adjust(us[0], v, d, width, height) == v by {
        assert Quiet(us[0], v, height);
      }
      OffsetWhenQuiet(us[1..], v, d, width, height);
    }
  }

  /** A member standing well inside a world wider than it is high, at x = 650 with
      radius 25 in an 800 x 600 world, trips the upper x test (650 > 600 - 25) and
      the offset is shifted by 800 - 25: the adjustment is not a clamp. */
  lemma UpperXTestUsesHeight(u: Unit)
    requires u.position == Vec2(650.0, 300.0) && u.radius == 25.0
    ensures Adjust(u, Zero, Zero, 800.0, 600.0) == Vec2(-775.0, 0.0)
    ensures u.position.x + Adjust(u, Zero, Zero, 800.0, 600.0).x < 0.0
  {
  }

  /** `Flock::setDestination`: the first loop folds the members' boundary tests into
      one offset; the second gives every member the destination `position + offset`
      through `Unit::setDestination`. */
  method SetDestination(f: Flock, target: Vec2, ops: UnitOps) returns (offset: Vec2, g: Flock)
    ensures offset == GroupOffset(f, target)
    ensures (forall k :: 0 <= k < |f.units| ==> Quiet(f.units[k], target.Plus(Center(f)), f.worldHeight))
      ==> offset == target.Plus(Center(f))
    ensures |g.units| == |f.units|
    ensures forall i :: 0 <= i < |f.units| ==>
      g.units[i] == ops.setDestination(f.units[i], f.units[i].position.Plus(offset))
    ensures g.(units := f.units) == f
    ensures RecordsDestination(ops) ==> forall i :: 0 <= i < |g.units| ==>
      && g.units[i].destination == g.units[i].position.Plus(offset)
      && g.units[i].position == f.units[i].position
      && g.units[i].id == f.units[i].id
  {
    var v := target.Plus(Center(f));
    ghost var v0 := v;
    var i := 0;
    while i < |f.units|
      invariant 0 <= i <= |f.units|
      invariant Offset(f.units[i..], v, target, f.worldWidth, f.worldHeight)
             == Offset(f.units, v0, target, f.worldWidth, f.worldHeight)
    {
      assert f.units[i..][1..] == f.units[i + 1..];
      v := Adjust(f.units[i], v, target, f.worldWidth, f.worldHeight);
      i := i + 1;
    }
    assert f.units[i..] == [];
    offset := v;
    if forall k :: 0 <= k < |f.units| ==> Quiet(f.units[k], v0, f.worldHeight) {
      OffsetWhenQuiet(f.units, v0, target, f.worldWidth, f.worldHeight);
    }

    var us: seq<Unit> := [];
    var j := 0;
    while j < |f.units|
      invariant 0 <= j <= |f.units|
      invariant |us| == j
      invariant forall k :: 0 <= k < j ==>
        us[k] == ops.setDestination(f.units[k], f.units[k].position.Plus(offset))
    {
      us := us + [ops.setDestination(f.units[j], f.units[j].position.Plus(offset))];
      j := j + 1;
    }
    g := f.(units := us);
  }
}
