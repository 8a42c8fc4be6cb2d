/** The collision part of `Game::Update` (Game.cpp lines 99-118).  For every unit
    `i`, in order, the unit is moved and then compared with every other unit `j`;
    on penetration only `units[i]` is pushed back, and if `units[j]` is standing
    still both are stopped.  Corrections are one-sided and order dependent. */
module Collision {
  import opened Geometry
  import opened Units

  /** `units[i]` pushed back by `penetrationVector(units[i], units[j])`. */
  function PushedBack(a: Unit, b: Unit, cops: CollisionOps): Unit {
    a.(position := a.position.Minus(cops.penetrationVector(a, b)))
  }

  /** One iteration `(i, j)` of the inner loop. */
  function PairStep(us: seq<Unit>, i: nat, j: nat, ops: UnitOps, cops: CollisionOps): (r: seq<Unit>)
    requires i < |us| && j < |us|
    ensures |r| == |us|
    ensures forall k :: 0 <= k < |us| && k != i && k != j ==> r[k] == us[k]
    ensures i == j || !cops.doesPenetrate(us[i], us[j]) ==> r == us
    ensures i != j && cops.doesPenetrate(us[i], us[j]) && us[j].moving ==>
      r[i] == PushedBack(us[i], us[j], cops) && r[j] == us[j]
    ensures i != j && cops.doesPenetrate(us[i], us[j]) && !us[j].moving ==>
      r[i] == ops.stop(PushedBack(us[i], us[j], cops)) && r[j] == ops.stop(us[j])
  {
    if i == j then us
    else if cops.doesPenetrate(us[i], us[j]) then
      var corrected := us[i := PushedBack(us[i], us[j], cops)];
      if !corrected[j].moving then
        corrected[i := ops.stop(corrected[i])][j := ops.stop(corrected[j])]
      else corrected
    else us
  }

  /** The inner loop from `j` on, for the unit `i`. */
  function RowFrom(us: seq<Unit>, i: nat, j: nat, ops: UnitOps, cops: CollisionOps): (r: seq<Unit>)
    requires i < |us| && j <= |us|
    ensures |r| == |us|
    decreases |us| - j
  {
    if j == |us| then us else RowFrom(PairStep(us, i, j, ops, cops), i, j + 1, ops, cops)
  }

  /** One iteration of the outer loop: `units[i]->move(dt)`, then the inner loop. */
  function Row(us: seq<Unit>, i: nat, dt: real, ops: UnitOps, cops: CollisionOps): (r: seq<Unit>)
    requires i < |us|
    ensures |r| == |us|
  {
    RowFrom(us[i := ops.move(us[i], dt)], i, 0, ops, cops)
  }

  /** The outer loop from `i` on. */
  function PassFrom(us: seq<Unit>, i: nat, dt: real, ops: UnitOps, cops: CollisionOps): (r: seq<Unit>)
    requires i <= |us|
    ensures |r| == |us|
    decreases |us| - i
  {
    if i == |us| then us else PassFrom(Row(us, i, dt, ops, cops), i + 1, dt, ops, cops)
  }

  /** Within the row of unit `i`, every other unit is either left alone or stopped
      once (by its own pair, so only if its index is at least `j`); it is never
      pushed back. */
  lemma {:induction false} RowFromTouchesPartnersOnlyByStop(us: seq<Unit>, i: nat, j: nat, ops: UnitOps, cops: CollisionOps)
    requires i < |us| && j <= |us|
    ensures forall k :: 0 <= k < |us| && k != i ==>
      RowFrom(us, i, j, ops, cops)[k] == us[k]
      || (j <= k && RowFrom(us, i, j, ops, cops)[k] == ops.stop(us[k]))
    decreases |us| - j
  {
    if j < |us| {
      var us' := PairStep(us, i, j, ops, cops);
      RowFromTouchesPartnersOnlyByStop(us', i, j + 1, ops, cops);
    }
  }

  /** If `stop()` keeps positions, the row of unit `i` moves no other unit. */
  lemma RowMovesOnlyItsOwnUnit(us: seq<Unit>, i: nat, dt: real, ops: UnitOps, cops: CollisionOps)
    requires i < |us|
    requires StopKeepsPosition(ops)
    ensures forall k :: 0 <= k < |us| && k != i ==> Row(us, i, dt, ops, cops)[k].position == us[k].position
  {
    RowFromTouchesPartnersOnlyByStop(us[i := ops.move(us[i], dt)], i, 0, ops, cops);
  }

  /** The inner loop keeps every unit's identity when `move` and `stop` do. */
  lemma {:induction false} RowFromKeepsIdentity(us: seq<Unit>, i: nat, j: nat, dt: real, ops: UnitOps, cops: CollisionOps)
    requires i < |us| && j <= |us|
    requires KeepsIdentity(ops, dt)
    ensures forall k :: 0 <= k < |us| ==> RowFrom(us, i, j, ops, cops)[k].id == us[k].id
    decreases |us| - j
  {
    if j < |us| {
      var us' := PairStep(us, i, j, ops, cops);
      assert forall k :: 0 <= k < |us| ==> us'[k].id == us[k].id;
      RowFromKeepsIdentity(us', i, j + 1, dt, ops, cops);
    }
  }

  /** The pass neither adds, removes nor reorders units: slot `k` still holds the
      unit that was there. */
  lemma {:induction false} PassKeepsOrder(us: seq<Unit>, i: nat, dt: real, ops: UnitOps, cops: CollisionOps)
    requires i <= |us|
    requires KeepsIdentity(ops, dt)
    ensures forall k :: 0 <= k < |us| ==> PassFrom(us, i, dt, ops, cops)[k].id == us[k].id
    decreases |us| - i
  {
    if i < |us| {
      var moved := us[i := ops.move(us[i], dt)];
      RowFromKeepsIdentity(moved, i, 0, dt, ops, cops);
      PassKeepsOrder(Row(us, i, dt, ops, cops), i + 1, dt, ops, cops);
    }
  }

  /** The collision loop of `Game::Update`, written as the source's two index loops. */
  method CollisionPass(units: seq<Unit>, dt: real, ops: UnitOps, cops: CollisionOps) returns (r: seq<Unit>)
    ensures r == PassFrom(units, 0, dt, ops, cops)
    ensures |r| == |units|
    ensures KeepsIdentity(ops, dt) ==> forall k :: 0 <= k < |r| ==> r[k].id == units[k].id
  {
    var us := units;
    var i := 0;
    while i < |us|
      invariant |us| == |units|
      invariant 0 <= i <= |us|
      invariant PassFrom(us, i, dt, ops, cops) == PassFrom(units, 0, dt, ops, cops)
    {
      us := us[i := ops.move(us[i], dt)];
      ghost var moved := us;
      var j := 0;
      while j < |us|
        invariant |us| == |units|
        invariant 0 <= j <= |us|
        invariant RowFrom(us, i, j, ops, cops) == RowFrom(moved, i, 0, ops, cops)
      {
        if i == j {
          j := j + 1;
          continue;
        }
        if cops.doesPenetrate(us[i], us[j]) {
          us := us[i := us[i].(position := us[i].position.Minus(cops.penetrationVector(us[i], us[j])))];
          if !us[j].moving {
            us := us[i := ops.stop(us[i])];
            us := us[j := ops.stop(us[j])];
          }
        }
        j := j + 1;
      }
      i := i + 1;
    }
    r := us;
    if KeepsIdentity(ops, dt) {
      PassKeepsOrder(units, 0, dt, ops, cops);
    }
  }
}
