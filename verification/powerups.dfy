/** The power-up part of `Game::Update` (Game.cpp lines 120-138).  Each power-up is
    updated; the first unit inside its hitbox consumes it: the power-up is erased and
    a new 50 x 50 unit appears at its position.  The loop erases while iterating and
    steps its index back, so the power-up that slides into the erased slot is still
    visited.  Units added earlier in the same loop can pick up later power-ups. */
module PowerUps {
  import opened Geometry
  import opened Units

  /** The size every new sheep is created with. */
  const SheepSize := Vec2(50.0, 50.0)

  /** The power-ups still on the field and the units, part-way through the loop. */
  datatype Field = Field(powerUps: seq<PowerUp>, units: seq<Unit>)

  /** Some unit lies in the hitbox of `p`. */
  predicate Touches(p: PowerUp, us: seq<Unit>, pops: PowerUpOps) {
    exists j :: 0 <= j < |us| && pops.inHitbox(p, us[j])
  }

  /** One power-up's turn: update it, then either a unit picks it up or it stays. */
  function Visit(st: Field, p: PowerUp, dt: real, pops: PowerUpOps): Field {
    var q := pops.update(p, dt);
    if Touches(q, st.units, pops) then Field(st.powerUps, st.units + [pops.newUnit(q.position, SheepSize)])
    else Field(st.powerUps + [q], st.units)
  }

  /** The turns of `ps`, in order. */
  function VisitAll(st: Field, ps: seq<PowerUp>, dt: real, pops: PowerUpOps): Field
    decreases |ps|
  {
    if ps == [] then st else VisitAll(Visit(st, ps[0], dt, pops), ps[1..], dt, pops)
  }

  /** Every power-up is accounted for exactly once: either it stays (updated) or it
      is consumed and exactly one unit is appended for it.  Existing units and
      surviving power-ups keep their places. */
  lemma {:induction false} VisitAllAccounting(st: Field, ps: seq<PowerUp>, dt: real, pops: PowerUpOps)
    ensures st.units <= VisitAll(st, ps, dt, pops).units
    ensures st.powerUps <= VisitAll(st, ps, dt, pops).powerUps
    ensures (|VisitAll(st, ps, dt, pops).powerUps| - |st.powerUps|)
          + (|VisitAll(st, ps, dt, pops).units| - |st.units|) == |ps|
    decreases |ps|
  {
    if ps != [] {
      VisitAllAccounting(Visit(st, ps[0], dt, pops), ps[1..], dt, pops);
    }
  }

  /** Running the turns of `a` and then those of `b` is running the turns of `a + b`. */
  lemma {:induction false} VisitAllAppend(st: Field, a: seq<PowerUp>, b: seq<PowerUp>, dt: real, pops: PowerUpOps)
    ensures VisitAll(st, a + b, dt, pops) == VisitAll(VisitAll(st, a, dt, pops), b, dt, pops)
    decreases |a|
  {
    if a == [] {
      assert a + b == b;
    } else {
      assert (a + b)[1..] == a[1..] + b;
      VisitAllAppend(Visit(st, a[0], dt, pops), a[1..], b, dt, pops);
    }
  }

  /** The fate of power-up `m`: on its turn it either survives as its update, when no
      unit touches it, or is consumed and adds exactly one unit at its updated
      position, when one does; nothing else changes on that turn, and what the turn
      produced stays in place until the end of the loop. */
  lemma PowerUpFate(st: Field, ps: seq<PowerUp>, m: nat, dt: real, pops: PowerUpOps)
    requires m < |ps|
    ensures var before := VisitAll(st, ps[..m], dt, pops);
            var after := VisitAll(st, ps[..m + 1], dt, pops);
            var q := pops.update(ps[m], dt);
            && (!Touches(q, before.units, pops) ==>
                  after == Field(before.powerUps + [q], before.units))
            && (Touches(q, before.units, pops) ==>
                  after == Field(before.powerUps, before.units + [pops.newUnit(q.position, SheepSize)]))
            && after.powerUps <= VisitAll(st, ps, dt, pops).powerUps
            && after.units <= VisitAll(st, ps, dt, pops).units
  {
    var before := VisitAll(st, ps[..m], dt, pops);
    assert ps[..m + 1] == ps[..m] + [ps[m]];
    VisitAllAppend(st, ps[..m], [ps[m]], dt, pops);
    assert VisitAll(before, [ps[m]], dt, pops) == VisitAll(Visit(before, ps[m], dt, pops), [], dt, pops);
    assert ps == ps[..m + 1] + ps[m + 1..];
    VisitAllAppend(st, ps[..m + 1], ps[m + 1..], dt, pops);
    VisitAllAccounting(VisitAll(st, ps[..m + 1], dt, pops), ps[m + 1..], dt, pops);
  }

  /** Every appended unit was created at the (updated) position of one of the
      power-ups, and every surviving power-up is the update of one of them. */
  lemma {:induction false} VisitAllOrigins(st: Field, ps: seq<PowerUp>, dt: real, pops: PowerUpOps)
    ensures forall k :: |st.units| <= k < |VisitAll(st, ps, dt, pops).units| ==>
      exists m :: 0 <= m < |ps|
        && VisitAll(st, ps, dt, pops).units[k] == pops.newUnit(pops.update(ps[m], dt).position, SheepSize)
    ensures forall k :: |st.powerUps| <= k < |VisitAll(st, ps, dt, pops).powerUps| ==>
      exists m :: 0 <= m < |ps| && VisitAll(st, ps, dt, pops).powerUps[k] == pops.update(ps[m], dt)
    decreases |ps|
  {
    if ps != [] {
      var st' := Visit(st, ps[0], dt, pops);
      var r := VisitAll(st, ps, dt, pops);
      assert r == VisitAll(st', ps[1..], dt, pops);
      VisitAllOrigins(st', ps[1..], dt, pops);
      VisitAllAccounting(st', ps[1..], dt, pops);
      forall k | |st.units| <= k < |r.units|
        ensures exists m :: 0 <= m < |ps| && r.units[k] == pops.newUnit(pops.update(ps[m], dt).position, SheepSize)
      {
        if k < |st'.units| {
          assert r.units[k] == st'.units[k];
          assert 0 <= 0 < |ps| && r.units[k] == pops.newUnit(pops.update(ps[0], dt).position, SheepSize);
        } else {
          var m' :| 0 <= m' < |ps[1..]|
            && r.units[k] == pops.newUnit(pops.update(ps[1..][m'], dt).position, SheepSize);
          assert ps[1..][m'] == ps[m' + 1];
        }
      }
      forall k | |st.powerUps| <= k < |r.powerUps|
        ensures exists m :: 0 <= m < |ps| && r.powerUps[k] == pops.update(ps[m], dt)
      {
        if k < |st'.powerUps| {
          assert r.powerUps[k] == st'.powerUps[k];
          assert 0 <= 0 < |ps| && r.powerUps[k] == pops.update(ps[0], dt);
        } else {
          var m' :| 0 <= m' < |ps[1..]| && r.powerUps[k] == pops.update(ps[1..][m'], dt);
          assert ps[1..][m'] == ps[m' + 1];
        }
      }
    } else {
      assert VisitAll(st, ps, dt, pops) == st;
    }
  }

  /** With no units on the field nothing is picked up: every power-up stays, updated
      and in its order. */
  lemma {:induction false} VisitAllWithoutUnits(st: Field, ps: seq<PowerUp>, dt: real, pops: PowerUpOps)
    requires st.units == []
    ensures VisitAll(st, ps, dt, pops).units == []
    ensures |VisitAll(st, ps, dt, pops).powerUps| == |st.powerUps| + |ps|
    ensures forall k :: 0 <= k < |ps| ==>
      VisitAll(st, ps, dt, pops).powerUps[|st.powerUps| + k] == pops.update(ps[k], dt)
    decreases |ps|
  {
    if ps != [] {
      var st' := Visit(st, ps[0], dt, pops);
      VisitAllWithoutUnits(st', ps[1..], dt, pops);
      VisitAllAccounting(st', ps[1..], dt, pops);
      forall k | 1 <= k < |ps|
        ensures VisitAll(st, ps, dt, pops).powerUps[|st.powerUps| + k] == pops.update(ps[k], dt)
      {
        assert ps[1..][k - 1] == ps[k];
      }
    }
  }

  /** The power-up loop as written: erase at `i`, step `i` back, append a unit,
      break.  The index is unsigned in the source; stepping back from 0 wraps and
      the loop's `i++` wraps it back to 0, which the signed index here mirrors. */
  method ConsumePowerUps(powerUps: seq<PowerUp>, units: seq<Unit>, dt: real, pops: PowerUpOps)
    returns (ps: seq<PowerUp>, us: seq<Unit>)
    ensures Field(ps, us) == VisitAll(Field([], units), powerUps, dt, pops)
    ensures units <= us
    ensures |ps| + (|us| - |units|) == |powerUps|
  {
    ps := powerUps;
    us := units;
    var i: int := 0;
    ghost var done := 0;
    while i < |ps|
      invariant 0 <= i <= |ps|
      invariant 0 <= done <= |powerUps|
      invariant ps[i..] == powerUps[done..]
      invariant VisitAll(Field(ps[..i], us), ps[i..], dt, pops) == VisitAll(Field([], units), powerUps, dt, pops)
      decreases |ps| - i
    {
      ghost var before := Field(ps[..i], us);
      ghost var rest := ps[i..];
      ghost var q := pops.update(ps[i], dt);
      assert rest[1..] == ps[i + 1..];
      assert VisitAll(before, rest, dt, pops) == VisitAll(Visit(before, ps[i], dt, pops), ps[i + 1..], dt, pops);
      ps := ps[i := pops.update(ps[i], dt)];
      ghost var picked := false;
      var j := 0;
      while j < |us|
        invariant 0 <= j <= |us|
        invariant us == before.units && ps == before.powerUps + [q] + rest[1..]
        invariant forall m :: 0 <= m < j ==> !pops.inHitbox(q, us[m])
      {
        if pops.inHitbox(ps[i], us[j]) {
          var tempPosition := ps[i].position;
          ps := ps[..i] + ps[i + 1..];
          i := i - 1;
          us := us + [pops.newUnit(tempPosition, SheepSize)];
          picked := true;
          assert Touches(q, before.units, pops);
          assert Field(ps[..i + 1], us) == Visit(before, rest[0], dt, pops);
          break;
        }
        j := j + 1;
      }
      if !picked {
        assert !Touches(q, before.units, pops);
        assert Field(ps[..i + 1], us) == Visit(before, rest[0], dt, pops);
      }
      assert ps[i + 1..] == rest[1..];
      i := i + 1;
      done := done + 1;
    }
    assert ps[i..] == [];
    assert ps[..i] == ps;
    VisitAllAccounting(Field([], units), powerUps, dt, pops);
  }
}
