/** The per-frame game logic of Game.cpp put together: `Game::Update` (unit motion
    and collisions, power-up pickup, game time) and the mouse part of
    `Game::ProcessInput` (selection box, box selection, group move orders). */
module GameLogic {
  import opened Geometry
  import opened Units
  import opened Flocks
  import opened Collision
  import opened PowerUps
  import opened Selection

  datatype MouseButton = LeftButton | RightButton | OtherButton

  /** `GLFW_RELEASE`, `GLFW_PRESS`, `GLFW_REPEAT`. */
  datatype Action = Release | Press | Repeat

  /** The mouse state the input layer hands to one `ProcessInput` call. */
  datatype Input = Input(button: MouseButton, action: Action, prevAction: Action, mods: nat, mouse: Vec2)

  /** The part of `Game` the modelled logic reads and writes. */
  datatype Game = Game(
    width: nat,
    height: nat,
    units: seq<Unit>,
    powerUps: seq<PowerUp>,
    box: Box,
    drawBox: bool,
    selectedUnits: seq<Unit>,
    flocks: seq<Flock>,
    gameTime: real)

  /** `recreateFlocks(selectedUnits, flocks, width, height, threshold)`, whose body is
      not part of this model. */
  type Recreate = (seq<Unit>, real, real, real) -> seq<Flock>

  /** The distance under which selected units join one flock. */
  const FlockThreshold: real := 65.0

  predicate StartsBox(inp: Input) {
    inp.button == LeftButton && inp.action == Press && inp.prevAction == Release
  }

  predicate DragsBox(inp: Input) {
    inp.button == LeftButton && inp.action == Press && inp.prevAction == Press
  }

  predicate ReleasesBox(inp: Input) {
    inp.button == LeftButton && inp.prevAction != Release && inp.action == Release
  }

  predicate OrdersMove(inp: Input) {
    inp.button == RightButton && inp.action == Press && inp.prevAction == Release
  }

  /** The modelled part of `Game::Update`: move and collide the units, let them pick
      up power-ups, advance the game time.  Power-up spawning, hazards and the score
      are not part of this model. */
  method Update(g: Game, dt: real, ops: UnitOps, cops: CollisionOps, pops: PowerUpOps) returns (h: Game)
    ensures |h.units| >= |g.units|
    ensures (|h.units| - |g.units|) + |h.powerUps| == |g.powerUps|
    ensures h.units[..|g.units|] == PassFrom(g.units, 0, dt, ops, cops)
    ensures KeepsIdentity(ops, dt) ==> forall k :: 0 <= k < |g.units| ==> h.units[k].id == g.units[k].id
    ensures h.gameTime == g.gameTime + dt
    ensures h.(units := g.units, powerUps := g.powerUps, gameTime := g.gameTime) == g
  {
    var collided := CollisionPass(g.units, dt, ops, cops);
    var ps, us := ConsumePowerUps(g.powerUps, collided, dt, pops);
    assert us[..|collided|] == collided;
    h := g.(units := us, powerUps := ps, gameTime := g.gameTime + dt);
  }

  /** The mouse part of `Game::ProcessInput`.  A right click gives every new flock
      its shared offset; the source's flocks alias the game's units, this model
      keeps the retargeted flocks in `flocks`. */
  method ProcessInput(g: Game, inp: Input, recreate: Recreate, ops: UnitOps) returns (h: Game)
    ensures StartsBox(inp) ==> h == g.(box := Box(inp.mouse, Zero), drawBox := true)
    ensures DragsBox(inp) ==> h == g.(box := g.box.(size := inp.mouse.Minus(g.box.position)))
    ensures ReleasesBox(inp) ==>
      && h.box == ReleaseBox(g.box.position, inp.mouse)
      && !h.drawBox
      && |h.units| == |g.units|
      && (forall i :: 0 <= i < |g.units| && Overlaps(g.units[i], h.box) ==> h.units[i].selected)
      && (forall i :: 0 <= i < |g.units| && !Overlaps(g.units[i], h.box) ==>
            h.units[i].selected == (inp.mods == ModShift && g.units[i].selected))
      && (forall i :: 0 <= i < |g.units| ==> h.units[i] == g.units[i].(selected := h.units[i].selected))
      && h.(units := g.units, box := g.box, drawBox := g.drawBox) == g
    ensures OrdersMove(inp) ==>
      var created := recreate(SelectedOf(g.units), g.width as real, g.height as real, FlockThreshold);
      && h.selectedUnits == SelectedOf(g.units)
      && |h.flocks| == |created|
      && (forall i :: 0 <= i < |created| ==>
            && |h.flocks[i].units| == |created[i].units|
            && forall k :: 0 <= k < |created[i].units| ==>
                 h.flocks[i].units[k] == ops.setDestination(created[i].units[k],
                   created[i].units[k].position.Plus(GroupOffset(created[i], inp.mouse))))
      && h.(selectedUnits := g.selectedUnits, flocks := g.flocks) == g
    ensures !StartsBox(inp) && !DragsBox(inp) && !ReleasesBox(inp) && !OrdersMove(inp) ==> h == g
  {
    h := g;
    if StartsBox(inp) {
      h := h.(box := Box(inp.mouse, Zero), drawBox := true);
    }
    if DragsBox(inp) {
      h := h.(box := h.box.(size := inp.mouse.Minus(h.box.position)));
    }
    if ReleasesBox(inp) {
      var dragged := Box(h.box.position, inp.mouse.Minus(h.box.position));
      h := h.(box := Normalise(dragged), drawBox := false);
      var units := SelectInBox(h.units, h.box, inp.mods);
      h := h.(units := units);
    } else if OrdersMove(inp) {
      var selected := SelectedUnits(h.units);
      var created := recreate(selected, h.width as real, h.height as real, FlockThreshold);
      var flocks: seq<Flock> := [];
      var i := 0;
      while i < |created|
        invariant 0 <= i <= |created|
        invariant |flocks| == i
        invariant forall m :: 0 <= m < i ==>
          && |flocks[m].units| == |created[m].units|
          && forall k :: 0 <= k < |created[m].units| ==>
               flocks[m].units[k] == ops.setDestination(created[m].units[k],
                 created[m].units[k].position.Plus(GroupOffset(created[m], inp.mouse)))
      {
        var offset, moved := SetDestination(created[i], inp.mouse, ops);
        flocks := flocks + [moved];
        i := i + 1;
      }
      h := h.(selectedUnits := selected, flocks := flocks);
    }
  }
}
