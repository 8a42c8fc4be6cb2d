/** The records the game logic works on, and the collaborators whose bodies are not
    part of this model (Unit.cpp, PowerUp.cpp, CollisionUtil.cpp), passed in as
    uninterpreted functions. */
module Units {
  import opened Geometry

  /** A sheep.  `id` stands for the object's identity (the source keeps `Unit*`
      pointers); `radius` is the value `Unit::radius()` reports, which Unit.cpp
      (not part of this model) computes. */
  datatype Unit = Unit(
    id: nat,
    position: Vec2,
    size: Vec2,
    radius: real,
    destination: Vec2,
    moving: bool,
    selected: bool)

  /** `Unit::select()`.  Its body, in Unit.cpp, is not part of this model; it is
      taken to set the selection flag and change nothing else. */
  function Select(u: Unit): Unit {
    u.(selected := true)
  }

  /** `Unit::deselect()`, taken likewise to clear only the selection flag. */
  function Deselect(u: Unit): Unit {
    u.(selected := false)
  }

  /** A life power-up lying on the field. */
  datatype PowerUp = PowerUp(position: Vec2, size: Vec2)

  /** The unit behaviour the game logic calls but whose bodies are not modelled:
      `Unit::move(dt)`, `Unit::stop()`, `Unit::setDestination(target)`. */
  datatype UnitOps = UnitOps(
    move: (Unit, real) -> Unit,
    stop: Unit -> Unit,
    setDestination: (Unit, Vec2) -> Unit)

  /** The collision helpers declared in CollisionUtil.h. */
  datatype CollisionOps = CollisionOps(
    doesPenetrate: (Unit, Unit) -> bool,
    penetrationVector: (Unit, Unit) -> Vec2)

  /** `PowerUp::update(dt)`, `PowerUp::inHitbox(unit)` and the `Unit` constructor
      called with a position and a size. */
  datatype PowerUpOps = PowerUpOps(
    update: (PowerUp, real) -> PowerUp,
    inHitbox: (PowerUp, Unit) -> bool,
    newUnit: (Vec2, Vec2) -> Unit)

  /** `stop()` does not move a unit and neither `move` nor `stop` replaces it
      by another unit. */
  ghost predicate StopKeepsPosition(ops: UnitOps) {
    forall u :: ops.stop(u).position == u.position
  }

  ghost predicate KeepsIdentity(ops: UnitOps, dt: real) {
    && (forall u :: ops.move(u, dt).id == u.id)
    && (forall u :: ops.stop(u).id == u.id)
  }

  /** `setDestination(t)` records `t` as the destination of the same unit and
      leaves it where it stands. */
  ghost predicate RecordsDestination(ops: UnitOps) {
    forall u, t ::
      && ops.setDestination(u, t).destination == t
      && ops.setDestination(u, t).position == u.position
      && ops.setDestination(u, t).id == u.id
  }
}
