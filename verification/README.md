# Sheep: flock offsets, collisions, power-ups and selection in Dafny

This project models the sequential game logic of the Sheep game: a field of
circular units (sheep) that the player selects with a mouse-drawn box and sends
off in groups ("flocks").

- **Flock** (`Sheep/Flock.cpp`). A flock collects units, keeps a running bounding
  box of their positions, and on a move order computes one offset vector. Every
  member then gets the destination `position + offset`.
- **Collision pass** (`Game::Update`). Each unit is moved in turn and compared with
  every other unit. On penetration only the unit being processed is pushed back.
  When the partner is standing still, both units are stopped.
- **Power-up pickup** (`Game::Update`). The loop erases a power-up while it
  iterates, steps its index back, and spawns a new 50 x 50 sheep where the
  power-up was.
- **Mouse selection** (`Game::ProcessInput`). The selection box is normalised on
  release. Units are selected or deselected against the box, and shift keeps the
  earlier selection. A right click collects the selected units, rebuilds the
  flocks and retargets them.

Coordinates (`GLfloat` in the source) are exact `real`s. Collaborators whose
bodies are not part of this model are uninterpreted function parameters, bundled
in datatypes:
- `UnitOps`: `Unit::move`, `stop`, `setDestination`;
- `CollisionOps`: `doesPenetrate`, `penetrationVector` from CollisionUtil.h;
- `PowerUpOps`: `PowerUp::update`, `inHitbox`, and the `Unit` constructor;
- the `Recreate` type: `recreateFlocks`.

When a property depends on how a collaborator behaves, the lemma states that
behaviour as an explicit hypothesis. For example, `StopKeepsPosition` says that
`stop()` does not move a unit. `Unit::radius()` is modelled as a field of the unit
record. Flock.h, which sets the initial `minX`/`maxX`/`minY`/`maxY`, is not part
of this model, so `NewFlock` takes those four values as parameters.

Files, one module each: `geometry.dfy` (Geometry), `units.dfy` (Units),
`flock.dfy` (Flocks), `collision.dfy` (Collision), `powerups.dfy` (PowerUps),
`selection.dfy` (Selection), `game.dfy` (GameLogic).

## Behaviour reproduced as written

- `Add` assigns `minY` in both of its y tests (Flock.cpp:17-20). So `minY` always
  becomes the new unit's y, and `maxY` is never updated. The model keeps this.
- The x update in `Add` is an `if`/`else if`. A unit left of `minX` therefore never
  widens `maxX`, which matters while the box is still inverted (`AddInvertedBox`).
- The upper x test in `setDestination` compares against `worldHeight` but shifts
  by `worldWidth` (Flock.cpp:40-41).
- The adjustment at Flock.cpp:38-46 is not a clamp. `UpperXTestUsesHeight` takes
  a member well inside an 800 x 600 world, with a (0, 0) offset before its tests
  and a (0, 0) target. Its tests leave the offset at x = -775, which puts the
  destination at x = -125, outside the world. The model proves no in-bounds
  property.
- The power-up loop's index is unsigned. Stepping back from 0 wraps around, and
  the loop's increment wraps it back to 0. The model uses a signed index that
  goes to -1 and then back to 0, which has the same effect.

## Model

| member | source | states |
|---|---|---|
| Flocks.NewFlock | Sheep/Flock.cpp:3-7 | a new flock has no members, records the world width and height it was given, and starts from the given initial box |
| Flocks.Add | Sheep/Flock.cpp:9-21 | the unit is appended after all earlier members; minX never increases and maxX never decreases; from a non-inverted box the box becomes the hull of the old box and the new x, so minX <= x <= maxX; minY always equals the new unit's y; maxY and the world are unchanged |
| Flocks.AddAllAppends | Sheep/Flock.cpp:9-21 | adding a sequence of units one by one appends exactly that sequence in order, leaves maxY and the world alone, and leaves minY at the y of the last unit added |
| Flocks.AddAllBoundsX | Sheep/Flock.cpp:13-16 | starting from minX <= maxX, repeated adds only widen the x-extent, and the final box covers the x of every unit added |
| Flocks.AddInvertedBox | Sheep/Flock.cpp:13-16 | with an inverted box, a unit that is both below minX and above maxX lowers minX but is left outside maxX (the else-if) |
| Flocks.Center | Sheep/Flock.cpp:23-26 | center() is half the box extent on each axis: minX + 2*center.x = maxX and minY + 2*center.y = maxY |
| Flocks.CenterSpansMembers | Sheep/Flock.cpp:23-26 | twice center().x bounds the x-distance between any two units added to a flock whose initial box was not inverted |
| Flocks.Adjust | Sheep/Flock.cpp:37-46 | one member's four sequential tests act on each axis separately: x is tested against worldHeight and shifted by worldWidth, y is tested and shifted by worldHeight |
| Flocks.OffsetPerAxis | Sheep/Flock.cpp:33-47 | the offset after all members' tests equals two independent one-axis computations: x over the members' x and radii, y over their y and radii |
| Flocks.AxisOffsetCongruent | Sheep/Flock.cpp:35-47 | a one-axis offset depends on the members only through their coordinate on that axis and their radii |
| Flocks.OffsetYIgnoresX | Sheep/Flock.cpp:42-46 | the y-component of the offset never depends on member x-positions or on worldWidth |
| Flocks.OffsetXIgnoresY | Sheep/Flock.cpp:37-41 | the x-component of the offset never depends on member y-positions |
| Flocks.OffsetWhenQuiet | Sheep/Flock.cpp:33-47 | if no member triggers any of the four boundary tests, the offset passes through all members unchanged |
| Flocks.UpperXTestUsesHeight | Sheep/Flock.cpp:40-41 | concrete case: a member at x = 650, radius 25, in an 800 x 600 world fires the upper x test and gets offset -775, so its destination lies outside the world |
| Flocks.SetDestination | Sheep/Flock.cpp:28-55 | the offset is target + center() folded through every member's tests, and equals target + center() when no test fires; every member gets setDestination(position + offset) with the same offset; membership, box and world are unchanged; when setDestination records its target, every destination minus its position is that one offset and positions and identities are unchanged |
| Collision.PairStep | Sheep/Game.cpp:106-116 | pair (i, i) and non-penetrating pairs change nothing; a penetrating pair subtracts penetrationVector from units[i] only; both units are stopped exactly when units[j] is not moving; no other unit changes |
| Collision.RowFrom | Sheep/Game.cpp:104-117 | the inner loop keeps the number of units |
| Collision.Row | Sheep/Game.cpp:101-117 | moving units[i] and running its inner loop keeps the number of units |
| Collision.PassFrom | Sheep/Game.cpp:99-118 | the whole pass keeps the number of units |
| Collision.RowFromTouchesPartnersOnlyByStop | Sheep/Game.cpp:104-117 | during the row of unit i, every other unit is either unchanged or stopped once by its own pair, and never pushed back |
| Collision.RowMovesOnlyItsOwnUnit | Sheep/Game.cpp:101-117 | if stop() keeps positions, the row of unit i changes no other unit's position |
| Collision.RowFromKeepsIdentity | Sheep/Game.cpp:104-117 | the inner loop keeps every slot's identity when stop does |
| Collision.PassKeepsOrder | Sheep/Game.cpp:99-118 | the pass keeps the number and order of units: slot k still holds the same unit, given that move and stop keep identity |
| Collision.CollisionPass | Sheep/Game.cpp:99-118 | the two index loops compute the pass row by row, keep the number of units and, given identity-keeping move and stop, their order |
| PowerUps.VisitAllAccounting | Sheep/Game.cpp:120-138 | existing units and surviving power-ups keep their places as prefixes, and the surviving power-ups plus the appended units number exactly the power-ups visited |
| PowerUps.VisitAllAppend | Sheep/Game.cpp:120-138 | the loop over a concatenation is the loop over the first part followed by the loop over the second, so power-ups are handled one at a time in order |
| PowerUps.PowerUpFate | Sheep/Game.cpp:122-136 | on power-up m's turn, exactly one of two things happens: no unit touches its update, and the update survives with the units unchanged; or a unit touches it, and it is removed and exactly one new 50 x 50 unit is appended at its updated position. What the turn produced stays in place until the loop ends |
| PowerUps.VisitAllOrigins | Sheep/Game.cpp:127-134 | every appended unit is created at the updated position of one of the power-ups; every surviving power-up is the update of one of them |
| PowerUps.VisitAllWithoutUnits | Sheep/Game.cpp:120-138 | with no units nothing is consumed and every power-up stays, updated and in order |
| PowerUps.ConsumePowerUps | Sheep/Game.cpp:120-138 | the erase-and-step-back loop visits every power-up once, including the one that slides into an erased slot; earlier units stay as a prefix; survivors plus appended units equal the number of power-ups |
| Selection.Normalise | Sheep/Game.cpp:184-193 | the box gets non-negative sizes, and its corner and far corner are the min and max of the original two edges on each axis |
| Selection.ReleaseBox | Sheep/Game.cpp:178-193 | after release the box has size >= 0, position = min(press, release) and position + size = max(press, release) per axis |
| Selection.SelectInBox | Sheep/Game.cpp:197-212 | a unit whose square strictly overlaps the box is selected; a non-overlapping unit is deselected unless the modifiers are exactly shift, in which case its selection is unchanged; nothing but the selection flag changes |
| Selection.SelectedOfAppend | Sheep/Game.cpp:218-223 | collecting the selected units distributes over concatenation, so they keep their order from the unit list |
| Selection.SelectedOfMembers | Sheep/Game.cpp:218-223 | a unit is collected exactly when it is in the list and selected |
| Selection.SelectedUnits | Sheep/Game.cpp:218-223 | the loop produces exactly the in-order subsequence of units whose selected flag is set |
| GameLogic.Update | Sheep/Game.cpp:96-161 | the collision pass is followed by power-up pickup: the collided units stay as a prefix, new units plus surviving power-ups equal the old number of power-ups, and the game time grows by dt |
| GameLogic.ProcessInput | Sheep/Game.cpp:164-231 | a left press opens an empty visible box at the mouse; a drag resizes it; a release hides and normalises it and selects against it; a right press stores the in-order selected units and retargets every rebuilt flock by its shared offset; any other input changes nothing |

## Left out

- Game construction, `Init`, `Render` and the sound engine: these are shaders,
  textures, sprites, animation frames and audio, not game logic.
- GameLogic.Update: does not model power-up spawning, which uses `rand()` at
  random intervals; the hazard handler's `update`, whose bodies are declared
  only; or the score printed to the console.
- GameLogic.ProcessInput: in the source, flock members alias the game's own
  units, so retargeting a flock changes those units. The model keeps the
  retargeted flocks in `Game.flocks` and leaves `Game.units` as they were,
  because `recreateFlocks` (not part of this model) decides which units the
  flocks hold.
- GameLogic.ProcessInput: does not model the S-key stop, the I-key debug counter
  or the saving of the previous mouse state, because these are input plumbing.
- Bodies of `Unit::move`, `stop`, `radius`, `setDestination`, `PowerUp::update`,
  `inHitbox`, the `Unit` constructor, `doesPenetrate`, `penetrationVector`, `norm`,
  `differentTimeInterval` and `recreateFlocks`: they are not part of this model
  and appear as parameters. `norm` and `differentTimeInterval` are called only
  inside those bodies or in the parts left out.
- HazardHandler.h: only declarations and the `Difficulty` enumeration are
  available, so the hazard lifecycle has no bodies to model.
- Selection.SelectInBox: `Unit::select()` and `Unit::deselect()` have no body in
  the available sources. They are assumed to set or clear `selected` and change
  nothing else. The same assumption underlies the release clause of
  `GameLogic.ProcessInput`.
- IEEE `GLfloat` rounding: coordinates are exact reals.
- Flocks.SetDestination: proves no in-bounds guarantee for destinations, because
  the code's adjustment does not give one (see `UpperXTestUsesHeight`).
