/** Mouse selection in `Game::ProcessInput` (Game.cpp lines 166-223): the selection
    box dragged with the left button, the units it selects on release, and the
    list of selected units a right click hands to the flock builder. */
module Selection {
  import opened Geometry
  import opened Units

  /** The selection box: a corner and a size, which may be negative while dragging. */
  datatype Box = Box(position: Vec2, size: Vec2)

  /** `GLFW_MOD_SHIFT`. */
  const ModShift: nat := 1

  /** Lines 184-193: make both sizes non-negative by moving the corner. */
  function Normalise(b: Box): (n: Box)
    ensures n.size.x >= 0.0 && n.size.y >= 0.0
    ensures n.position.x == Min(b.position.x, b.position.x + b.size.x)
    ensures n.position.x + n.size.x == Max(b.position.x, b.position.x + b.size.x)
    ensures n.position.y == Min(b.position.y, b.position.y + b.size.y)
    ensures n.position.y + n.size.y == Max(b.position.y, b.position.y + b.size.y)
  {
    var b1 := if b.size.x < 0.0 then
      var s := b.size.x * -1.0; Box(b.position.(x := b.position.x - s), b.size.(x := s))
      else b;
    if b1.size.y < 0.0 then
      var s := b1.size.y * -1.0; Box(b1.position.(y := b1.position.y - s), b1.size.(y := s))
    else b1
  }

  /** Lines 181-193: the box spanned by the press point and the release point. */
  function ReleaseBox(press: Vec2, release: Vec2): (b: Box)
    ensures b.size.x >= 0.0 && b.size.y >= 0.0
    ensures b.position == Vec2(Min(press.x, release.x), Min(press.y, release.y))
    ensures b.position.Plus(b.size) == Vec2(Max(press.x, release.x), Max(press.y, release.y))
  {
    Normalise(Box(press, release.Minus(press)))
  }

  /** Lines 200-203: the unit's square of side `size` around its position strictly
      overlaps the box. */
  predicate Overlaps(u: Unit, b: Box) {
    && u.position.x + u.size.x / 2.0 > b.position.x
    && u.position.x - u.size.x / 2.0 < b.position.x + b.size.x
    && u.position.y + u.size.y / 2.0 > b.position.y
    && u.position.y - u.size.y / 2.0 < b.position.y + b.size.y
  }

  /** Lines 197-212: select the units the box overlaps; deselect the others unless
      the modifiers are exactly shift. */
  method SelectInBox(units: seq<Unit>, box: Box, mods: nat) returns (r: seq<Unit>)
    ensures |r| == |units|
    ensures forall i :: 0 <= i < |units| && Overlaps(units[i], box) ==> r[i].selected
    ensures forall i :: 0 <= i < |units| && !Overlaps(units[i], box) && mods != ModShift ==> !r[i].selected
    ensures forall i :: 0 <= i < |units| && !Overlaps(units[i], box) && mods == ModShift ==>
      r[i].selected == units[i].selected
    ensures forall i :: 0 <= i < |units| ==> r[i] == units[i].(selected := r[i].selected)
  {
    r := units;
    var i := 0;
    while i < |r|
      invariant |r| == |units|
      invariant 0 <= i <= |r|
      invariant forall k :: i <= k < |r| ==> r[k] == units[k]
      invariant forall k :: 0 <= k < i && Overlaps(units[k], box) ==> r[k].selected
      invariant forall k :: 0 <= k < i && !Overlaps(units[k], box) && mods != ModShift ==> !r[k].selected
      invariant forall k :: 0 <= k < i && !Overlaps(units[k], box) && mods == ModShift ==>
        r[k].selected == units[k].selected
      invariant forall k :: 0 <= k < i ==> r[k] == units[k].(selected := r[k].selected)
    {
      if Overlaps(r[i], box) {
        r := r[i := Select(r[i])];
      } else {
        if mods != ModShift {
          r := r[i := Deselect(r[i])];
        }
      }
      i := i + 1;
    }
  }

  /** The selected units of `us`, in their order. */
  function SelectedOf(us: seq<Unit>): seq<Unit>
    decreases |us|
  {
    if us == [] then []
    else SelectedOf(us[..|us| - 1]) + (if us[|us| - 1].selected then [us[|us| - 1]] else [])
  }

  /** Filtering distributes over concatenation: the selected units keep the order
      they have in the unit list. */
  lemma {:induction false} SelectedOfAppend(a: seq<Unit>, b: seq<Unit>)
    ensures SelectedOf(a + b) == SelectedOf(a) + SelectedOf(b)
    decreases |b|
  {
    if b == [] {
      assert a + b == a;
    } else {
      var b' := b[..|b| - 1];
      assert (a + b)[..|a + b| - 1] == a + b';
      SelectedOfAppend(a, b');
    }
  }

  /** A unit is in the filtered list exactly when it is in the list and selected. */
  lemma {:induction false} SelectedOfMembers(us: seq<Unit>)
    ensures forall u :: u in SelectedOf(us) <==> u in us && u.selected
    decreases |us|
  {
    if us != [] {
      var init := us[..|us| - 1];
      SelectedOfMembers(init);
      assert us == init + [us[|us| - 1]];
      forall u | u in us && u.selected
        ensures u in SelectedOf(us)
      {
        if u != us[|us| - 1] {
          assert u in init;
        }
      }
    }
  }

  /** Lines 218-223: collect the selected units, in order. */
  method SelectedUnits(units: seq<Unit>) returns (r: seq<Unit>)
    ensures r == SelectedOf(units)
    ensures forall u :: u in r <==> u in units && u.selected
  {
    r := [];
    var i := 0;
    while i < |units|
      invariant 0 <= i <= |units|
      invariant r == SelectedOf(units[..i])
    {
      assert units[..i + 1][..i] == units[..i];
      if units[i].selected {
        r := r + [units[i]];
      }
      i := i + 1;
    }
    assert units[..i] == units;
    SelectedOfMembers(units);
  }
}
