/** Two-dimensional vectors of the game world.  The source stores coordinates as
    `GLfloat` inside `glm::vec2`; this model uses exact `real` arithmetic. */
module Geometry {

  /** A `glm::vec2`: a position, a size or a displacement. */
  datatype Vec2 = Vec2(x: real, y: real) {

    /** Component-wise sum (`glm::vec2 operator+`). */
    function Plus(o: Vec2): Vec2 {
      Vec2(x + o.x, y + o.y)
    }

    /** Component-wise difference (`glm::vec2 operator-`). */
    function Minus(o: Vec2): Vec2 {
      Vec2(x - o.x, y - o.y)
    }
  }

  /** `glm::vec2(0.0)`. */
  const Zero := Vec2(0.0, 0.0)

  function Min(a: real, b: real): real {
    if a <= b then a else b
  }

  function Max(a: real, b: real): real {
    if a <= b then b else a
  }
}
