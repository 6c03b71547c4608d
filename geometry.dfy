/** Axis-aligned rectangles and the overlap test every collision in the game uses. */
module Geometry {

  /** A rectangle given by its top-left corner and its size, as every game entity carries it. */
  datatype Rect = Rect(x: real, y: real, width: real, height: real)

  /** Game.checkCollision: the four strict inequalities, in the order the game writes them. */
  predicate CheckCollision(rect1: Rect, rect2: Rect)
  {
    rect1.x < rect2.x + rect2.width &&
    rect1.x + rect1.width > rect2.x &&
    rect1.y < rect2.y + rect2.height &&
    rect1.height + rect1.y > rect2.y
  }

  /** The point (px, py) lies strictly inside r. */
  predicate Inside(r: Rect, px: real, py: real)
  {
    r.x < px < r.x + r.width && r.y < py < r.y + r.height
  }

  /** A rectangle that has an interior. */
  predicate Proper(r: Rect)
  {
    r.width > 0.0 && r.height > 0.0
  }

  /** The overlap test does not depend on which rectangle is passed first. */
  lemma CollisionSymmetric(a: Rect, b: Rect)
    ensures CheckCollision(a, b) <==> CheckCollision(b, a)
  {
  }

  /** For rectangles with an interior, the test holds exactly when the two interiors share a point. */
  lemma CollisionMeansCommonPoint(a: Rect, b: Rect)
    requires Proper(a) && Proper(b)
    ensures CheckCollision(a, b) <==> exists px: real, py: real :: Inside(a, px, py) && Inside(b, px, py)
  {
    if CheckCollision(a, b) {
      var left := if a.x < b.x then b.x else a.x;
      var right := if a.x + a.width < b.x + b.width then a.x + a.width else b.x + b.width;
      var top := if a.y < b.y then b.y else a.y;
      var bottom := if a.y + a.height < b.y + b.height then a.y + a.height else b.y + b.height;
      var px, py := (left + right) / 2.0, (top + bottom) / 2.0;
      assert Inside(a, px, py) && Inside(b, px, py);
    }
  }
}
