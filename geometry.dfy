/**
  The part of pygame's `Rect` that the simulation uses: an integer
  rectangle with its top-left corner at (x, y), width w and height h,
  the derived edges, in-place translation (`move_ip`) and the overlap
  test (`colliderect`).
*/
module Geometry {

  datatype Rect = Rect(x: int, y: int, w: int, h: int) {

    /** `rect.left` */
    function Left(): int { x }

    /** `rect.right`: one past the last column the rectangle covers */
    function Right(): int { x + w }

    /** `rect.top` */
    function Top(): int { y }

    /** `rect.bottom`: one past the last row the rectangle covers */
    function Bottom(): int { y + h }

    /** `rect.move_ip(dx, dy)`, as a value: the same rectangle shifted by (dx, dy) */
    function MoveBy(dx: int, dy: int): Rect {
      Rect(x + dx, y + dy, w, h)
    }
  }

  /**
    Axis-aligned overlap with strict inequalities on all four sides:
    rectangles whose edges merely touch do not overlap.
  */
  predicate Overlaps(a: Rect, b: Rect) {
    a.Left() < b.Right() && a.Top() < b.Bottom() &&
    a.Right() > b.Left() && a.Bottom() > b.Top()
  }

  /** Overlap does not depend on which rectangle asks. */
  lemma OverlapsSymmetric(a: Rect, b: Rect)
    ensures Overlaps(a, b) <==> Overlaps(b, a)
  {
  }

  /** Rectangles that are side by side, or one above the other, do not overlap. */
  lemma SeparatedDoNotOverlap(a: Rect, b: Rect)
    requires a.Right() <= b.Left() || b.Right() <= a.Left() ||
             a.Bottom() <= b.Top() || b.Bottom() <= a.Top()
    ensures !Overlaps(a, b)
  {
  }
}
