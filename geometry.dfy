/**
 * Bounding boxes as `getBoundingClientRect` reports them, with exact real coordinates, and
 * the point a connector line attaches to: the centre of a post's box, relative to the grid.
 */
module Geometry {

  datatype Rect = Rect(left: real, top: real, width: real, height: real)

  datatype Point = Point(x: real, y: real)

  /** `(r.left + r.width/2) - grid.left`, `(r.top + r.height/2) - grid.top`. */
  function CentreIn(r: Rect, grid: Rect): (p: Point)
    ensures p.x + grid.left - r.left == r.width / 2.0
    ensures p.y + grid.top - r.top == r.height / 2.0
  {
    Point((r.left + r.width / 2.0) - grid.left, (r.top + r.height / 2.0) - grid.top)
  }

  /** The box moved by `(dx, dy)`, as when the page scrolls. */
  function Shift(r: Rect, dx: real, dy: real): (s: Rect)
    ensures s.width == r.width && s.height == r.height
  {
    Rect(r.left + dx, r.top + dy, r.width, r.height)
  }

  /**
   * The attachment point depends only on where the post sits inside the grid: moving the
   * grid and the post together (scrolling the viewport) leaves it where it was.
   */
  lemma {:induction false} CentreShiftInvariant(r: Rect, grid: Rect, dx: real, dy: real)
    ensures CentreIn(Shift(r, dx, dy), Shift(grid, dx, dy)) == CentreIn(r, grid)
  {
  }

  /** The attachment point lies inside the post's box, translated into grid coordinates. */
  lemma {:induction false} CentreInsideBox(r: Rect, grid: Rect)
    requires r.width >= 0.0 && r.height >= 0.0
    ensures var p := CentreIn(r, grid);
      && r.left - grid.left <= p.x <= r.left - grid.left + r.width
      && r.top - grid.top <= p.y <= r.top - grid.top + r.height
  {
  }
}
