/** Anchor points of an element and the window in which a pointer lands on one. */
module Geometry {
  import opened Types

  /** How far outside its side an anchor sits. */
  const Margin: real := 10.0

  /** Half the side of the square window around an anchor. */
  const Tolerance: real := 10.0

  function Abs(r: real): (a: real)
    ensures a >= 0.0 && (a == r || a == -r)
  {
    if r < 0.0 then -r else r
  }

  /** p lies Margin outside the given side of e's bounding box, halfway along that side. */
  ghost predicate OnSide(e: Element, side: Side, p: Point)
  {
    match side
    case Top => p.x - e.x == (e.x + e.width) - p.x && e.y - p.y == Margin
    case Right => p.y - e.y == (e.y + e.height) - p.y && p.x - (e.x + e.width) == Margin
    case Bottom => p.x - e.x == (e.x + e.width) - p.x && p.y - (e.y + e.height) == Margin
    case Left => p.y - e.y == (e.y + e.height) - p.y && e.x - p.x == Margin
  }

  /** The anchor of an element on a side; a missing element yields the origin. */
  function ConnectionPoint(element: Option<Element>, side: Side): (p: Point)
    ensures element.None? ==> p == Point(0.0, 0.0)
    ensures element.Some? ==> OnSide(element.value, side, p)
  {
    match element
    case None => Point(0.0, 0.0)
    case Some(e) =>
      var centerX := e.x + e.width / 2.0;
      var centerY := e.y + e.height / 2.0;
      match side
      case Top => Point(centerX, e.y - Margin)
      case Right => Point(e.x + e.width + Margin, centerY)
      case Bottom => Point(centerX, e.y + e.height + Margin)
      case Left => Point(e.x - Margin, centerY)
  }

  /** OnSide pins the point down: ConnectionPoint's contract determines its result. */
  lemma OnSideUnique(e: Element, side: Side, p: Point, q: Point)
    requires OnSide(e, side, p) && OnSide(e, side, q)
    ensures p == q
  {
  }

  /** An anchor lies strictly outside the element's closed bounding box. */
  lemma AnchorOutsideBox(e: Element, side: Side)
    ensures var p := ConnectionPoint(Some(e), side);
      !(e.x <= p.x <= e.x + e.width && e.y <= p.y <= e.y + e.height)
  {
  }

  /** Moving an element by (dx, dy) moves each of its anchors by (dx, dy). */
  lemma AnchorFollowsMove(e: Element, side: Side, x: real, y: real)
    ensures var p := ConnectionPoint(Some(e), side);
      ConnectionPoint(Some(e.(x := x, y := y)), side) == Point(p.x + (x - e.x), p.y + (y - e.y))
  {
  }

  /** The pointer p is on anchor a: strictly closer than Tolerance on each axis separately. */
  predicate Near(a: Point, p: Point): (b: bool)
    ensures b <==> -Tolerance < a.x - p.x < Tolerance && -Tolerance < a.y - p.y < Tolerance
  {
    Abs(a.x - p.x) < Tolerance && Abs(a.y - p.y) < Tolerance
  }

  /** The window is a square, not a disc, and its border is excluded. */
  lemma NearIsStrictSquare(a: Point)
    ensures Near(a, Point(a.x + 9.0, a.y + 9.0))
    ensures !Near(a, Point(a.x + Tolerance, a.y)) && !Near(a, Point(a.x, a.y - Tolerance))
  {
  }
}
