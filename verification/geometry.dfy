/**
 Integer rectangles with the semantics of pygame's `Rect`: a top-left corner
 and a size, derived edges and centres, and setters that move the rectangle
 without resizing it. Centres use integer halving, as pygame does.
 */
module Geometry {

  /** A pixel position. */
  datatype Point = Point(x: int, y: int)

  datatype Rect = Rect(x: int, y: int, w: nat, h: nat) {

    function Left(): int { x }
    function Top(): int { y }
    function Right(): int { x + w }
    function Bottom(): int { y + h }
    function CenterX(): int { x + w / 2 }
    function CenterY(): int { y + h / 2 }

    /** Moves the rectangle horizontally so that `Left()` becomes `v`. */
    function WithLeft(v: int): (r: Rect)
      ensures r.Left() == v && r.y == y && r.w == w && r.h == h
    {
      this.(x := v)
    }

    /** Moves the rectangle horizontally so that `Right()` becomes `v`. */
    function WithRight(v: int): (r: Rect)
      ensures r.Right() == v && r.y == y && r.w == w && r.h == h
    {
      this.(x := v - w)
    }

    /** Moves the rectangle horizontally so that `CenterX()` becomes `v`. */
    function WithCenterX(v: int): (r: Rect)
      ensures r.CenterX() == v && r.y == y && r.w == w && r.h == h
    {
      this.(x := v - w / 2)
    }

    /** Moves the rectangle vertically so that `Top()` becomes `v`. */
    function WithTop(v: int): (r: Rect)
      ensures r.Top() == v && r.x == x && r.w == w && r.h == h
    {
      this.(y := v)
    }

    /** Moves the rectangle vertically so that `Bottom()` becomes `v`. */
    function WithBottom(v: int): (r: Rect)
      ensures r.Bottom() == v && r.x == x && r.w == w && r.h == h
    {
      this.(y := v - h)
    }

    /** Moves the rectangle vertically so that `CenterY()` becomes `v`. */
    function WithCenterY(v: int): (r: Rect)
      ensures r.CenterY() == v && r.x == x && r.w == w && r.h == h
    {
      this.(y := v - h / 2)
    }
  }

  /** The two rectangles share interior points. */
  predicate Overlap(a: Rect, b: Rect)
  {
    a.Left() < b.Right() && b.Left() < a.Right() && a.Top() < b.Bottom() && b.Top() < a.Bottom()
  }
}
