/**
 The player's facing: the eight compass sectors of a rotation angle
 (player.py `update_direction`) and the melee hit box placed on the side
 the player faces (player.py `swing_weapon`).

 Angles are in degrees, counter-clockwise from east; screen `y` grows
 downwards, so "north" is towards smaller `y`.
 */
module Compass {
  import opened Geometry

  datatype Direction = E | NE | N | NW | W | SW | S | SE

  /** The angle at the middle of a direction's sector. */
  function Center(d: Direction): real
  {
    match d
    case E => 0.0
    case NE => 45.0
    case N => 90.0
    case NW => 135.0
    case W => 180.0
    case SW => -135.0
    case S => -90.0
    case SE => -45.0
  }

  /**
   Reference definition of a sector: the half-open 45-degree arc
   `(Center(d) - 22.5, Center(d) + 22.5]`, taken modulo one turn.
   */
  predicate InSector(rot: real, d: Direction)
  {
    var c := Center(d);
    (c - 22.5 < rot <= c + 22.5) || (c - 22.5 < rot + 360.0 <= c + 22.5)
  }

  /** The rotations `update_direction` classifies; any other keeps the old direction. */
  predicate InRange(rot: real)
  {
    -180.0 < rot <= 180.0
  }

  /** The facing after `update_direction` with rotation `rot`, starting from `current`. */
  function UpdateDirection(rot: real, current: Direction): (d: Direction)
    ensures InRange(rot) ==> InSector(rot, d)
    ensures !InRange(rot) ==> d == current
  {
    if -22.5 < rot <= 22.5 then E
    else if 22.5 < rot <= 67.5 then NE
    else if 67.5 < rot <= 112.5 then N
    else if 112.5 < rot <= 157.5 then NW
    else if (157.5 < rot <= 180.0) || (-180.0 < rot <= -157.5) then W
    else if -157.5 < rot <= -112.5 then SW
    else if -112.5 < rot <= -67.5 then S
    else if -67.5 < rot <= -22.5 then SE
    else current
  }

  /** No rotation lies in two sectors. */
  lemma SectorsDisjoint(rot: real, d1: Direction, d2: Direction)
    requires InRange(rot) && InSector(rot, d1) && InSector(rot, d2)
    ensures d1 == d2
  {
  }

  /** Inside the classified range, `update_direction` picks a sector exactly when the rotation lies in it. */
  lemma UpdateDirectionIsSector(rot: real, current: Direction, d: Direction)
    requires InRange(rot)
    ensures UpdateDirection(rot, current) == d <==> InSector(rot, d)
  {
  }

  /** Horizontal component of a facing: 1 east, -1 west, 0 neither. */
  function Dx(d: Direction): int
  {
    match d
    case E | NE | SE => 1
    case W | NW | SW => -1
    case N | S => 0
  }

  /** Vertical component of a facing on screen: -1 north (up), 1 south, 0 neither. */
  function Dy(d: Direction): int
  {
    match d
    case N | NE | NW => -1
    case S | SE | SW => 1
    case E | W => 0
  }

  /**
   The melee box of size `w` by `h` placed against the hit rectangle `hit`
   on the side the player faces: the corner or edge midpoint of the box
   is pinned to the opposite corner or edge midpoint of `hit`.
   */
  function MeleeBox(hit: Rect, d: Direction, w: nat, h: nat): (box: Rect)
    ensures box.w == w && box.h == h
    ensures Dx(d) == 1 ==> box.Left() == hit.Right()
    ensures Dx(d) == -1 ==> box.Right() == hit.Left()
    ensures Dx(d) == 0 ==> box.CenterX() == hit.CenterX()
    ensures Dy(d) == -1 ==> box.Bottom() == hit.Top()
    ensures Dy(d) == 1 ==> box.Top() == hit.Bottom()
    ensures Dy(d) == 0 ==> box.CenterY() == hit.CenterY()
  {
    var template := Rect(0, 0, w, h);
    match d
    case E => template.WithLeft(hit.Right()).WithCenterY(hit.CenterY())
    case NE => template.WithLeft(hit.Right()).WithBottom(hit.Top())
    case N => template.WithCenterX(hit.CenterX()).WithBottom(hit.Top())
    case NW => template.WithRight(hit.Left()).WithBottom(hit.Top())
    case W => template.WithRight(hit.Left()).WithCenterY(hit.CenterY())
    case SW => template.WithRight(hit.Left()).WithTop(hit.Bottom())
    case S => template.WithCenterX(hit.CenterX()).WithTop(hit.Bottom())
    case SE => template.WithLeft(hit.Right()).WithTop(hit.Bottom())
  }

  /** The melee box touches the hit rectangle but never covers any of it. */
  lemma MeleeBoxOutsideHitRect(hit: Rect, d: Direction, w: nat, h: nat)
    ensures !Overlap(MeleeBox(hit, d, w, h), hit)
  {
  }
}
