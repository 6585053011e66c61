/**
 The tile scan of main.py `Game.new`: the level map is a list of text
 rows; each tile character places something at the tile's top-left pixel
 (column and row times the tile size). '1' is a wall, 'P' the player, 'E'
 a mob and 'W' a weapon pickup. The pathfinding graph receives the wall
 tiles back in tile units, by dividing the wall pixels by the tile size.
 */
module Level {
  import opened Options
  import opened Geometry

  /** A tile's grid coordinates, the vertex identity of the pathfinding graph. */
  datatype Tile = Tile(col: int, row: int)

  /** The tiles of text row `line` (row number `row`) holding character `ch`, left to right. */
  function RowCells(line: string, row: int, ch: char): seq<Tile>
    decreases |line|
  {
    if |line| == 0 then []
    else RowCells(line[..|line| - 1], row, ch) + (if line[|line| - 1] == ch then [Tile(|line| - 1, row)] else [])
  }

  /** The tiles of the map holding character `ch`, row by row. */
  function Cells(grid: seq<string>, ch: char): seq<Tile>
    decreases |grid|
  {
    if |grid| == 0 then []
    else Cells(grid[..|grid| - 1], ch) + RowCells(grid[|grid| - 1], |grid| - 1, ch)
  }

  /** The top-left pixel of a tile. */
  function Pixel(t: Tile, size: int): Point
  {
    Point(t.col * size, t.row * size)
  }

  function ToPixels(ts: seq<Tile>, size: int): (ps: seq<Point>)
    ensures |ps| == |ts|
  {
    seq(|ts|, i requires 0 <= i < |ts| => Pixel(ts[i], size))
  }

  /** Pixel positions back to tiles, by floor division as in main.py line 243. */
  function ToTiles(ps: seq<Point>, size: int): (ts: seq<Tile>)
    requires size > 0
    ensures |ts| == |ps|
  {
    seq(|ps|, i requires 0 <= i < |ps| => Tile(ps[i].x / size, ps[i].y / size))
  }

  /** The pixel of the last tile in the list, if any: the position of the last 'P' wins. */
  function LastPixel(ts: seq<Tile>, size: int): Option<Point>
  {
    if |ts| == 0 then None else Some(Pixel(ts[|ts| - 1], size))
  }

  /**
   What the scan produces: obstacle, mob and pickup positions, the
   argument passed to the player's constructor, and the graph's walls.
   */
  datatype Layout = Layout(
    walls: seq<Point>,
    mobs: seq<Point>,
    player: Option<Point>,  // the pixel handed to `Player(...)`, not where the sprite ends up
    weapons: seq<Point>,
    graphWalls: seq<Tile>)

  lemma MulAtLeast(k: int, t: int)
    requires k >= 1 && t > 0
    ensures k * t >= t
  {
  }

  /** Dividing a scaled coordinate by the scale gives the coordinate back. */
  lemma ScaleDivides(c: int, size: int)
    requires size > 0
    ensures (c * size) / size == c
  {
    var q := (c * size) / size;
    var r := (c * size) % size;
    assert c * size == size * q + r;
    assert (c - q) * size == r;
    if c - q >= 1 {
      MulAtLeast(c - q, size);
    } else if q - c >= 1 {
      MulAtLeast(q - c, size);
    }
  }

  /** Round trip: converting tiles to pixels and back gives the same tiles, in the same order. */
  lemma TilesPixelsRoundTrip(ts: seq<Tile>, size: int)
    requires size > 0
    ensures ToTiles(ToPixels(ts, size), size) == ts
  {
    forall i | 0 <= i < |ts|
      ensures ToTiles(ToPixels(ts, size), size)[i] == ts[i]
    {
      ScaleDivides(ts[i].col, size);
      ScaleDivides(ts[i].row, size);
    }
  }

  lemma ToPixelsAppend(a: seq<Tile>, b: seq<Tile>, size: int)
    ensures ToPixels(a + b, size) == ToPixels(a, size) + ToPixels(b, size)
  {
  }

  /** A tile is listed for `ch` exactly when it lies on the row and holds `ch`. */
  lemma {:induction false} RowCellsMembers(line: string, row: int, ch: char, t: Tile)
    ensures t in RowCells(line, row, ch) <==> t.row == row && 0 <= t.col < |line| && line[t.col] == ch
    decreases |line|
  {
    if |line| > 0 {
      var init := line[..|line| - 1];
      RowCellsMembers(init, row, ch, t);
      if 0 <= t.col < |init| {
        assert init[t.col] == line[t.col];
      }
    }
  }

  /** A tile is listed for `ch` exactly when it lies inside the map and holds `ch`. */
  lemma {:induction false} CellsMembers(grid: seq<string>, ch: char, t: Tile)
    ensures t in Cells(grid, ch) <==>
              0 <= t.row < |grid| && 0 <= t.col < |grid[t.row]| && grid[t.row][t.col] == ch
    decreases |grid|
  {
    if |grid| > 0 {
      var init := grid[..|grid| - 1];
      CellsMembers(init, ch, t);
      RowCellsMembers(grid[|grid| - 1], |grid| - 1, ch, t);
      if 0 <= t.row < |init| {
        assert init[t.row] == grid[t.row];
      }
    }
  }

  /** `a` comes strictly before `b` in row-major order. */
  predicate Before(a: Tile, b: Tile)
  {
    a.row < b.row || (a.row == b.row && a.col < b.col)
  }

  predicate RowMajor(ts: seq<Tile>)
  {
    forall i, j :: 0 <= i < j < |ts| ==> Before(ts[i], ts[j])
  }

  /** A row's tiles are on that row, inside it, and strictly left to right. */
  lemma {:induction false} RowCellsOrdered(line: string, row: int, ch: char)
    ensures RowMajor(RowCells(line, row, ch))
    ensures forall i :: 0 <= i < |RowCells(line, row, ch)| ==>
              RowCells(line, row, ch)[i].row == row && 0 <= RowCells(line, row, ch)[i].col < |line|
    decreases |line|
  {
    if |line| > 0 {
      RowCellsOrdered(line[..|line| - 1], row, ch);
    }
  }

  /** The scan lists tiles in row-major order, each once, all inside the map. */
  lemma {:induction false} CellsOrdered(grid: seq<string>, ch: char)
    ensures RowMajor(Cells(grid, ch))
    ensures forall i :: 0 <= i < |Cells(grid, ch)| ==> 0 <= Cells(grid, ch)[i].row < |grid|
    decreases |grid|
  {
    if |grid| > 0 {
      var init := grid[..|grid| - 1];
      CellsOrdered(init, ch);
      RowCellsOrdered(grid[|grid| - 1], |grid| - 1, ch);
    }
  }

  /** No tile is both a wall and a mob spawn: each tile contributes to at most one list. */
  lemma WallsAndMobsDisjoint(grid: seq<string>, t: Tile)
    ensures !(t in Cells(grid, '1') && t in Cells(grid, 'E'))
  {
    CellsMembers(grid, '1', t);
    CellsMembers(grid, 'E', t);
  }

  /** Adding one more character to a row adds at most that tile to its list. */
  lemma RowCellsSnoc(line: string, k: nat, row: int, ch: char)
    requires k < |line|
    ensures RowCells(line[..k + 1], row, ch) ==
              RowCells(line[..k], row, ch) + (if line[k] == ch then [Tile(k, row)] else [])
  {
    assert line[..k + 1][..k] == line[..k];
  }

  /** Adding one more row to the map appends that row's tiles. */
  lemma CellsSnoc(grid: seq<string>, k: nat, ch: char)
    requires k < |grid|
    ensures Cells(grid[..k + 1], ch) == Cells(grid[..k], ch) + RowCells(grid[k], k, ch)
  {
    assert grid[..k + 1][..k] == grid[..k];
  }

  /**
   The tile scan of `Game.new`: walls, mobs and weapon pickups at the
   top-left pixel of each of their tiles in row-major order, the pixel of
   the last 'P' tile as the argument to the player's constructor, and the
   graph's walls as those same wall tiles.
   */
  method LoadLevel(grid: seq<string>, tileSize: int) returns (lay: Layout)
    requires tileSize > 0
    ensures lay.walls == ToPixels(Cells(grid, '1'), tileSize)
    ensures lay.mobs == ToPixels(Cells(grid, 'E'), tileSize)
    ensures lay.weapons == ToPixels(Cells(grid, 'W'), tileSize)
    ensures lay.player == LastPixel(Cells(grid, 'P'), tileSize)
    ensures lay.graphWalls == Cells(grid, '1')
  {
    var walls: seq<Point> := [];
    var mobs: seq<Point> := [];
    var weapons: seq<Point> := [];
    var player: Option<Point> := None;
    var row := 0;
    while row < |grid|
      invariant 0 <= row <= |grid|
      invariant walls == ToPixels(Cells(grid[..row], '1'), tileSize)
      invariant mobs == ToPixels(Cells(grid[..row], 'E'), tileSize)
      invariant weapons == ToPixels(Cells(grid[..row], 'W'), tileSize)
      invariant player == LastPixel(Cells(grid[..row], 'P'), tileSize)
    {
      var tiles := grid[row];
      var col := 0;
      while col < |tiles|
        invariant 0 <= col <= |tiles|
        invariant walls == ToPixels(Cells(grid[..row], '1') + RowCells(tiles[..col], row, '1'), tileSize)
        invariant mobs == ToPixels(Cells(grid[..row], 'E') + RowCells(tiles[..col], row, 'E'), tileSize)
        invariant weapons == ToPixels(Cells(grid[..row], 'W') + RowCells(tiles[..col], row, 'W'), tileSize)
        invariant player == LastPixel(Cells(grid[..row], 'P') + RowCells(tiles[..col], row, 'P'), tileSize)
      {
        var tile := tiles[col];
        RowCellsSnoc(tiles, col, row, '1');
        RowCellsSnoc(tiles, col, row, 'E');
        RowCellsSnoc(tiles, col, row, 'W');
        RowCellsSnoc(tiles, col, row, 'P');
        if tile == '1' {
          ToPixelsAppend(Cells(grid[..row], '1') + RowCells(tiles[..col], row, '1'), [Tile(col, row)], tileSize);
          walls := walls + [Point(col * tileSize, row * tileSize)];
        }
        if tile == 'P' {
          player := Some(Point(col * tileSize, row * tileSize));
        }
        if tile == 'E' {
          ToPixelsAppend(Cells(grid[..row], 'E') + RowCells(tiles[..col], row, 'E'), [Tile(col, row)], tileSize);
          mobs := mobs + [Point(col * tileSize, row * tileSize)];
        }
        if tile == 'W' {
          ToPixelsAppend(Cells(grid[..row], 'W') + RowCells(tiles[..col], row, 'W'), [Tile(col, row)], tileSize);
          weapons := weapons + [Point(col * tileSize, row * tileSize)];
        }
        col := col + 1;
      }
      assert tiles[..|tiles|] == tiles;
      CellsSnoc(grid, row, '1');
      CellsSnoc(grid, row, 'E');
      CellsSnoc(grid, row, 'W');
      CellsSnoc(grid, row, 'P');
      row := row + 1;
    }
    assert grid[..|grid|] == grid;
    TilesPixelsRoundTrip(Cells(grid, '1'), tileSize);
    lay := Layout(walls, mobs, player, weapons, ToTiles(walls, tileSize));
  }
}
