/**
 Turning the finished maze into bodies: four boundary rectangles, one wall per
 closed interior edge, the goal in the far corner cell and the ball in the first
 cell. Lengths are exact reals; the canvas is `width` by `height` and one cell is
 `width / columns` by `height / rows`.
 */
module Walls {
  import opened Matrices
  import opened Grid
  import opened Bodies

  /** The frame around the canvas, top, bottom, left, right: static and two units thick. */
  function Boundaries(width: real, height: real): (bs: seq<Body>)
    ensures |bs| == 4
    ensures forall k :: 0 <= k < 4 ==> bs[k].isStatic && bs[k].name == DefaultRectangleLabel
    ensures bs[0].y == 0.0 && bs[1].y == height && bs[2].x == 0.0 && bs[3].x == width
  {
    [ Body(width / 2.0, 0.0, Rectangle(width, 2.0), DefaultRectangleLabel, true),
      Body(width / 2.0, height, Rectangle(width, 2.0), DefaultRectangleLabel, true),
      Body(0.0, height / 2.0, Rectangle(2.0, height), DefaultRectangleLabel, true),
      Body(width, height / 2.0, Rectangle(2.0, height), DefaultRectangleLabel, true) ]
  }

  /**
   The indices `(i, j)` of the false entries of `row` (read as row `i` of a matrix,
   starting at column `offset`), left to right.
   */
  function ClosedInRow(row: seq<bool>, i: int, offset: int): (ps: seq<(int, int)>)
    ensures |ps| == Count(row, false)
    ensures forall a, b :: (a, b) in ps <==> a == i && offset <= b < offset + |row| && !row[b - offset]
    ensures forall k, l :: 0 <= k < l < |ps| ==> ps[k].1 < ps[l].1
    ensures forall k :: 0 <= k < |ps| ==> ps[k].0 == i && offset <= ps[k].1 < offset + |row|
  {
    if |row| == 0 then []
    else
      var rest := ClosedInRow(row[1..], i, offset + 1);
      if !row[0] then [(i, offset)] + rest else rest
  }

  /**
   The indices of the false entries of `M` (row `i` of `M` read as matrix row
   `first + i`), in the order the game walks them: row by row, left to right.
   */
  function ClosedCells(M: seq<seq<bool>>, first: int): (ps: seq<(int, int)>)
    ensures |ps| == CountMatrix(M, false)
    ensures forall a, b :: (a, b) in ps <==> first <= a < first + |M| && 0 <= b < |M[a - first]| && !M[a - first][b]
    ensures forall k, l :: 0 <= k < l < |ps| ==> ps[k].0 < ps[l].0 || (ps[k].0 == ps[l].0 && ps[k].1 < ps[l].1)
    ensures forall k :: 0 <= k < |ps| ==> first <= ps[k].0 < first + |M|
  {
    if |M| == 0 then []
    else ClosedInRow(M[0], first, 0) + ClosedCells(M[1..], first + 1)
  }

  /** The wall on the closed edge `horizontals[i][j]`: along the bottom side of cell `(i, j)`. */
  function HorizontalWall(i: int, j: int, unitX: real, unitY: real): Body {
    Body(j as real * unitX + unitX / 2.0, i as real * unitY + unitY, Rectangle(unitX, 3.0), WallLabel, true)
  }

  /** The wall on the closed edge `verticals[i][j]`: along the right side of cell `(i, j)`. */
  function VerticalWall(i: int, j: int, unitX: real, unitY: real): Body {
    Body(j as real * unitX + unitX, i as real * unitY + unitY / 2.0, Rectangle(3.0, unitY), WallLabel, true)
  }

  /** Centre of cell `(i, j)`. */
  function CellCentre(i: int, j: int, unitX: real, unitY: real): (real, real) {
    (j as real * unitX + unitX / 2.0, i as real * unitY + unitY / 2.0)
  }

  /** One wall per closed entry of `horizontals`, in the game's order. */
  function HorizontalWalls(m: Maze, unitX: real, unitY: real): (ws: seq<Body>)
    ensures |ws| == CountMatrix(m.horizontals, false)
    ensures forall k :: 0 <= k < |ws| ==> ws[k].name == WallLabel && ws[k].isStatic
  {
    var ps := ClosedCells(m.horizontals, 0);
    seq(|ps|, k requires 0 <= k < |ps| => HorizontalWall(ps[k].0, ps[k].1, unitX, unitY))
  }

  /** One wall per closed entry of `verticals`, in the game's order. */
  function VerticalWalls(m: Maze, unitX: real, unitY: real): (ws: seq<Body>)
    ensures |ws| == CountMatrix(m.verticals, false)
    ensures forall k :: 0 <= k < |ws| ==> ws[k].name == WallLabel && ws[k].isStatic
  {
    var ps := ClosedCells(m.verticals, 0);
    seq(|ps|, k requires 0 <= k < |ps| => VerticalWall(ps[k].0, ps[k].1, unitX, unitY))
  }

  /**
   The horizontal walls are exactly the closed `horizontals` entries: the wall for
   `(i, j)` is built if and only if that edge is inside the grid and still closed.
   */
  lemma HorizontalWallsExact(m: Maze, unitX: real, unitY: real, i: int, j: int)
    requires WellFormed(m) && unitX > 0.0 && unitY > 0.0
    ensures HorizontalWall(i, j, unitX, unitY) in HorizontalWalls(m, unitX, unitY)
      <==> EdgeInBounds(m, Horizontal(i, j)) && !IsOpen(m, Horizontal(i, j))
  {
    var ps := ClosedCells(m.horizontals, 0);
    var ws := HorizontalWalls(m, unitX, unitY);
    if HorizontalWall(i, j, unitX, unitY) in ws {
      var k :| 0 <= k < |ws| && ws[k] == HorizontalWall(i, j, unitX, unitY);
      WallPositionInjective(ps[k].0, ps[k].1, i, j, unitX, unitY);
      assert ps[k] == (i, j);
      assert (i, j) in ps;
    }
    if EdgeInBounds(m, Horizontal(i, j)) && !IsOpen(m, Horizontal(i, j)) {
      assert (i, j) in ps;
      var k :| 0 <= k < |ps| && ps[k] == (i, j);
      assert ws[k] == HorizontalWall(i, j, unitX, unitY);
    }
  }

  /**
   The vertical walls are exactly the closed `verticals` entries: the wall for
   `(i, j)` is built if and only if that edge is inside the grid and still closed.
   */
  lemma VerticalWallsExact(m: Maze, unitX: real, unitY: real, i: int, j: int)
    requires WellFormed(m) && unitX > 0.0 && unitY > 0.0
    ensures VerticalWall(i, j, unitX, unitY) in VerticalWalls(m, unitX, unitY)
      <==> EdgeInBounds(m, Vertical(i, j)) && !IsOpen(m, Vertical(i, j))
  {
    var ps := ClosedCells(m.verticals, 0);
    var ws := VerticalWalls(m, unitX, unitY);
    if VerticalWall(i, j, unitX, unitY) in ws {
      var k :| 0 <= k < |ws| && ws[k] == VerticalWall(i, j, unitX, unitY);
      WallPositionInjective(ps[k].0, ps[k].1, i, j, unitX, unitY);
      assert ps[k] == (i, j);
      assert (i, j) in ps;
    }
    if EdgeInBounds(m, Vertical(i, j)) && !IsOpen(m, Vertical(i, j)) {
      assert (i, j) in ps;
      var k :| 0 <= k < |ps| && ps[k] == (i, j);
      assert ws[k] == VerticalWall(i, j, unitX, unitY);
    }
  }

  /** Two walls of one kind at the same place have the same indices. */
  lemma WallPositionInjective(i: int, j: int, i': int, j': int, unitX: real, unitY: real)
    requires unitX > 0.0 && unitY > 0.0
    ensures HorizontalWall(i, j, unitX, unitY) == HorizontalWall(i', j', unitX, unitY) ==> i == i' && j == j'
    ensures VerticalWall(i, j, unitX, unitY) == VerticalWall(i', j', unitX, unitY) ==> i == i' && j == j'
  {
    ScaleInjective(j, j', unitX);
    ScaleInjective(i, i', unitY);
  }

  lemma ScaleInjective(a: int, b: int, unit: real)
    requires unit > 0.0
    ensures a as real * unit == b as real * unit ==> a == b
  {
    if a != b {
      assert a as real * unit - b as real * unit == (a - b) as real * unit;
      if a > b {
        assert (a - b) as real * unit >= unit;
      } else {
        assert (b - a) as real * unit >= unit;
      }
    }
  }

  /**
   Each wall lies on the side two cells share: a horizontal wall is centred
   between cell `(i, j)` and the cell below and is one cell wide; a vertical wall
   is centred between cell `(i, j)` and the cell to its right and is one cell tall.
   */
  lemma WallsBetweenCells(i: int, j: int, unitX: real, unitY: real)
    ensures var h := HorizontalWall(i, j, unitX, unitY);
      var (ax, ay) := CellCentre(i, j, unitX, unitY);
      var (cx, cy) := CellCentre(i + 1, j, unitX, unitY);
      h.x == ax == cx && h.y == (ay + cy) / 2.0 && h.shape.width == unitX
    ensures var v := VerticalWall(i, j, unitX, unitY);
      var (ax, ay) := CellCentre(i, j, unitX, unitY);
      var (cx, cy) := CellCentre(i, j + 1, unitX, unitY);
      v.y == ay == cy && v.x == (ax + cx) / 2.0 && v.shape.height == unitY
  {
  }

  /** The goal: a static square of 0.7 cell sides, centred in the bottom-right cell. */
  function Goal(width: real, height: real, rows: nat, columns: nat): (g: Body)
    requires rows >= 1 && columns >= 1
    ensures g.x == CellCentre(rows - 1, columns - 1, width / columns as real, height / rows as real).0
    ensures g.y == CellCentre(rows - 1, columns - 1, width / columns as real, height / rows as real).1
    ensures g.name == GoalLabel && g.isStatic
  {
    var unitX := width / columns as real;
    var unitY := height / rows as real;
    LastCellCentre(width, columns);
    LastCellCentre(height, rows);
    Body(width - unitX / 2.0, height - unitY / 2.0, Rectangle(unitX * 0.7, unitY * 0.7), GoalLabel, true)
  }

  /** The ball: a movable circle of a quarter of the shorter cell side, centred in the top-left cell. */
  function Ball(width: real, height: real, rows: nat, columns: nat): (b: Body)
    requires rows >= 1 && columns >= 1
    ensures b.x == CellCentre(0, 0, width / columns as real, height / rows as real).0
    ensures b.y == CellCentre(0, 0, width / columns as real, height / rows as real).1
    ensures b.name == BallLabel && !b.isStatic
  {
    var unitX := width / columns as real;
    var unitY := height / rows as real;
    Body(unitX / 2.0, unitY / 2.0, Circle((if unitX < unitY then unitX else unitY) / 4.0), BallLabel, false)
  }

  /** Every body the game adds, in the order it adds them. */
  function Layout(m: Maze, width: real, height: real): (bs: seq<Body>)
    requires WellFormed(m)
    ensures |bs| == 4 + ClosedCount(m) + 2
    ensures forall k :: 0 <= k < |bs| ==> (bs[k].name == WallLabel <==> 4 <= k < 4 + ClosedCount(m))
    ensures forall k :: 0 <= k < |bs| ==> (bs[k].isStatic <==> k != |bs| - 1)
    ensures bs[|bs| - 2] == Goal(width, height, m.rows, m.columns)
    ensures bs[|bs| - 1] == Ball(width, height, m.rows, m.columns)
  {
    var unitX := width / m.columns as real;
    var unitY := height / m.rows as real;
    Boundaries(width, height) + HorizontalWalls(m, unitX, unitY) + VerticalWalls(m, unitX, unitY)
      + [Goal(width, height, m.rows, m.columns), Ball(width, height, m.rows, m.columns)]
  }

  /** With `n` cells of length `total / n`, the last cell's centre is half a cell before `total`. */
  lemma LastCellCentre(total: real, n: nat)
    requires n >= 1
    ensures (n - 1) as real * (total / n as real) + (total / n as real) / 2.0 == total - (total / n as real) / 2.0
  {
    var unit := total / n as real;
    assert n as real * unit == total;
    assert (n - 1) as real * unit == n as real * unit - unit;
  }
}
