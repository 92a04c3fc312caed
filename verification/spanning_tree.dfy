/**
 What one walk from the start cell leaves behind in fresh matrices: every cell
 visited, every cell reachable from the start through open edges, and exactly
 one open edge fewer than there are cells, so the open edges form a spanning tree.
 */
module SpanningTree {
  import opened Matrices
  import opened Grid
  import opened Paths
  import opened Invariants
  import opened Generator

  /**
   In a maze where every visited cell is settled, every cell is visited once the
   start is: walk from the start toward `(i, j)`, columns first, then rows.
   */
  lemma {:induction false} SettledCoversGrid(m: Maze, start: Cell, i: int, j: int)
    requires WellFormed(m) && CellInBounds(m, start) && Visited(m, start.row, start.column)
    requires forall a, b :: Visited(m, a, b) ==> Settled(m, a, b)
    requires InBounds(m, i, j)
    ensures Visited(m, i, j)
    decreases (if i < start.row then start.row - i else i - start.row) + (if j < start.column then start.column - j else j - start.column)
  {
    if j < start.column {
      SettledCoversGrid(m, start, i, j + 1);
      assert Settled(m, i, j + 1);
    } else if j > start.column {
      SettledCoversGrid(m, start, i, j - 1);
      assert Settled(m, i, j - 1);
    } else if i < start.row {
      SettledCoversGrid(m, start, i + 1, j);
      assert Settled(m, i + 1, j);
    } else if i > start.row {
      SettledCoversGrid(m, start, i - 1, j);
      assert Settled(m, i - 1, j);
    }
  }

  /** One walk from the start of fresh matrices: the facts the generator's contract carries. */
  lemma GenerateWalk(rows: int, columns: int, startRow: int, startColumn: int, picks: (int, int) -> seq<int>)
    requires 0 <= startRow < rows <= MaxArrayLength && 0 <= startColumn < columns <= MaxArrayLength
    requires ValidPicksEverywhere(picks)
    ensures var r := Generate(rows, columns, startRow, startColumn, picks);
      && WellFormed(r) && r.rows == rows && r.columns == columns
      && Visited(r, startRow, startColumn)
      && (forall i, j :: Visited(r, i, j) ==> Settled(r, i, j))
      && (forall i, j :: Visited(r, i, j) ==> Reachable(r, Cell(startRow, startColumn), Cell(i, j)))
      && CarvedBetweenVisited(r)
      && OpenCount(r) + 1 == VisitedCount(r)
  {
    var m := Create(rows, columns).value;
    var r := Generate(rows, columns, startRow, startColumn, picks);
    assert r == StepThroughCell(m, startRow, startColumn, picks);
    assert CarvedBetweenVisitedOr(m, Cell(startRow, startColumn));
  }

  /** A well-formed maze whose every cell is visited has `rows * columns - 1` passages when it has one fewer passage than visited cells. */
  lemma FullMazeCounts(r: Maze)
    requires WellFormed(r) && (forall i, j :: InBounds(r, i, j) ==> Visited(r, i, j))
    requires OpenCount(r) + 1 == VisitedCount(r)
    ensures OpenCount(r) == r.rows * r.columns - 1
    ensures ClosedCount(r) == EdgeTotal(r.rows, r.columns) - (r.rows * r.columns - 1)
  {
    forall i, j | 0 <= i < r.rows && 0 <= j < r.columns
      ensures r.grid[i][j] == true
    {
      assert Visited(r, i, j);
    }
    CountMatrixUniform(r.grid, r.rows, r.columns, true);
    CountMatrixComplement(r.verticals, r.rows, r.columns - 1);
    CountMatrixComplement(r.horizontals, r.rows - 1, r.columns);
  }

  /**
   The generator's result is a spanning tree of the grid: every cell is visited
   and reachable from the start, every open edge joins two cells, there are
   `rows * columns - 1` open edges, and the remaining interior edges are walls.
   */
  lemma GenerateSpanningTree(rows: int, columns: int, startRow: int, startColumn: int, picks: (int, int) -> seq<int>)
    requires 0 <= startRow < rows <= MaxArrayLength && 0 <= startColumn < columns <= MaxArrayLength
    requires ValidPicksEverywhere(picks)
    ensures var r := Generate(rows, columns, startRow, startColumn, picks);
      && (forall i, j :: InBounds(r, i, j) ==> Visited(r, i, j))
      && (forall i, j :: InBounds(r, i, j) ==> Reachable(r, Cell(startRow, startColumn), Cell(i, j)))
      && CarvedBetweenVisited(r)
      && OpenCount(r) == rows * columns - 1
      && ClosedCount(r) == EdgeTotal(rows, columns) - (rows * columns - 1)
  {
    var r := Generate(rows, columns, startRow, startColumn, picks);
    GenerateWalk(rows, columns, startRow, startColumn, picks);
    forall i, j | InBounds(r, i, j)
      ensures Visited(r, i, j)
    {
      SettledCoversGrid(r, Cell(startRow, startColumn), i, j);
    }
    FullMazeCounts(r);
  }

  /** The game's own 6-row, 7-column maze: 41 passages and 30 interior walls, whatever the start and the shuffles. */
  lemma SixBySevenMaze(startRow: int, startColumn: int, picks: (int, int) -> seq<int>)
    requires 0 <= startRow < 6 && 0 <= startColumn < 7
    requires ValidPicksEverywhere(picks)
    ensures OpenCount(Generate(6, 7, startRow, startColumn, picks)) == 41
    ensures ClosedCount(Generate(6, 7, startRow, startColumn, picks)) == 30
  {
    GenerateSpanningTree(6, 7, startRow, startColumn, picks);
  }
}
