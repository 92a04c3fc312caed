/**
 The invariants the maze generator keeps, stated over two snapshots of the maze
 (before and after a call), and the small facts that compose them.
 */
module Invariants {
  import opened Grid
  import opened Paths

  // ---------------------------------------------------------------------------
  // Every open edge was carved between visited cells

  /** `(i, j)` is visited, or is the cell `x` about to be entered. */
  predicate VisitedOr(m: Maze, i: int, j: int, x: Cell) {
    Visited(m, i, j) || (i == x.row && j == x.column)
  }

  /** Every open edge joins two cells that are visited or are `x`. */
  ghost predicate CarvedBetweenVisitedOr(m: Maze, x: Cell) {
    forall e :: IsOpen(m, e) ==> VisitedOr(m, Sides(e).0.row, Sides(e).0.column, x) && VisitedOr(m, Sides(e).1.row, Sides(e).1.column, x)
  }

  /** Every open edge joins two visited cells. */
  ghost predicate CarvedBetweenVisited(m: Maze) {
    forall e :: IsOpen(m, e) ==> Visited(m, Sides(e).0.row, Sides(e).0.column) && Visited(m, Sides(e).1.row, Sides(e).1.column)
  }

  /** Once `x` itself is marked visited, the exception for `x` is no longer needed. */
  lemma MarkedCarvedBetweenVisited(m: Maze, x: Cell)
    requires WellFormed(m) && CellInBounds(m, x)
    ensures CarvedBetweenVisitedOr(m, x) ==> CarvedBetweenVisited(Mark(m, x.row, x.column))
  {
    var marked := Mark(m, x.row, x.column);
    forall e | CarvedBetweenVisitedOr(m, x) && IsOpen(marked, e)
      ensures Visited(marked, Sides(e).0.row, Sides(e).0.column) && Visited(marked, Sides(e).1.row, Sides(e).1.column)
    {
      assert IsOpen(m, e);
    }
  }

  /**
   Carving the edge from a visited cell `a` toward an unvisited cell `x`: the edge
   was still a wall, and afterwards every open edge joins cells visited or `x`.
   */
  lemma CarveTowardUnvisited(m: Maze, a: Cell, x: Cell)
    requires WellFormed(m)
    requires CellInBounds(m, a) && CellInBounds(m, x) && AdjacentCells(a, x)
    requires Visited(m, a.row, a.column) && !Visited(m, x.row, x.column)
    ensures EdgeInBounds(m, EdgeBetween(a, x))
    ensures CarvedBetweenVisited(m) ==>
      !IsOpen(m, EdgeBetween(a, x)) && CarvedBetweenVisitedOr(OpenEdge(m, EdgeBetween(a, x)), x)
  {
    var e := EdgeBetween(a, x);
    EdgeBetweenSides(m, e);
    var carved := OpenEdge(m, e);
    forall e' | CarvedBetweenVisited(m) && IsOpen(carved, e')
      ensures VisitedOr(carved, Sides(e').0.row, Sides(e').0.column, x) && VisitedOr(carved, Sides(e').1.row, Sides(e').1.column, x)
    {
      if e' != e {
        assert IsOpen(m, e');
      }
    }
  }

  // ---------------------------------------------------------------------------
  // A cell is left only when all its neighbours are visited

  /** Every orthogonal neighbour of `(i, j)` inside the grid is visited. */
  predicate Settled(m: Maze, i: int, j: int) {
    && (i > 0 ==> Visited(m, i - 1, j))
    && (i < m.rows - 1 ==> Visited(m, i + 1, j))
    && (j > 0 ==> Visited(m, i, j - 1))
    && (j < m.columns - 1 ==> Visited(m, i, j + 1))
  }

  /** Every cell visited in `r` but not in `m` is settled in `r`. */
  ghost predicate NewCellsSettled(m: Maze, r: Maze) {
    forall i, j :: Visited(r, i, j) && !Visited(m, i, j) ==> Settled(r, i, j)
  }

  lemma NewCellsSettledCompose(m1: Maze, m2: Maze, m3: Maze)
    requires Grows(m1, m2) && Grows(m2, m3)
    requires NewCellsSettled(m1, m2) && NewCellsSettled(m2, m3)
    ensures NewCellsSettled(m1, m3)
  {
    forall i, j | Visited(m3, i, j) && !Visited(m1, i, j)
      ensures Settled(m3, i, j)
    {
      if Visited(m2, i, j) {
        assert Settled(m2, i, j);
      }
    }
  }

  /** Marking `x` and then settling everything new, `x` included, settles everything new. */
  lemma NewCellsSettledMark(m: Maze, x: Cell, r: Maze)
    requires WellFormed(m) && CellInBounds(m, x)
    requires NewCellsSettled(Mark(m, x.row, x.column), r) && Settled(r, x.row, x.column)
    ensures NewCellsSettled(m, r)
  {
  }

  // ---------------------------------------------------------------------------
  // Every cell the walk enters is reachable from where it started

  /** Every cell visited in `r` but not in `m` can be reached from `from` through open edges. */
  ghost predicate NewCellsReachable(m: Maze, r: Maze, from: Cell) {
    forall i, j :: Visited(r, i, j) && !Visited(m, i, j) ==> Reachable(r, from, Cell(i, j))
  }

  lemma NewCellsReachableCompose(m1: Maze, m2: Maze, m3: Maze, from: Cell)
    requires Grows(m1, m2) && Grows(m2, m3)
    requires NewCellsReachable(m1, m2, from) && NewCellsReachable(m2, m3, from)
    ensures NewCellsReachable(m1, m3, from)
  {
    forall i, j | Visited(m3, i, j) && !Visited(m1, i, j)
      ensures Reachable(m3, from, Cell(i, j))
    {
      if Visited(m2, i, j) {
        ReachableGrows(m2, m3, from, Cell(i, j));
      }
    }
  }

  /** What is reachable from `b` is reachable from `a` when a passage joins them. */
  lemma NewCellsReachableVia(m: Maze, r: Maze, a: Cell, b: Cell)
    requires Open(r, a, b) && NewCellsReachable(m, r, b)
    ensures NewCellsReachable(m, r, a)
  {
    forall i, j | Visited(r, i, j) && !Visited(m, i, j)
      ensures Reachable(r, a, Cell(i, j))
    {
      ReachablePrepend(r, a, b, Cell(i, j));
    }
  }

  /** Marking `x` and then reaching everything new from `x` reaches `x` itself too. */
  lemma NewCellsReachableMark(m: Maze, x: Cell, r: Maze)
    requires WellFormed(m) && CellInBounds(m, x) && r.rows == m.rows && r.columns == m.columns
    requires NewCellsReachable(Mark(m, x.row, x.column), r, x)
    ensures NewCellsReachable(m, r, x)
  {
    ReachableSelf(r, x);
  }

  // ---------------------------------------------------------------------------
  // The two invariants as the walk carries them from call to call

  /**
   `r` extends `m` the way a walk from `from` does: flags only turn on, no cell
   becomes unvisited, and every newly visited cell is settled and reachable from `from`.
   */
  ghost predicate Extends(m: Maze, r: Maze, from: Cell) {
    && Grows(m, r)
    && Unvisited(r) <= Unvisited(m)
    && NewCellsSettled(m, r)
    && NewCellsReachable(m, r, from)
  }

  lemma ExtendsCompose(m1: Maze, m2: Maze, m3: Maze, from: Cell)
    requires Extends(m1, m2, from) && Extends(m2, m3, from)
    ensures Extends(m1, m3, from)
  {
    GrowsTransitive(m1, m2, m3);
    NewCellsSettledCompose(m1, m2, m3);
    NewCellsReachableCompose(m1, m2, m3, from);
  }

  /** A walk that marks `x` first and leaves it settled extends the maze it started from. */
  lemma ExtendsMark(m: Maze, x: Cell, r: Maze)
    requires WellFormed(m) && CellInBounds(m, x) && !Visited(m, x.row, x.column)
    requires Extends(Mark(m, x.row, x.column), r, x) && Settled(r, x.row, x.column)
    ensures Extends(m, r, x)
  {
    var marked := Mark(m, x.row, x.column);
    GrowsTransitive(m, marked, r);
    NewCellsSettledMark(m, x, r);
    NewCellsReachableMark(m, x, r);
  }

  /** Opening the passage `a`-`b` and then walking from `b` extends the maze as a walk from `a`. */
  lemma ExtendsVia(m: Maze, carved: Maze, r: Maze, a: Cell, b: Cell)
    requires Grows(m, carved) && carved.grid == m.grid
    requires Extends(carved, r, b) && Open(r, a, b)
    ensures Extends(m, r, a)
  {
    GrowsTransitive(m, carved, r);
    NewCellsReachableVia(carved, r, a, b);
  }

  /**
   From `m` to `r` the carved edges stay between visited cells, and exactly one
   edge is opened per newly visited cell.
   */
  ghost predicate GrowsAsTree(m: Maze, r: Maze) {
    CarvedBetweenVisited(m) ==>
      CarvedBetweenVisited(r) && OpenCount(r) + VisitedCount(m) == OpenCount(m) + VisitedCount(r)
  }

  lemma GrowsAsTreeCompose(m1: Maze, m2: Maze, m3: Maze)
    requires GrowsAsTree(m1, m2) && GrowsAsTree(m2, m3)
    ensures GrowsAsTree(m1, m3)
  {
  }
}
