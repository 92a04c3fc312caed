/**
 The randomized depth-first backtracker that carves the maze.

 Randomness enters only through the shuffle of the four neighbour candidates of a
 cell. That shuffle runs once each time an unvisited cell is entered, and no cell
 is entered twice, so the random stream is modelled as a pick sequence per cell:
 `picks(row, column)` drives the shuffle run when `(row, column)` is entered.
 */
module Generator {
  import opened Grid
  import opened FisherYates
  import opened Invariants

  datatype Direction = Up | Right | Down | Left

  /** A neighbour candidate: the cell's coordinates and the direction it lies in. */
  datatype Neighbour = Neighbour(row: int, column: int, direction: Direction)

  /** The four candidates, in the order the generator lists them before shuffling. */
  function Neighbours(row: int, column: int): (ns: seq<Neighbour>)
    ensures |ns| == 4
    ensures ns[0].direction == Up && ns[1].direction == Right && ns[2].direction == Down && ns[3].direction == Left
    ensures forall k :: 0 <= k < 4 ==> Toward(row, column, ns[k])
  {
    [Neighbour(row - 1, column, Up), Neighbour(row, column + 1, Right),
     Neighbour(row + 1, column, Down), Neighbour(row, column - 1, Left)]
  }

  /** `n` is the cell one step from `(row, column)` in `n.direction`. */
  predicate Toward(row: int, column: int, n: Neighbour) {
    match n.direction
    case Up => n.row == row - 1 && n.column == column
    case Right => n.row == row && n.column == column + 1
    case Down => n.row == row + 1 && n.column == column
    case Left => n.row == row && n.column == column - 1
  }

  /** Every cell's pick sequence is a valid shuffle of the four candidates. */
  ghost predicate ValidPicksEverywhere(picks: (int, int) -> seq<int>) {
    forall row, column :: ValidPicks(picks(row, column), 4)
  }

  /**
   The wall the generator removes when it moves from `(row, column)` toward `n`,
   chosen by direction: left and right address `verticals`, up and down `horizontals`.
   Whenever both cells are in the grid the index is inside its matrix, and it is
   the edge separating the two cells.
   */
  function WallToward(m: Maze, row: int, column: int, n: Neighbour): (e: Edge)
    requires Toward(row, column, n)
    ensures InBounds(m, row, column) && InBounds(m, n.row, n.column) ==> EdgeInBounds(m, e)
    ensures e == EdgeBetween(Cell(row, column), Cell(n.row, n.column))
  {
    match n.direction
    case Left => Vertical(row, column - 1)
    case Right => Vertical(row, column)
    case Up => Horizontal(row - 1, column)
    case Down => Horizontal(row, column)
  }

  /**
   Enters `(row, column)`: nothing happens if it is already visited; otherwise it is
   marked visited and its shuffled neighbours are visited in turn.

   The walk only turns flags on. Every cell it newly visits is left with all its
   neighbours visited, and is reachable from `(row, column)` through open edges.
   If every open edge joined visited cells (`(row, column)` counting as visited),
   that stays so, and the walk from an unvisited cell opens one edge fewer than
   the cells it visits.
   */
  function StepThroughCell(m: Maze, row: int, column: int, picks: (int, int) -> seq<int>): (r: Maze)
    requires WellFormed(m) && InBounds(m, row, column) && ValidPicksEverywhere(picks)
    ensures WellFormed(r) && Extends(m, r, Cell(row, column))
    ensures Visited(r, row, column)
    ensures Visited(m, row, column) ==> r == m
    ensures !Visited(m, row, column) && CarvedBetweenVisitedOr(m, Cell(row, column)) ==>
      && CarvedBetweenVisited(r)
      && OpenCount(r) + VisitedCount(m) + 1 == OpenCount(m) + VisitedCount(r)
    decreases Unvisited(m), 0, 0, 0
  {
    if Visited(m, row, column) then m
    else
      var cell := Cell(row, column);
      var marked := Mark(m, row, column);
      var ns := Shuffle(Neighbours(row, column), picks(row, column));
      ShuffledNeighboursToward(row, column, ns);
      var r := VisitNeighbours(marked, row, column, ns, picks);
      ShuffledNeighboursSettle(marked, r, row, column, ns);
      ExtendsMark(m, cell, r);
      MarkedCarvedBetweenVisited(m, cell);
      r
  }

  /**
   The loop over the shuffled candidates of the visited cell `(row, column)`: a
   candidate outside the grid or already visited is skipped (visited-ness is read
   afresh, after the earlier candidates' recursion); otherwise the generator carves
   toward it and enters it. Afterwards every in-bounds candidate is visited.
   */
  function VisitNeighbours(m: Maze, row: int, column: int, ns: seq<Neighbour>, picks: (int, int) -> seq<int>): (r: Maze)
    requires WellFormed(m) && InBounds(m, row, column) && Visited(m, row, column) && ValidPicksEverywhere(picks)
    requires forall k :: 0 <= k < |ns| ==> Toward(row, column, ns[k])
    ensures WellFormed(r) && Extends(m, r, Cell(row, column)) && GrowsAsTree(m, r)
    ensures forall k :: 0 <= k < |ns| && InBounds(m, ns[k].row, ns[k].column) ==> Visited(r, ns[k].row, ns[k].column)
    decreases Unvisited(m), 1, |ns|, 1
  {
    if |ns| == 0 then m
    else if !InBounds(m, ns[0].row, ns[0].column) || Visited(m, ns[0].row, ns[0].column) then
      var r := VisitNeighbours(m, row, column, ns[1..], picks);
      CandidatesVisited(m, r, ns);
      r
    else
      EnterFirstCandidate(m, row, column, ns, picks)
  }

  /** One round of the loop whose candidate is in the grid and unvisited: carve, enter, continue. */
  function EnterFirstCandidate(m: Maze, row: int, column: int, ns: seq<Neighbour>, picks: (int, int) -> seq<int>): (r: Maze)
    requires WellFormed(m) && InBounds(m, row, column) && Visited(m, row, column) && ValidPicksEverywhere(picks)
    requires forall k :: 0 <= k < |ns| ==> Toward(row, column, ns[k])
    requires |ns| > 0 && InBounds(m, ns[0].row, ns[0].column) && !Visited(m, ns[0].row, ns[0].column)
    ensures WellFormed(r) && Extends(m, r, Cell(row, column)) && GrowsAsTree(m, r)
    ensures forall k :: 0 <= k < |ns| && InBounds(m, ns[k].row, ns[k].column) ==> Visited(r, ns[k].row, ns[k].column)
    decreases Unvisited(m), 1, |ns|, 0
  {
    var entered := CarveAndEnter(m, row, column, ns[0], picks);
    var r := VisitNeighbours(entered, row, column, ns[1..], picks);
    CandidatesVisited(m, r, ns);
    ExtendsCompose(m, entered, r, Cell(row, column));
    GrowsAsTreeCompose(m, entered, r);
    r
  }

  /** Removes the wall between the visited `(row, column)` and the unvisited candidate `n`, then enters `n`. */
  function CarveAndEnter(m: Maze, row: int, column: int, n: Neighbour, picks: (int, int) -> seq<int>): (r: Maze)
    requires WellFormed(m) && InBounds(m, row, column) && Visited(m, row, column) && ValidPicksEverywhere(picks)
    requires Toward(row, column, n) && InBounds(m, n.row, n.column) && !Visited(m, n.row, n.column)
    ensures WellFormed(r) && Extends(m, r, Cell(row, column)) && GrowsAsTree(m, r)
    ensures Open(r, Cell(row, column), Cell(n.row, n.column))
    ensures Visited(r, n.row, n.column)
    decreases Unvisited(m), 0, 1, 0
  {
    var cell := Cell(row, column);
    var next := Cell(n.row, n.column);
    var carved := OpenEdge(m, WallToward(m, row, column, n));
    var r := StepThroughCell(carved, n.row, n.column, picks);
    OpenGrows(carved, r, cell, next);
    ExtendsVia(m, carved, r, cell, next);
    CarveTowardUnvisited(m, cell, next);
    r
  }

  /** The candidates visited one by one: the first one, then the rest. */
  lemma CandidatesVisited(m: Maze, r: Maze, ns: seq<Neighbour>)
    requires |ns| > 0 && Grows(m, r)
    requires InBounds(m, ns[0].row, ns[0].column) ==> Visited(r, ns[0].row, ns[0].column)
    requires forall k :: 0 <= k < |ns[1..]| && InBounds(m, ns[1..][k].row, ns[1..][k].column) ==> Visited(r, ns[1..][k].row, ns[1..][k].column)
    ensures forall k :: 0 <= k < |ns| && InBounds(m, ns[k].row, ns[k].column) ==> Visited(r, ns[k].row, ns[k].column)
  {
    forall k | 1 <= k < |ns|
      ensures ns[k] == ns[1..][k - 1]
    {
    }
  }

  /** Any reordering of the four candidates, the shuffled one included, still lists cells next to `(row, column)`. */
  lemma ShuffledNeighboursToward(row: int, column: int, ns: seq<Neighbour>)
    requires multiset(ns) == multiset(Neighbours(row, column))
    ensures forall k :: 0 <= k < |ns| ==> Toward(row, column, ns[k])
  {
    var all := Neighbours(row, column);
    forall k | 0 <= k < |ns|
      ensures Toward(row, column, ns[k])
    {
      assert ns[k] in multiset(ns);
      assert ns[k] in all;
    }
  }

  /** Once every candidate of any reordering of the four is visited when inside the grid, the cell is settled. */
  lemma ShuffledNeighboursSettle(m: Maze, r: Maze, row: int, column: int, ns: seq<Neighbour>)
    requires r.rows == m.rows && r.columns == m.columns && InBounds(m, row, column)
    requires multiset(ns) == multiset(Neighbours(row, column))
    requires forall k :: 0 <= k < |ns| && InBounds(m, ns[k].row, ns[k].column) ==> Visited(r, ns[k].row, ns[k].column)
    ensures Settled(r, row, column)
  {
    var all := Neighbours(row, column);
    assert all[0] in multiset(ns) && all[1] in multiset(ns) && all[2] in multiset(ns) && all[3] in multiset(ns);
    CandidateVisited(m, r, ns, all[0]);
    CandidateVisited(m, r, ns, all[1]);
    CandidateVisited(m, r, ns, all[2]);
    CandidateVisited(m, r, ns, all[3]);
  }

  lemma CandidateVisited(m: Maze, r: Maze, ns: seq<Neighbour>, n: Neighbour)
    requires n in ns
    requires forall k :: 0 <= k < |ns| && InBounds(m, ns[k].row, ns[k].column) ==> Visited(r, ns[k].row, ns[k].column)
    ensures InBounds(m, n.row, n.column) ==> Visited(r, n.row, n.column)
  {
  }

  /**
   Generation as the program runs it: fresh matrices (nothing visited, every wall
   standing), then one walk from the start cell.
   */
  function Generate(rows: int, columns: int, startRow: int, startColumn: int, picks: (int, int) -> seq<int>): (r: Maze)
    requires 0 <= startRow < rows <= MaxArrayLength && 0 <= startColumn < columns <= MaxArrayLength
    requires ValidPicksEverywhere(picks)
    ensures WellFormed(r) && r.rows == rows && r.columns == columns
    ensures Visited(r, startRow, startColumn)
  {
    StepThroughCell(Create(rows, columns).value, startRow, startColumn, picks)
  }
}
