/**
 The maze's three boolean matrices: `grid` (visited flags, `rows` by `columns`),
 `verticals` (open wall between `(r, c)` and `(r, c + 1)`, `rows` by `columns - 1`)
 and `horizontals` (open wall between `(r, c)` and `(r + 1, c)`, `rows - 1` by `columns`).
 */
module Grid {
  import opened Matrices

  datatype Cell = Cell(row: int, column: int)

  /** An interior edge, named by the matrix that holds its flag and the index into it. */
  datatype Edge = Vertical(row: int, column: int) | Horizontal(row: int, column: int)

  datatype Maze = Maze(
    rows: nat,
    columns: nat,
    grid: seq<seq<bool>>,
    verticals: seq<seq<bool>>,
    horizontals: seq<seq<bool>>)

  datatype GridError = InvalidDimension

  datatype Result<T> = Success(value: T) | Failure(error: GridError)

  predicate WellFormed(m: Maze) {
    && m.rows >= 1 && m.columns >= 1
    && IsMatrix(m.grid, m.rows, m.columns)
    && IsMatrix(m.verticals, m.rows, m.columns - 1)
    && IsMatrix(m.horizontals, m.rows - 1, m.columns)
  }

  predicate InBounds(m: Maze, row: int, column: int) {
    0 <= row < m.rows && 0 <= column < m.columns
  }

  predicate CellInBounds(m: Maze, c: Cell) {
    InBounds(m, c.row, c.column)
  }

  /** The visited flag of `(row, column)`; false outside the grid. */
  predicate Visited(m: Maze, row: int, column: int) {
    At(m.grid, row, column)
  }

  /** The largest length a JavaScript array accepts, `2^32 - 1`; a longer one is a range error. */
  const MaxArrayLength: int := 0xFFFF_FFFF

  /**
   Builds the three matrices. A dimension below one makes one of the array lengths
   negative, and one above `MaxArrayLength` makes one too long; either is a range error.
   */
  function Create(rows: int, columns: int): (r: Result<Maze>)
    ensures r.Success? <==> 1 <= rows <= MaxArrayLength && 1 <= columns <= MaxArrayLength
    ensures r.Success? ==> WellFormed(r.value) && r.value.rows == rows && r.value.columns == columns
    ensures r.Success? ==> forall i, j :: !Visited(r.value, i, j)
    ensures r.Success? ==> forall e :: !IsOpen(r.value, e)
    ensures r.Success? ==> OpenCount(r.value) == 0 && VisitedCount(r.value) == 0
  {
    if rows < 1 || columns < 1 || rows > MaxArrayLength || columns > MaxArrayLength then Failure(InvalidDimension)
    else
      var m := Maze(rows, columns, Filled(rows, columns, false),
                    Filled(rows, columns - 1, false), Filled(rows - 1, columns, false));
      CountMatrixUniform(m.grid, rows, columns, false);
      CountMatrixUniform(m.verticals, rows, columns - 1, false);
      CountMatrixUniform(m.horizontals, rows - 1, columns, false);
      Success(m)
  }

  /** Number of visited cells. */
  function VisitedCount(m: Maze): nat {
    CountMatrix(m.grid, true)
  }

  /** Number of cells not yet visited; the generator's termination measure. */
  function Unvisited(m: Maze): nat {
    CountMatrix(m.grid, false)
  }

  /** Number of open (carved) interior edges. */
  function OpenCount(m: Maze): nat {
    CountMatrix(m.verticals, true) + CountMatrix(m.horizontals, true)
  }

  /** Number of closed interior edges, i.e. interior walls. */
  function ClosedCount(m: Maze): nat {
    CountMatrix(m.verticals, false) + CountMatrix(m.horizontals, false)
  }

  /** Number of interior edges of a `rows` by `columns` grid. */
  function EdgeTotal(rows: nat, columns: nat): int {
    rows * (columns - 1) + (rows - 1) * columns
  }

  /** Marks one cell visited; nothing else changes. */
  function Mark(m: Maze, row: int, column: int): (r: Maze)
    requires WellFormed(m) && InBounds(m, row, column)
    ensures WellFormed(r) && Grows(m, r)
    ensures Visited(r, row, column)
    ensures forall i, j :: (i != row || j != column) ==> Visited(r, i, j) == Visited(m, i, j)
    ensures r.verticals == m.verticals && r.horizontals == m.horizontals
    ensures !Visited(m, row, column) ==> Unvisited(r) + 1 == Unvisited(m) && VisitedCount(r) == VisitedCount(m) + 1
  {
    if !m.grid[row][column] then CountMatrixFlip(m.grid, row, column, true); m.(grid := Set(m.grid, row, column, true))
    else m
  }

  predicate EdgeInBounds(m: Maze, e: Edge) {
    match e
    case Vertical(r, c) => 0 <= r < m.rows && 0 <= c < m.columns - 1
    case Horizontal(r, c) => 0 <= r < m.rows - 1 && 0 <= c < m.columns
  }

  /** The flag of edge `e`; false outside its matrix. */
  predicate IsOpen(m: Maze, e: Edge) {
    match e
    case Vertical(r, c) => At(m.verticals, r, c)
    case Horizontal(r, c) => At(m.horizontals, r, c)
  }

  /** Opens (carves) one interior edge; nothing else changes. */
  function OpenEdge(m: Maze, e: Edge): (r: Maze)
    requires WellFormed(m) && EdgeInBounds(m, e)
    ensures WellFormed(r) && Grows(m, r)
    ensures IsOpen(r, e)
    ensures forall e' :: e' != e ==> IsOpen(r, e') == IsOpen(m, e')
    ensures r.grid == m.grid
    ensures OpenCount(r) == OpenCount(m) + (if IsOpen(m, e) then 0 else 1)
  {
    match e
    case Vertical(row, column) =>
      if !m.verticals[row][column] then
        CountMatrixFlip(m.verticals, row, column, true);
        m.(verticals := Set(m.verticals, row, column, true))
      else m
    case Horizontal(row, column) =>
      if !m.horizontals[row][column] then
        CountMatrixFlip(m.horizontals, row, column, true);
        m.(horizontals := Set(m.horizontals, row, column, true))
      else m
  }

  /** Flags only go from false to true, and the dimensions stay. */
  ghost predicate Grows(m: Maze, m': Maze) {
    && m'.rows == m.rows && m'.columns == m.columns
    && Leq(m.grid, m'.grid) && Leq(m.verticals, m'.verticals) && Leq(m.horizontals, m'.horizontals)
  }

  lemma GrowsTransitive(m1: Maze, m2: Maze, m3: Maze)
    requires Grows(m1, m2) && Grows(m2, m3)
    ensures Grows(m1, m3)
  {
  }

  /** `a` and `b` are orthogonally adjacent. */
  predicate AdjacentCells(a: Cell, b: Cell) {
    || (a.row == b.row && (a.column == b.column + 1 || b.column == a.column + 1))
    || (a.column == b.column && (a.row == b.row + 1 || b.row == a.row + 1))
  }

  /** The edge that separates two adjacent cells. */
  function EdgeBetween(a: Cell, b: Cell): (e: Edge)
    requires AdjacentCells(a, b)
  {
    if a.row == b.row then Vertical(a.row, if a.column < b.column then a.column else b.column)
    else Horizontal(if a.row < b.row then a.row else b.row, a.column)
  }

  /** The two cells an edge separates. */
  function Sides(e: Edge): (Cell, Cell) {
    match e
    case Vertical(r, c) => (Cell(r, c), Cell(r, c + 1))
    case Horizontal(r, c) => (Cell(r, c), Cell(r + 1, c))
  }

  /**
   `EdgeBetween` and `Sides` are inverse: every edge separates two adjacent cells,
   it is the edge between them in either order, and it lies inside the grid
   exactly when both cells do.
   */
  lemma EdgeBetweenSides(m: Maze, e: Edge)
    ensures AdjacentCells(Sides(e).0, Sides(e).1)
    ensures EdgeBetween(Sides(e).0, Sides(e).1) == e == EdgeBetween(Sides(e).1, Sides(e).0)
    ensures EdgeInBounds(m, e) <==> CellInBounds(m, Sides(e).0) && CellInBounds(m, Sides(e).1)
  {
  }

  /** There is a passage between `a` and `b`: both in the grid, adjacent, and the edge between them open. */
  predicate Open(m: Maze, a: Cell, b: Cell) {
    CellInBounds(m, a) && CellInBounds(m, b) && AdjacentCells(a, b) && IsOpen(m, EdgeBetween(a, b))
  }

  lemma OpenGrows(m: Maze, m': Maze, a: Cell, b: Cell)
    requires Grows(m, m') && Open(m, a, b)
    ensures Open(m', a, b)
  {
  }
}
