# Maze game: a verified model of the maze generator and game rules

This project models the core of a browser maze game. The game lays out a maze of
6 rows and 7 columns on a physics canvas. The player steers a ball with the
keyboard. When the ball touches the goal in the far corner, gravity switches on
and the maze walls fall. The model covers:

- **FisherYates** (`shuffle.dfy`): the in-place Fisher–Yates `shuffle`. The random
  index of each round is supplied as a pick sequence. Each pick must lie below the
  counter, as `Math.floor(Math.random() * counter)` does.
- **Grid**, **Matrices**, **Paths** (`grid.dfy`, `matrices.dfy`, `paths.dfy`):
  - the three boolean matrices `grid`, `verticals` and `horizontals`, and how they are built;
  - marking a cell visited and opening an edge;
  - counting flags;
  - reachability through open edges.
- **Generator**, **Invariants**, **SpanningTree** (`generator.dfy`, `invariants.dfy`,
  `spanning_tree.dfy`): the randomized depth-first backtracker `stepThroughCell`,
  written as four mutually recursive functions.
  - `StepThroughCell` is one call.
  - `VisitNeighbours` and `EnterFirstCandidate` are the `for … of neighbours` loop.
  - `CarveAndEnter` is one carve-and-recurse step.
  - The functions' contracts carry the invariants.
  - The final theorem: from fresh matrices and any start cell inside the grid, the open
    edges form a spanning tree. Every cell is visited, every cell is reachable from the
    start, and there are `rows * columns - 1` passages. For 6×7 that is 41 passages and
    30 interior walls.
- **Walls**, **Bodies** (`walls.dfy`, `bodies.dfy`): turning the finished matrices into
  bodies.
  - Four boundary rectangles, then one wall per closed `horizontals` entry and one per
    closed `verticals` entry, in the game's row-major order.
  - Then the goal and the ball.
  - Positions use exact real arithmetic.
- **WinCondition** (`win_condition.dfy`): the collision handler. Its test is "both
  labels are among `ball` and `goal`". Its effect is gravity 1 and every `wall` made
  non-static.
- **Controls** (`controls.dfy`): the key-down handler that nudges the ball's velocity.
- **Game** (`game.dfy`): the pieces together. It covers the 36 bodies of the 6×7 game,
  what a win does to that layout, and two small worked cases.

Randomness is a parameter:
- The start cell `(startRow, startColumn)` is an argument of `Generate`.
- The shuffle run when cell `(row, column)` is entered is driven by `picks(row, column)`.
  This is exact, because `stepThroughCell` shuffles once per cell it enters and never
  enters a cell twice.
- Every property holds for every start cell and every valid choice of picks.

Some behaviours of the code that a reader might not expect:
- The win test (index.js:286) accepts any pair whose two labels are both `ball` or
  `goal`, so a `ball`/`ball` pair would also fire. It is not an exact `{ball, goal}`
  set match.
- There is no once-only "won" state (index.js:280-298). The handler fires on every
  such pair. `WinCondition.ReleaseWallsIdempotent` shows that a repeat changes nothing.
- Key presses are not gated after a win (index.js:242-269).
- The ball starts in cell `(0, 0)` (index.js:232), not in the generator's start cell.
- The frame is always four rectangles, whatever the grid size (index.js:48-62).
- `Grid.Create` fails when a dimension is below 1 or above `2^32 - 1`. In the code both
  surface as an array-length range error (index.js:88-98).

## Model

| member | source | states |
|---|---|---|
| FisherYates.Swap | index.js:79-82 | the two slots exchange their values, every other slot is kept, and the multiset of elements is unchanged |
| FisherYates.ShuffleFrom | index.js:75-83 | the rounds left when the counter stands at `counter` permute the array, leave the slots at and above the counter untouched, and put the element at the round's pick into slot `counter - 1` |
| FisherYates.Shuffle | index.js:72-86 | the shuffle returns a permutation of its input (same length, same multiset), and its last slot receives the element at the first pick |
| FisherYates.ShuffleLoop | index.js:72-86 | the while loop, with each index below the counter so every swap is in bounds, computes the shuffle, and its body runs exactly `arr.length` times |
| FisherYates.ShuffleKeepsElements | index.js:72-86 | an element occurs in the shuffled array exactly when it occurs in the input |
| Grid.Create | index.js:88-98 | fails exactly when a dimension is below 1 or above the JavaScript array-length limit `2^32 - 1`; otherwise the three matrices have the sizes rows×columns, rows×(columns-1) and (rows-1)×columns, no cell is visited and no edge is open |
| Grid.Mark | index.js:109-110 | marks exactly the given cell visited, changes no other cell and no edge, and turns one unvisited cell into a visited one |
| Grid.OpenEdge | index.js:152-161 | opens exactly the given edge, keeps every other edge and the visited flags, and adds one to the open-edge count when the edge was closed |
| Grid.EdgeBetweenSides | index.js:92-98 | an edge and the two cells it separates determine each other, in either order, and the edge lies inside its matrix exactly when both cells lie in the grid |
| Generator.WallToward | index.js:152-161 | the flag written for a move left, right, up or down is the edge between the current cell and the neighbour, and it lies inside its matrix whenever both cells lie in the grid |
| Generator.StepThroughCell | index.js:103-164 | a visited cell leaves the maze unchanged; otherwise the walk marks the cell and the flags only turn on. Every cell it newly visits ends with all its neighbours visited and is reachable from the entered cell through open edges. It opens exactly one edge fewer than the cells it visits, each between visited cells |
| Generator.VisitNeighbours | index.js:136-163 | after the loop every candidate inside the grid is visited. The loop only turns flags on and keeps the settled and reachable invariants. It opens exactly one edge per cell it visits, each between visited cells |
| Generator.EnterFirstCandidate | index.js:143-162 | a round whose candidate is in the grid and unvisited carves toward it, enters it and continues, with the same guarantees as the whole loop |
| Generator.CarveAndEnter | index.js:152-162 | carving toward an unvisited neighbour and entering it leaves a passage between the two cells, visits the neighbour, and opens one edge per newly visited cell |
| Generator.Neighbours | index.js:113-134 | the four candidates up, right, down and left, in that order, each the cell one step away in its direction |
| Generator.ShuffledNeighboursToward | index.js:113-134 | after any reordering of the four candidates, the shuffle's included, each candidate is still the cell one step away in its direction |
| Generator.ShuffledNeighboursSettle | index.js:136-163 | when every candidate of a reordering of the four that lies inside the grid is visited, every neighbour of the cell inside the grid is visited |
| Generator.Generate | index.js:166 | generation from fresh matrices yields a well-formed maze of the requested size with the start cell visited |
| Invariants.CarveTowardUnvisited | index.js:148-162 | the wall removed toward an unvisited neighbour was still closed, and afterwards every open edge joins visited cells or the cell about to be entered |
| Invariants.MarkedCarvedBetweenVisited | index.js:109-110 | once the entered cell is marked, every open edge joins two visited cells |
| SpanningTree.SettledCoversGrid | index.js:103-164 | in a maze where every visited cell has all its neighbours visited, every cell of the grid is visited once the start cell is |
| SpanningTree.GenerateWalk | index.js:166 | from fresh matrices the walk leaves every visited cell settled and reachable from the start, every open edge between visited cells, and one passage fewer than visited cells |
| SpanningTree.FullMazeCounts | index.js:88-98 | a fully visited maze with one passage fewer than cells has `rows*columns - 1` passages, and its remaining interior edges are closed |
| SpanningTree.GenerateSpanningTree | index.js:88-166 | the generated maze is a spanning tree: all cells are visited and reachable from the start, there are `rows*columns - 1` open edges, and `rows*(columns-1) + (rows-1)*columns - (rows*columns - 1)` walls remain |
| SpanningTree.SixBySevenMaze | index.js:19-20 | the game's 6×7 maze has 41 passages and 30 interior walls for every start cell and every shuffle |
| Walls.Boundaries | index.js:48-62 | there are four static frame rectangles with the library's default label, on the top, bottom, left and right sides |
| Walls.ClosedInRow | index.js:171-191 | the column indices it lists are exactly the false entries of one row, as many as `Count`, left to right |
| Walls.ClosedCells | index.js:170-192 | the index pairs it lists are exactly the false entries of a matrix, as many as `CountMatrix(M, false)`, in row-major order |
| Walls.HorizontalWalls | index.js:170-192 | one static `wall` body per closed `horizontals` entry |
| Walls.VerticalWalls | index.js:196-217 | one static `wall` body per closed `verticals` entry |
| Walls.HorizontalWallsExact | index.js:170-192 | the horizontal wall at `(i, j)` is built if and only if that edge is inside the grid and closed |
| Walls.VerticalWallsExact | index.js:196-217 | the vertical wall at `(i, j)` is built if and only if that edge is inside the grid and closed |
| Walls.WallPositionInjective | index.js:176-181 | two walls of one kind at the same place come from the same matrix entry; this characterises the placement helpers `Walls.HorizontalWall` and `Walls.VerticalWall` |
| Walls.WallsBetweenCells | index.js:176-206 | each wall built by `Walls.HorizontalWall` (lines 176-189) or `Walls.VerticalWall` (lines 202-206) is centred on the side shared by the two cells its edge separates, and spans one cell |
| Walls.Goal | index.js:221-228 | the goal is static, labelled `goal`, and centred in the bottom-right cell |
| Walls.Ball | index.js:231-238 | the ball is movable, labelled `ball`, and centred in the top-left cell |
| Walls.Layout | index.js:48-238 | the world holds 4 + closed edges + 2 bodies: the bodies labelled `wall` are exactly those at positions 4 to 3 + closed edges, every body but the ball is static, and the goal and ball come last |
| Game.SixBySevenLayout | index.js:19-238 | the generated 6×7 game has 36 bodies, 30 of them walls |
| Game.TwoByTwoOneOpening | index.js:170-238 | a 2×2 maze whose only passage is the horizontal edge below `(0, 0)` gets 3 interior walls and 9 bodies |
| Game.OneByOneMaze | index.js:88-166 | a 1×1 maze has no passage and no interior wall |
| Game.WinReleasesInteriorWalls | index.js:290-295 | after a win exactly the interior walls become movable. The frame and the goal stay static, the ball stays movable, and nothing else about any body changes |
| WinCondition.ReleaseWalls | index.js:290-295 | gravity becomes 1, and a body stops being static exactly when it is labelled `wall`; no other field of any body changes |
| WinCondition.OnCollisionStart | index.js:280-298 | the handler over one event's pairs, one `WinCondition.OnPair` step per pair, has the win effect when some pair wins and leaves the world unchanged otherwise |
| WinCondition.ReleaseWallsIdempotent | index.js:290-295 | releasing the walls a second time changes nothing |
| WinCondition.WinningPairLabels | index.js:282-286 | the test `WinCondition.IsWinningPair` fires exactly when each label is `ball` or `goal`, and does not depend on the order of the pair |
| WinCondition.WallContactChangesNothing | index.js:286-296 | the ball or the goal touching a wall does not fire, and the world is unchanged |
| Controls.OnKeyDown | index.js:242-269 | a key press changes at most one velocity component, by at most 5 |
| Controls.KeyDirection | index.js:245-263 | exactly the eight codes 87, 38, 68, 39, 83, 40, 65 and 37 are direction keys |
| Controls.Push | index.js:245-268 | a vertical push keeps `x` and a horizontal push keeps `y` |
| Controls.OnKeyDownIsOnePush | index.js:242-269 | the four tests never match together: a direction key is one push of 5 in its direction, and any other key leaves the velocity unchanged |
| Controls.PushOppositeCancels | index.js:245-268 | a push followed by the opposite push restores the velocity |
| Controls.OppositeKeysCancel | index.js:245-268 | W then S, the arrows up then down, D then A, and the arrows right then left each give back the starting velocity |

## Left out

- Physics engine, renderer and runner setup, and `World.add` (index.js:9-17, 28-44). These are library calls whose behaviour is not visible here. The model stops at the list of bodies it would add, and at the gravity and static flags the win handler writes.
- `Math.random` (index.js:76, 100-101). The start cell and the shuffle picks are parameters, and their distribution is not modelled.
- The page effects of a win: the `winner` banner and the `resetButton` handler, which adds a fresh click listener on every firing and reloads the page (index.js:287, 289, 302-308). `horizontals.clear` at index.js:288 reads a property and does nothing.
- Canvas size and rendering options. `width` and `height` are real parameters, and colours are not modelled. Positions are exact reals where the game uses floating point.
- The velocity change goes through `Body.setVelocity` and the ball's later motion is the engine's. `Controls.OnKeyDown` returns the new velocity instead.
- `Generator.StepThroughCell`: the recursion depth bound `rows*columns` is not stated as its own property. It follows from the termination measure, the number of unvisited cells, which drops on every entry. In the game the depth is also bounded by the JavaScript call stack, so a very large grid would overflow it; the model is total for every size the arrays allow and does not model that overflow. The game's 6×7 maze nests at most 42 calls.
- `SpanningTree.GenerateSpanningTree`: acyclicity is not proved as a separate statement. The theorem states connectivity plus exactly `rows*columns - 1` open edges, which characterises a spanning tree.
- The frame rectangles' label `"Rectangle Body"` is the physics library's default for an unlabelled rectangle. The library is not part of this model.
- Controls: every velocity is an exact real, where the game uses JavaScript doubles. So the exact ±5 change of `Controls.OnKeyDown` and the round trips of `Controls.PushOppositeCancels` and `Controls.OppositeKeysCancel` hold in the model but can be off by a rounding error in the game (`0.1 - 5 + 5` is `0.09999999999999964`).
