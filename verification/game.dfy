/**
 The pieces together: a generated maze laid out as bodies, and what a win does
 to that layout.
 */
module Game {
  import opened Grid
  import opened Bodies
  import opened Generator
  import opened SpanningTree
  import opened Walls
  import opened WinCondition

  /**
   After a win every interior wall of the layout falls (stops being static),
   while the four boundaries and the goal stay static and the ball stays movable;
   nothing but the static flags and gravity changes.
   */
  lemma WinReleasesInteriorWalls(m: Maze, width: real, height: real, gravityY: real)
    requires WellFormed(m)
    ensures var bs := Layout(m, width, height);
      var r := ReleaseWalls(World(gravityY, bs));
      && r.gravityY == 1.0 && |r.bodies| == |bs|
      && (forall k :: 0 <= k < |bs| ==> (r.bodies[k].isStatic <==> k < 4 || k == |bs| - 2))
      && (forall k :: 0 <= k < |bs| ==> r.bodies[k].(isStatic := bs[k].isStatic) == bs[k])
  {
  }

  /**
   The game's 6-row, 7-column maze puts 36 bodies in the world: 4 boundaries,
   30 interior walls, the goal and the ball, whatever the start cell and shuffles.
   */
  lemma SixBySevenLayout(startRow: int, startColumn: int, picks: (int, int) -> seq<int>, width: real, height: real)
    requires 0 <= startRow < 6 && 0 <= startColumn < 7
    requires ValidPicksEverywhere(picks)
    ensures var bs := Layout(Generate(6, 7, startRow, startColumn, picks), width, height);
      && |bs| == 36
      && (forall k :: 0 <= k < |bs| ==> (bs[k].name == WallLabel <==> 4 <= k < 34))
  {
    var m := Generate(6, 7, startRow, startColumn, picks);
    SixBySevenMaze(startRow, startColumn, picks);
    LayoutWithWalls(m, width, height, 30);
  }

  /** A maze with `walls` interior walls is laid out as `walls + 6` bodies, the walls at indices 4 to `walls + 3`. */
  lemma LayoutWithWalls(m: Maze, width: real, height: real, walls: nat)
    requires WellFormed(m) && ClosedCount(m) == walls
    ensures var bs := Layout(m, width, height);
      && |bs| == walls + 6
      && (forall k :: 0 <= k < |bs| ==> (bs[k].name == WallLabel <==> 4 <= k < walls + 4))
  {
  }

  /**
   A 2 by 2 maze whose only open edge is the horizontal one under cell `(0, 0)`
   gets 3 interior walls, so 7 rectangles with the boundaries, 9 bodies in all.
   */
  lemma TwoByTwoOneOpening(width: real, height: real)
    ensures var m := Maze(2, 2, [[true, true], [true, true]], [[false], [false]], [[true, false]]);
      && WellFormed(m)
      && |HorizontalWalls(m, width / 2.0, height / 2.0)| + |VerticalWalls(m, width / 2.0, height / 2.0)| == 3
      && |Layout(m, width, height)| == 9
  {
    var m := Maze(2, 2, [[true, true], [true, true]], [[false], [false]], [[true, false]]);
    assert m.verticals[1..] == [[false]];
    assert [true, false][1..] == [false];
  }

  /** A single-cell maze has no interior edge, so nothing is carved and no interior wall is built. */
  lemma OneByOneMaze(startRow: int, startColumn: int, picks: (int, int) -> seq<int>)
    requires 0 <= startRow < 1 && 0 <= startColumn < 1
    requires ValidPicksEverywhere(picks)
    ensures OpenCount(Generate(1, 1, startRow, startColumn, picks)) == 0
    ensures ClosedCount(Generate(1, 1, startRow, startColumn, picks)) == 0
  {
    GenerateSpanningTree(1, 1, startRow, startColumn, picks);
  }
}
