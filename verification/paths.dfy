/**
 Reachability through the maze: a path is a sequence of in-bounds cells in which
 every two consecutive cells are joined by an open edge.
 */
module Paths {
  import opened Grid

  predicate IsPath(m: Maze, p: seq<Cell>, a: Cell, b: Cell)
  {
    && |p| >= 1 && p[0] == a && p[|p| - 1] == b
    && (forall i :: 0 <= i < |p| ==> CellInBounds(m, p[i]))
    && (forall i :: 0 <= i < |p| - 1 ==> Open(m, p[i], p[i + 1]))
  }

  /** `b` can be reached from `a` by walking through open edges. */
  ghost predicate Reachable(m: Maze, a: Cell, b: Cell)
  {
    exists p :: IsPath(m, p, a, b)
  }

  lemma ReachableSelf(m: Maze, a: Cell)
    requires CellInBounds(m, a)
    ensures Reachable(m, a, a)
  {
    assert IsPath(m, [a], a, a);
  }

  /** A passage from `a` to `b` followed by a path from `b` is a path from `a`. */
  lemma ReachablePrepend(m: Maze, a: Cell, b: Cell, c: Cell)
    requires Open(m, a, b) && Reachable(m, b, c)
    ensures Reachable(m, a, c)
  {
    var p :| IsPath(m, p, b, c);
    var q := [a] + p;
    assert forall i :: 1 <= i < |q| ==> q[i] == p[i - 1];
    assert IsPath(m, q, a, c);
  }

  /** Opening more edges never breaks a path. */
  lemma ReachableGrows(m: Maze, m': Maze, a: Cell, b: Cell)
    requires Grows(m, m')
    requires Reachable(m, a, b)
    ensures Reachable(m', a, b)
  {
    var p :| IsPath(m, p, a, b);
    forall i | 0 <= i < |p| - 1
      ensures Open(m', p[i], p[i + 1])
    {
      OpenGrows(m, m', p[i], p[i + 1]);
    }
    assert IsPath(m', p, a, b);
  }
}
