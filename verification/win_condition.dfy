/**
 The collision handler: when a colliding pair is made of the ball and the goal,
 gravity is switched on and every maze wall stops being static, so the maze
 collapses. The test is "both labels are among ball and goal" and it fires
 afresh for every such pair.
 */
module WinCondition {
  import opened Bodies

  /** The part of the physics world the handler writes. */
  datatype World = World(gravityY: real, bodies: seq<Body>)

  /** Two bodies that started touching. */
  datatype Pair = Pair(bodyA: Body, bodyB: Body)

  /** The labels the handler looks for. */
  const WinLabels: seq<string> := [BallLabel, GoalLabel]

  /** The handler's test: both labels occur in the list of ball and goal. */
  predicate IsWinningPair(p: Pair) {
    p.bodyA.name in WinLabels && p.bodyB.name in WinLabels
  }

  /** Gravity `1`; every body labelled as a wall made non-static; all else kept. */
  function ReleaseWalls(w: World): (r: World)
    ensures r.gravityY == 1.0
    ensures |r.bodies| == |w.bodies|
    ensures forall k :: 0 <= k < |w.bodies| ==>
      r.bodies[k].isStatic == (w.bodies[k].isStatic && w.bodies[k].name != WallLabel)
    ensures forall k :: 0 <= k < |w.bodies| ==>
      r.bodies[k].(isStatic := w.bodies[k].isStatic) == w.bodies[k]
  {
    World(1.0, seq(|w.bodies|, k requires 0 <= k < |w.bodies| =>
      if w.bodies[k].name == WallLabel then w.bodies[k].(isStatic := false) else w.bodies[k]))
  }

  /** The handler's body for one pair. */
  function OnPair(w: World, p: Pair): World {
    if IsWinningPair(p) then ReleaseWalls(w) else w
  }

  /** The handler run over every pair of one collision event, in order. */
  function OnCollisionStart(w: World, pairs: seq<Pair>): (r: World)
    ensures (exists k :: 0 <= k < |pairs| && IsWinningPair(pairs[k])) ==> r == ReleaseWalls(w)
    ensures (forall k :: 0 <= k < |pairs| ==> !IsWinningPair(pairs[k])) ==> r == w
    decreases |pairs|
  {
    if |pairs| == 0 then w
    else
      var first := OnPair(w, pairs[0]);
      var r := OnCollisionStart(first, pairs[1..]);
      assert forall k :: 1 <= k < |pairs| ==> pairs[k] == pairs[1..][k - 1];
      if IsWinningPair(pairs[0]) then ReleaseWallsIdempotent(w); r else r
  }

  /** Releasing twice is releasing once: a second winning pair changes nothing more. */
  lemma ReleaseWallsIdempotent(w: World)
    ensures ReleaseWalls(ReleaseWalls(w)) == ReleaseWalls(w)
  {
    var once := ReleaseWalls(w);
    var twice := ReleaseWalls(once);
    assert forall k :: 0 <= k < |twice.bodies| ==> twice.bodies[k] == once.bodies[k];
  }

  /** The test fires exactly when each of the two labels is the ball's or the goal's. */
  lemma WinningPairLabels(p: Pair)
    ensures IsWinningPair(p) <==>
      (p.bodyA.name == BallLabel || p.bodyA.name == GoalLabel) && (p.bodyB.name == BallLabel || p.bodyB.name == GoalLabel)
    ensures IsWinningPair(p) <==> IsWinningPair(Pair(p.bodyB, p.bodyA))
  {
  }

  /** The ball or the goal touching a wall does not win, and the handler leaves the world alone. */
  lemma WallContactChangesNothing(w: World, x: Body, wall: Body)
    requires (x.name == BallLabel || x.name == GoalLabel) && wall.name == WallLabel
    ensures !IsWinningPair(Pair(x, wall)) && !IsWinningPair(Pair(wall, x))
    ensures OnPair(w, Pair(x, wall)) == w && OnPair(w, Pair(wall, x)) == w
  {
    assert wall.name != BallLabel && wall.name != GoalLabel;
  }
}
