/**
 The keyboard controls: each key press reads the ball's velocity and nudges one
 component by 5. W or the up arrow pushes up, D or the right arrow right, S or
 the down arrow down, A or the left arrow left. Screen `y` grows downwards.
 */
module Controls {

  datatype Velocity = Velocity(x: real, y: real)

  /** The way a key pushes the ball. */
  datatype Heading = Up | Right | Down | Left

  datatype Option<T> = None | Some(value: T)

  /** The change in speed of one key press. */
  const Nudge: real := 5.0

  /** The handler as written: four independent tests, each writing a velocity built from the one read at the start. */
  function OnKeyDown(keyCode: int, v: Velocity): (r: Velocity)
    ensures r.x == v.x || r.y == v.y
    ensures r.x - v.x in {-Nudge, 0.0, Nudge} && r.y - v.y in {-Nudge, 0.0, Nudge}
  {
    var afterUp := if keyCode == 87 || keyCode == 38 then Velocity(v.x, v.y - Nudge) else v;
    var afterRight := if keyCode == 68 || keyCode == 39 then Velocity(v.x + Nudge, v.y) else afterUp;
    var afterDown := if keyCode == 83 || keyCode == 40 then Velocity(v.x, v.y + Nudge) else afterRight;
    if keyCode == 65 || keyCode == 37 then Velocity(v.x - Nudge, v.y) else afterDown
  }

  /** The direction a key code stands for, if any. */
  function KeyDirection(keyCode: int): (d: Option<Heading>)
    ensures d.Some? <==> keyCode in {87, 38, 68, 39, 83, 40, 65, 37}
  {
    if keyCode == 87 || keyCode == 38 then Some(Up)
    else if keyCode == 68 || keyCode == 39 then Some(Right)
    else if keyCode == 83 || keyCode == 40 then Some(Down)
    else if keyCode == 65 || keyCode == 37 then Some(Left)
    else None
  }

  /** The velocity after one push in direction `d`. */
  function Push(d: Heading, v: Velocity): (r: Velocity)
    ensures d == Up || d == Down ==> r.x == v.x
    ensures d == Left || d == Right ==> r.y == v.y
  {
    match d
    case Up => Velocity(v.x, v.y - Nudge)
    case Right => Velocity(v.x + Nudge, v.y)
    case Down => Velocity(v.x, v.y + Nudge)
    case Left => Velocity(v.x - Nudge, v.y)
  }

  function Opposite(d: Heading): Heading {
    match d
    case Up => Down
    case Down => Up
    case Left => Right
    case Right => Left
  }

  /**
   At most one of the four tests matches a key, so the handler is one push in the
   key's direction, and keys outside the eight leave the velocity as it was.
   */
  lemma OnKeyDownIsOnePush(keyCode: int, v: Velocity)
    ensures KeyDirection(keyCode).Some? ==> OnKeyDown(keyCode, v) == Push(KeyDirection(keyCode).value, v)
    ensures KeyDirection(keyCode).None? ==> OnKeyDown(keyCode, v) == v
  {
  }

  /** A push followed by the opposite push restores the velocity. */
  lemma PushOppositeCancels(d: Heading, v: Velocity)
    ensures Push(Opposite(d), Push(d, v)) == v
  {
  }

  /** Pressing W then S, or D then A, gives back the starting velocity. */
  lemma OppositeKeysCancel(v: Velocity)
    ensures OnKeyDown(83, OnKeyDown(87, v)) == v
    ensures OnKeyDown(40, OnKeyDown(38, v)) == v
    ensures OnKeyDown(65, OnKeyDown(68, v)) == v
    ensures OnKeyDown(37, OnKeyDown(39, v)) == v
  {
  }
}
