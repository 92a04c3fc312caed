/**
 The physics bodies the game places in its world, reduced to what the game itself
 sets or reads: position, shape, label (`name`) and whether the body is static.
 */
module Bodies {

  datatype Shape = Rectangle(width: real, height: real) | Circle(radius: real)

  datatype Body = Body(x: real, y: real, shape: Shape, name: string, isStatic: bool)

  /** The label the physics library gives a rectangle created without one. */
  const DefaultRectangleLabel: string := "Rectangle Body"

  /** The label of every interior maze wall. */
  const WallLabel: string := "wall"
  const GoalLabel: string := "goal"
  const BallLabel: string := "ball"
}
