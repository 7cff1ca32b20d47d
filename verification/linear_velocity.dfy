/**
 * The `LinearVelocity` component: a velocity along the x and y axes, in world
 * units per second, with the four in-place operations the systems use.
 */
module LinearVelocity {

  datatype Velocity = Velocity(x: real, y: real)

  /** `set(x, y)`: both components are replaced. */
  function Set(x: real, y: real): (v: Velocity)
    ensures v.x == x && v.y == y
  {
    Velocity(x, y)
  }

  /** `setZero()`: the velocity at rest. */
  function SetZero(): (v: Velocity)
    ensures v.x == 0.0 && v.y == 0.0
  {
    Set(0.0, 0.0)
  }

  /** `reverseX()`: only the x component changes sign. */
  function ReverseX(v: Velocity): (r: Velocity)
    ensures r.x == -v.x && r.y == v.y
  {
    v.(x := -v.x)
  }

  /** `reverseY()`: only the y component changes sign. */
  function ReverseY(v: Velocity): (r: Velocity)
    ensures r.x == v.x && r.y == -v.y
  {
    v.(y := -v.y)
  }

  /** Reversing an axis twice restores the velocity; reversing one axis never disturbs the other. */
  lemma ReverseInvolutions(v: Velocity)
    ensures ReverseX(ReverseX(v)) == v
    ensures ReverseY(ReverseY(v)) == v
    ensures ReverseX(ReverseY(v)) == ReverseY(ReverseX(v))
  {
  }

  /** A reversed velocity has the same speed along each axis. */
  lemma ReversePreservesSpeed(v: Velocity)
    ensures ReverseX(v).x * ReverseX(v).x == v.x * v.x
    ensures ReverseY(v).y * ReverseY(v).y == v.y * v.y
  {
  }
}
