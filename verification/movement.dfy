/**
 * The single-step logic `MovementSystem`: snapshot `previous`, then advance
 * `current` by one tick of velocity. It is the one-pass counterpart of the
 * movement-collision engine.
 */
module Movement {
  import opened LinearVelocity
  import opened Components
  import MovementCollision

  /** `process`: `previous := current`, then `current += velocity * secondsPerTick` per axis. */
  function Step(p: Position, v: Velocity, secondsPerTick: real): (r: Position)
    ensures r.previous == p.current
    ensures r.current.x - p.current.x == v.x * secondsPerTick
    ensures r.current.y - p.current.y == v.y * secondsPerTick
  {
    Position(Vec2(p.current.x + v.x * secondsPerTick, p.current.y + v.y * secondsPerTick), p.current)
  }

  /** `n` ticks of the system with a constant velocity. */
  function Steps(p: Position, v: Velocity, secondsPerTick: real, n: nat): Position
    decreases n
  {
    if n == 0 then p else Step(Steps(p, v, secondsPerTick, n - 1), v, secondsPerTick)
  }

  /** After `n >= 1` ticks the entity has moved `n` whole ticks of velocity and `previous` is one tick behind. */
  lemma {:induction false} StepsTravel(p: Position, v: Velocity, secondsPerTick: real, n: nat)
    ensures var r := Steps(p, v, secondsPerTick, n);
            && r.current.x == p.current.x + (n as real) * (v.x * secondsPerTick)
            && r.current.y == p.current.y + (n as real) * (v.y * secondsPerTick)
            && (n >= 1 ==>
                  r.current.x - r.previous.x == v.x * secondsPerTick
                  && r.current.y - r.previous.y == v.y * secondsPerTick)
    decreases n
  {
    if n > 0 {
      StepsTravel(p, v, secondsPerTick, n - 1);
      var dx := v.x * secondsPerTick;
      var dy := v.y * secondsPerTick;
      assert ((n - 1) as real) * dx + dx == (n as real) * dx;
      assert ((n - 1) as real) * dy + dy == (n as real) * dy;
    }
  }

  /**
   * The engine's four sub-steps move a collider-free entity exactly as this
   * single step does, so the number of passes does not change where it ends.
   */
  lemma PassesAgreeWithSingleStep(e: Entity, v: Velocity, secondsPerTick: real)
    ensures MovementCollision.MovedByTick(e, v, secondsPerTick).position == Step(e.position, v, secondsPerTick)
  {
  }
}
