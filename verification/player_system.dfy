/**
 * The logic `PlayerSystem`: the paddle's horizontal velocity follows the
 * left and right arrow keys held at the time of the tick.
 */
module PlayerSystem {
  import opened LinearVelocity
  import opened Components
  import EntitySpawner

  /** Horizontal paddle speed, in world units per second. */
  const PADDLE_VELOCITY: real := 120.0

  /** `process`: a negative id is ignored; otherwise velocity.x is set from the held keys. */
  function Process(entityId: int, leftHeld: bool, rightHeld: bool, v: Velocity): (r: Velocity)
    ensures entityId < 0 ==> r == v
    ensures r.y == v.y
    ensures entityId >= 0 && leftHeld == rightHeld ==> r.x == 0.0
    ensures entityId >= 0 && leftHeld && !rightHeld ==> r.x == -PADDLE_VELOCITY
    ensures entityId >= 0 && rightHeld && !leftHeld ==> r.x == PADDLE_VELOCITY
  {
    if entityId < 0 then v
    else if leftHeld == rightHeld then v.(x := 0.0)
    else v.(x := if leftHeld then -PADDLE_VELOCITY else PADDLE_VELOCITY)
  }

  /**
   * The polled rule agrees with the spawner's event-driven paddle rule at
   * speed 120 and multiplier 1, for the same set of held keys.
   */
  lemma AgreesWithSpawnerRule(entityId: int, pressed: set<int>, v: Velocity)
    requires entityId >= 0
    ensures Process(entityId, EntitySpawner.LEFT_KEY in pressed, EntitySpawner.RIGHT_KEY in pressed, v)
         == EntitySpawner.HandlePlayerInput(pressed, v, PADDLE_VELOCITY, 1.0)
  {
  }
}
