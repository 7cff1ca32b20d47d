/**
 * The entity-component store. Entities are integer ids; every behaviour lives
 * in the systems, which read and replace the component records kept here.
 * Every entity the game spawns has a `Position` and a `Size`, so those two are
 * mandatory fields; every other component is optional.
 */
module Components {
  import opened Wrappers
  import opened LinearVelocity

  type EntityId = int

  /** Opaque handles the store forwards without interpreting. */
  type SoundHandle = int
  type CallbackHandle = int

  datatype Vec2 = Vec2(x: real, y: real)

  /** `previous` is kept for render interpolation between two logic ticks. */
  datatype Position = Position(current: Vec2, previous: Vec2)

  datatype Size = Size(width: real, height: real)

  /** How an entity that probes for collisions reacts to one. */
  datatype Collider = Collider(ghosted: bool, bounce: bool, playImpactSound: bool)

  /** Timestamps are readings of a nanosecond clock. */
  datatype ImpactSound = ImpactSound(sound: Option<SoundHandle>, lastPlayedTime: int)

  /**
   * The collision callbacks the game attaches, as data interpreted by the
   * dispatcher: the brick damage rule (closing over the brick's own hitpoints
   * and sprite) and the paddle's rule that re-centres the starting ball.
   */
  datatype Listener =
    | BrickListener(startHitpoints: int)
    | CentreBallListener(paddleId: EntityId, ballId: EntityId, ballSize: real)

  datatype CollisionListener = CollisionListener(listener: Option<Listener>, lastCollisionTime: int)

  datatype Texture = GreenBrick | YellowBrick | RedBrick | GreyBrick | BallTexture | PaddleTexture

  datatype Sprite = Sprite(texture: Option<Texture>)

  datatype Despawnable = Despawnable(onDespawn: Option<CallbackHandle>)

  datatype Entity = Entity(
    position: Position,
    size: Size,
    velocity: Option<Velocity>,
    collider: Option<Collider>,
    collidable: bool,
    collisionListener: Option<CollisionListener>,
    impactSound: Option<ImpactSound>,
    hitpoints: Option<int>,
    sprite: Option<Sprite>,
    despawnable: Option<Despawnable>)

  /**
   * The store, plus the one piece of spawner state a listener writes:
   * the last non-zero x velocity of the starting ball.
   */
  datatype World = World(entities: map<EntityId, Entity>, previousVelocity: real)

  /** Observable side effects: a sound played, a listener invoked, an entity deleted. */
  datatype Event =
    | SoundPlayed(sound: SoundHandle)
    | ListenerRan(owner: EntityId, colliderId: EntityId, collidableId: EntityId)
    | EntityDeleted(id: EntityId)

  /** A world together with the events produced while reaching it. */
  datatype Step = Step(world: World, events: seq<Event>)

  /** An axis-aligned box by its four edges. */
  datatype Box = Box(left: real, bottom: real, right: real, top: real)

  function BoxOf(p: Vec2, s: Size): (b: Box)
    ensures b.right - b.left == s.width && b.top - b.bottom == s.height
    ensures b.left == p.x && b.bottom == p.y
  {
    Box(p.x, p.y, p.x + s.width, p.y + s.height)
  }

  /**
   * Strict overlap: boxes that only share an edge do not overlap.
   */
  predicate Overlaps(a: Box, b: Box) {
    a.left < b.right && a.right > b.left && a.bottom < b.top && a.top > b.bottom
  }

  /** A box whose edges are in order, as for any entity with a non-negative size. */
  predicate WellFormed(b: Box) {
    b.left <= b.right && b.bottom <= b.top
  }

  predicate Alive(w: World, id: EntityId) {
    id in w.entities
  }

  /** The liveness test made before a collidable is dereferenced. */
  predicate IsCollidable(w: World, id: EntityId) {
    id in w.entities && w.entities[id].collidable
  }

  /** An entity the movement systems can integrate: alive and with a velocity. */
  predicate Movable(w: World, id: EntityId) {
    id in w.entities && w.entities[id].velocity.Some?
  }

  /** Replaces one entity's record. */
  function Put(w: World, id: EntityId, e: Entity): (r: World)
    ensures r.entities == w.entities[id := e]
    ensures r.previousVelocity == w.previousVelocity
  {
    w.(entities := w.entities[id := e])
  }

  /** `world.delete(id)`, taken as immediate removal from the store. */
  function Delete(w: World, id: EntityId): (r: World)
    ensures !Alive(r, id)
    ensures forall other :: other != id && other in w.entities ==> other in r.entities && r.entities[other] == w.entities[other]
    ensures r.entities.Keys == w.entities.Keys - {id}
    ensures r.previousVelocity == w.previousVelocity
  {
    w.(entities := w.entities - {id})
  }

  // ---------------------------------------------------------------- spawn constants

  /** The world is 120 units wide; the paddle and the starting ball spawn centred in it. */
  const WORLD_WIDTH: real := 120.0

  const PADDLE_SIZE: Size := Size(12.1, 2.42)
  const PADDLE_SPAWN: Vec2 := Vec2(WORLD_WIDTH / 2.0 - 12.1 / 2.0, 10.0)

  const BALL_SIZE: real := 1.3

  /** The starting ball spawns 1.1 units above a ball's height over the paddle's spawn height. */
  const STARTING_BALL_SPAWN: Vec2 := Vec2(WORLD_WIDTH / 2.0 - BALL_SIZE / 2.0, 10.0 + BALL_SIZE + 1.1)
}
