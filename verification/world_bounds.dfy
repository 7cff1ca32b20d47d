/**
 * The world-bounds rule of the logic `CollisionSystem`: an entity marked
 * world-bounded that has left the world is clamped back inside, each axis on
 * its own, and a bouncing entity reverses the clamped axis's velocity.
 */
module WorldBounds {
  import opened LinearVelocity
  import opened Components

  datatype Motion = Motion(position: Vec2, velocity: Velocity)

  /**
   * One axis: below 0 clamps to 0, otherwise past `limit` clamps so the far
   * edge sits on `limit`; the low bound is tested first.
   */
  function ClampAxis(p: real, extent: real, limit: real): (q: real)
    ensures p < 0.0 ==> q == 0.0
    ensures p >= 0.0 && p + extent > limit ==> q == limit - extent
    ensures p >= 0.0 && p + extent <= limit ==> q == p
  {
    if p < 0.0 then 0.0 else if p + extent > limit then limit - extent else p
  }

  /** Whether the axis gets clamped at all. */
  predicate OutOfBounds(p: real, extent: real, limit: real) {
    p < 0.0 || p + extent > limit
  }

  /** `processWorldBounded` for one entity. */
  function ProcessWorldBounded(worldBounded: bool, bounce: bool, m: Motion, size: Size,
                               worldWidth: real, worldHeight: real): (r: Motion)
    ensures !worldBounded ==> r == m
    ensures worldBounded ==> r.position == Vec2(ClampAxis(m.position.x, size.width, worldWidth),
                                                ClampAxis(m.position.y, size.height, worldHeight))
    ensures worldBounded && bounce && OutOfBounds(m.position.x, size.width, worldWidth) ==> r.velocity.x == -m.velocity.x
    ensures worldBounded && bounce && OutOfBounds(m.position.y, size.height, worldHeight) ==> r.velocity.y == -m.velocity.y
    ensures !(worldBounded && bounce && OutOfBounds(m.position.x, size.width, worldWidth)) ==> r.velocity.x == m.velocity.x
    ensures !(worldBounded && bounce && OutOfBounds(m.position.y, size.height, worldHeight)) ==> r.velocity.y == m.velocity.y
  {
    if !worldBounded then m
    else
      var p := m.position;
      var v1 := if bounce && OutOfBounds(p.x, size.width, worldWidth) then ReverseX(m.velocity) else m.velocity;
      var v2 := if bounce && OutOfBounds(p.y, size.height, worldHeight) then ReverseY(v1) else v1;
      Motion(Vec2(ClampAxis(p.x, size.width, worldWidth), ClampAxis(p.y, size.height, worldHeight)), v2)
  }

  /** The entity fits: `0 <= x <= W - w` and `0 <= y <= H - h`. */
  predicate InBounds(p: Vec2, size: Size, worldWidth: real, worldHeight: real) {
    0.0 <= p.x <= worldWidth - size.width && 0.0 <= p.y <= worldHeight - size.height
  }

  /** An entity no larger than the world always ends inside it. */
  lemma ClampedIsInBounds(bounce: bool, m: Motion, size: Size, worldWidth: real, worldHeight: real)
    requires size.width <= worldWidth && size.height <= worldHeight
    ensures InBounds(ProcessWorldBounded(true, bounce, m, size, worldWidth, worldHeight).position,
                     size, worldWidth, worldHeight)
  {
  }

  /** An entity already inside the world is left exactly as it was. */
  lemma InBoundsUntouched(worldBounded: bool, bounce: bool, m: Motion, size: Size, worldWidth: real, worldHeight: real)
    requires InBounds(m.position, size, worldWidth, worldHeight)
    ensures ProcessWorldBounded(worldBounded, bounce, m, size, worldWidth, worldHeight) == m
  {
  }

  /** Clamping twice is clamping once: the second pass neither moves nor bounces the entity. */
  lemma ClampIdempotent(worldBounded: bool, bounce: bool, m: Motion, size: Size, worldWidth: real, worldHeight: real)
    requires size.width <= worldWidth && size.height <= worldHeight
    ensures var once := ProcessWorldBounded(worldBounded, bounce, m, size, worldWidth, worldHeight);
            ProcessWorldBounded(worldBounded, bounce, once, size, worldWidth, worldHeight) == once
  {
    var once := ProcessWorldBounded(worldBounded, bounce, m, size, worldWidth, worldHeight);
    if worldBounded {
      ClampedIsInBounds(bounce, m, size, worldWidth, worldHeight);
      InBoundsUntouched(worldBounded, bounce, once, size, worldWidth, worldHeight);
    }
  }
}
