/**
 * `MovementCollisionSystem`: every tick, rebuild the spatial grid, then move
 * each entity in `PASSES` equal sub-steps; after each sub-step an entity with
 * a `Collider` is tested against the de-duplicated collidables of the cells it
 * covers, and on a contact it is snapped to the contact edge, bounced, stopped
 * or left alone (ghosted), and the contact is dispatched.
 */
module MovementCollision {
  import opened Wrappers
  import opened LinearVelocity
  import opened Components
  import opened SpatialGrid
  import opened CollisionEvents

  /** Sub-steps per tick, and the fraction of a tick each one covers (`1f / PASSES`). */
  const PASSES: nat := 4
  const SECONDS_PER_PASS: real := 0.25

  datatype Side = LeftSide | RightSide | BottomSide | TopSide

  /**
   * The contact side, read from the collider's edges BEFORE the sub-step, in
   * fixed priority: it was left of the collidable, right of it, below it,
   * above it. No side exists exactly when the two boxes already overlapped
   * before the sub-step.
   */
  function ContactSide(pre: Box, c: Box): (s: Option<Side>)
    ensures s == Some(LeftSide) <==> pre.right <= c.left
    ensures s == Some(RightSide) <==> pre.right > c.left && pre.left >= c.right
    ensures s == Some(BottomSide) <==> pre.right > c.left && pre.left < c.right && pre.top <= c.bottom
    ensures s == Some(TopSide) <==>
              pre.right > c.left && pre.left < c.right && pre.top > c.bottom && pre.bottom >= c.top
    ensures s.None? <==> Overlaps(pre, c)
  {
    if pre.right <= c.left then Some(LeftSide)
    else if pre.left >= c.right then Some(RightSide)
    else if pre.top <= c.bottom then Some(BottomSide)
    else if pre.bottom >= c.top then Some(TopSide)
    else None
  }

  datatype Motion = Motion(position: Vec2, velocity: Velocity)

  /**
   * The non-ghosted response: snap the axis of the contact to the contact edge,
   * then reverse that axis's velocity when bouncing, or zero both otherwise.
   */
  function Respond(p: Vec2, v: Velocity, size: Size, side: Side, bounce: bool, c: Box): (m: Motion)
    ensures side == LeftSide ==> m.position == Vec2(c.left - size.width, p.y)
    ensures side == RightSide ==> m.position == Vec2(c.right, p.y)
    ensures side == BottomSide ==> m.position == Vec2(p.x, c.bottom - size.height)
    ensures side == TopSide ==> m.position == Vec2(p.x, c.top)
    ensures bounce && (side == LeftSide || side == RightSide) ==> m.velocity == Velocity(-v.x, v.y)
    ensures bounce && (side == BottomSide || side == TopSide) ==> m.velocity == Velocity(v.x, -v.y)
    ensures !bounce ==> m.velocity == Velocity(0.0, 0.0)
    ensures !Overlaps(BoxOf(m.position, size), c)
  {
    match side
    case LeftSide => Motion(p.(x := c.left - size.width), if bounce then ReverseX(v) else SetZero())
    case RightSide => Motion(p.(x := c.right), if bounce then ReverseX(v) else SetZero())
    case BottomSide => Motion(p.(y := c.bottom - size.height), if bounce then ReverseY(v) else SetZero())
    case TopSide => Motion(p.(y := c.top), if bounce then ReverseY(v) else SetZero())
  }

  /** The collider's current position and velocity in the store, replaced by the response. */
  function ApplyResponse(w: World, id: EntityId, side: Side, bounce: bool, c: Box): (r: World)
    ensures Frame(w, r)
    ensures r.entities.Keys == w.entities.Keys
    ensures !Movable(w, id) ==> r == w
    ensures forall other :: other in w.entities && other != id ==> r.entities[other] == w.entities[other]
  {
    if !Movable(w, id) then w
    else
      var e := w.entities[id];
      var m := Respond(e.position.current, e.velocity.value, e.size, side, bounce, c);
      Put(w, id, e.(position := e.position.(current := m.position), velocity := Some(m.velocity)))
  }

  /** The box of a live collidable, read from the store when it is tested. */
  function CollidableBox(w: World, id: EntityId): Box
    requires id in w.entities
  {
    BoxOf(w.entities[id].position.current, w.entities[id].size)
  }

  /**
   * Test one candidate. `pre` and `cur` are the collider's edges before and
   * after the sub-step, as read once at the sub-step's start. A candidate that
   * is no longer Collidable is skipped without reading it; a strict overlap
   * with a contact side is resolved and dispatched; anything else is a no-op.
   */
  function ResolveOne(w: World, id: EntityId, collider: Collider, pre: Box, cur: Box,
                      candidate: EntityId, now: int): (r: Step)
    ensures Structure(w, r.world)
    ensures !IsCollidable(w, candidate) ==> r == Step(w, [])
    ensures IsCollidable(w, candidate) && !Overlaps(cur, CollidableBox(w, candidate)) ==> r == Step(w, [])
    ensures IsCollidable(w, candidate) && Overlaps(pre, CollidableBox(w, candidate)) ==> r == Step(w, [])
    ensures PairOnly(r.events, id, candidate)
  {
    if !IsCollidable(w, candidate) then Step(w, [])
    else
      var c := CollidableBox(w, candidate);
      if !Overlaps(cur, c) then Step(w, [])
      else match ContactSide(pre, c)
        case None => Step(w, [])
        case Some(side) =>
          var w1 := if collider.ghosted then w else ApplyResponse(w, id, side, collider.bounce, c);
          FrameIsStructure(w, w1);
          var r := HandleCollision(w1, collider, id, candidate, now);
          StructureTransitive(w, w1, r.world);
          r
  }

  /** Test the candidates in order, each against the store left by the previous ones. */
  function ResolveAll(w: World, id: EntityId, collider: Collider, pre: Box, cur: Box,
                      candidates: seq<EntityId>, now: int): (r: Step)
    ensures Structure(w, r.world)
    ensures forall ev :: ev in r.events && ev.ListenerRan? ==> ev.colliderId == id && ev.collidableId in candidates
    decreases |candidates|
  {
    if candidates == [] then Step(w, [])
    else
      var first := ResolveOne(w, id, collider, pre, cur, candidates[0], now);
      var rest := ResolveAll(first.world, id, collider, pre, cur, candidates[1..], now);
      StructureTransitive(w, first.world, rest.world);
      Step(rest.world, first.events + rest.events)
  }

  /** One sub-step: `current += velocity * secondsPerTick * SECONDS_PER_PASS` on both axes. */
  function Advance(p: Vec2, v: Velocity, secondsPerTick: real): (q: Vec2)
    ensures q.x - p.x == v.x * secondsPerTick * SECONDS_PER_PASS
    ensures q.y - p.y == v.y * secondsPerTick * SECONDS_PER_PASS
  {
    Vec2(p.x + v.x * secondsPerTick * SECONDS_PER_PASS, p.y + v.y * secondsPerTick * SECONDS_PER_PASS)
  }

  /**
   * One pass of `process` for entity `id`: record the edges, move, and for a
   * collider resolve the candidates of the cells its moved box covers.
   */
  function Pass(w: World, grid: Grid, cellSize: int, secondsPerTick: real, id: EntityId, now: int): (r: Step)
    requires cellSize > 0
    ensures Structure(w, r.world)
    ensures !Movable(w, id) ==> r == Step(w, [])
    ensures Movable(w, id) && w.entities[id].collider.None? ==>
              && r.events == []
              && r.world == Put(w, id, w.entities[id].(position := w.entities[id].position.(
                   current := Advance(w.entities[id].position.current, w.entities[id].velocity.value, secondsPerTick))))
  {
    if !Movable(w, id) then Step(w, [])
    else
      var e := w.entities[id];
      var pre := BoxOf(e.position.current, e.size);
      var moved := e.(position := e.position.(current := Advance(e.position.current, e.velocity.value, secondsPerTick)));
      var w1 := Put(w, id, moved);
      assert Frame(w, w1);
      if e.collider.None? then Step(w1, [])
      else
        var cur := BoxOf(moved.position.current, e.size);
        var r := ResolveAll(w1, id, e.collider.value, pre, cur, Candidates(grid, CellsOf(cur, cellSize)), now);
        FrameIsStructure(w, w1);
        StructureTransitive(w, w1, r.world);
        r
  }

  /** `n` passes in a row. */
  function Passes(w: World, grid: Grid, cellSize: int, secondsPerTick: real, id: EntityId, now: int, n: nat): (r: Step)
    requires cellSize > 0
    ensures Structure(w, r.world)
    decreases n
  {
    if n == 0 then Step(w, [])
    else
      var first := Pass(w, grid, cellSize, secondsPerTick, id, now);
      var rest := Passes(first.world, grid, cellSize, secondsPerTick, id, now, n - 1);
      StructureTransitive(w, first.world, rest.world);
      Step(rest.world, first.events + rest.events)
  }

  /** `process(id)`: snapshot `previous` from `current` once, then run the passes. */
  function ProcessEntity(w: World, grid: Grid, cellSize: int, secondsPerTick: real, id: EntityId, now: int): (r: Step)
    requires cellSize > 0
    ensures Structure(w, r.world)
    ensures !Movable(w, id) ==> r == Step(w, [])
  {
    if !Movable(w, id) then Step(w, [])
    else
      var e := w.entities[id];
      var w0 := Put(w, id, e.(position := e.position.(previous := e.position.current)));
      assert Frame(w, w0);
      var r := Passes(w0, grid, cellSize, secondsPerTick, id, now, PASSES);
      StructureTransitive(w, w0, r.world);
      r
  }

  /** The entities of the system's subscription, processed in its order. */
  function ProcessAll(w: World, grid: Grid, cellSize: int, secondsPerTick: real, ids: seq<EntityId>, now: int): (r: Step)
    requires cellSize > 0
    ensures Structure(w, r.world)
    decreases |ids|
  {
    if ids == [] then Step(w, [])
    else
      var first := ProcessEntity(w, grid, cellSize, secondsPerTick, ids[0], now);
      var rest := ProcessAll(first.world, grid, cellSize, secondsPerTick, ids[1..], now);
      StructureTransitive(w, first.world, rest.world);
      Step(rest.world, first.events + rest.events)
  }

  /**
   * One logic tick of the system: `begin` builds the grid from the collidable
   * subscription, then every subscribed entity is processed against it. The
   * engine never creates entities or changes sizes and collision components.
   */
  function Tick(w: World, entities: seq<EntityId>, collidables: seq<EntityId>,
                cellSize: int, secondsPerTick: real, now: int): (r: Step)
    requires cellSize > 0
    ensures Structure(w, r.world)
  {
    ProcessAll(w, BuildGrid(w, collidables, cellSize), cellSize, secondsPerTick, entities, now)
  }

  // ---------------------------------------------------------------- properties

  /**
   * A contact nobody reacts to (no sound due, neither listener due) changes
   * only the collider's motion: the snap-and-bounce-or-stop response, or
   * nothing at all for a ghosted collider.
   */
  lemma QuietContact(w: World, id: EntityId, collider: Collider, pre: Box, cur: Box,
                     candidate: EntityId, now: int, side: Side)
    requires IsCollidable(w, candidate)
    requires Overlaps(cur, CollidableBox(w, candidate))
    requires ContactSide(pre, CollidableBox(w, candidate)) == Some(side)
    requires !SoundDue(w, collider, candidate, now) && !ListenerDue(w, id, now) && !ListenerDue(w, candidate, now)
    ensures var r := ResolveOne(w, id, collider, pre, cur, candidate, now);
            && r.events == []
            && (collider.ghosted ==> r.world == w)
            && (!collider.ghosted ==> r.world == ApplyResponse(w, id, side, collider.bounce, CollidableBox(w, candidate)))
  {
    var c := CollidableBox(w, candidate);
    var w1 := if collider.ghosted then w else ApplyResponse(w, id, side, collider.bounce, c);
    assert w1.entities.Keys == w.entities.Keys;
    assert forall k :: k in w.entities ==>
      (w1.entities[k].collisionListener == w.entities[k].collisionListener
       && w1.entities[k].impactSound == w.entities[k].impactSound);
    assert !SoundDue(w1, collider, candidate, now);
    assert !ListenerDue(w1, id, now) && !ListenerDue(w1, candidate, now);
    assert HandleCollision(w1, collider, id, candidate, now) == Step(w1, []);
  }

  /** The same velocity and position arithmetic as one `Advance`, repeated `n` times. */
  function AdvanceBy(p: Vec2, v: Velocity, secondsPerTick: real, n: nat): Vec2 {
    Vec2(p.x + (n as real) * (v.x * secondsPerTick * SECONDS_PER_PASS),
         p.y + (n as real) * (v.y * secondsPerTick * SECONDS_PER_PASS))
  }

  /**
   * An entity without a collider: `n` passes move it by `n` sub-steps, keep
   * every other field and every other entity, and emit nothing.
   */
  lemma {:induction false} NonColliderPasses(w: World, grid: Grid, cellSize: int, secondsPerTick: real,
                                             id: EntityId, now: int, n: nat)
    requires cellSize > 0
    requires Movable(w, id) && w.entities[id].collider.None?
    ensures var r := Passes(w, grid, cellSize, secondsPerTick, id, now, n);
            var e := w.entities[id];
            && r.events == []
            && r.world == Put(w, id, e.(position := e.position.(
                 current := AdvanceBy(e.position.current, e.velocity.value, secondsPerTick, n))))
    decreases n
  {
    var e := w.entities[id];
    var v := e.velocity.value;
    if n == 0 {
      assert AdvanceBy(e.position.current, v, secondsPerTick, 0) == e.position.current;
      assert w.entities[id := e] == w.entities;
    } else {
      var first := Pass(w, grid, cellSize, secondsPerTick, id, now);
      var e1 := e.(position := e.position.(current := Advance(e.position.current, v, secondsPerTick)));
      assert first == Step(Put(w, id, e1), []);
      NonColliderPasses(first.world, grid, cellSize, secondsPerTick, id, now, n - 1);
      var q := AdvanceBy(e1.position.current, v, secondsPerTick, n - 1);
      AdvanceThenAdvanceBy(e.position.current, v, secondsPerTick, n);
      assert first.world.entities[id := e1.(position := e1.position.(current := q))]
          == w.entities[id := e.(position := e.position.(current := q))];
    }
  }

  /** One sub-step followed by `n - 1` more is `n` sub-steps. */
  lemma AdvanceThenAdvanceBy(p: Vec2, v: Velocity, secondsPerTick: real, n: nat)
    requires n >= 1
    ensures AdvanceBy(Advance(p, v, secondsPerTick), v, secondsPerTick, n - 1) == AdvanceBy(p, v, secondsPerTick, n)
  {
    var dx := v.x * secondsPerTick * SECONDS_PER_PASS;
    var dy := v.y * secondsPerTick * SECONDS_PER_PASS;
    var k := (n - 1) as real;
    assert k * dx + dx == (n as real) * dx;
    assert k * dy + dy == (n as real) * dy;
    assert Advance(p, v, secondsPerTick) == Vec2(p.x + dx, p.y + dy);
    assert AdvanceBy(Vec2(p.x + dx, p.y + dy), v, secondsPerTick, n - 1) == Vec2(p.x + dx + k * dx, p.y + dy + k * dy);
  }

  /** An entity moved by one whole tick of its velocity, with `previous` at its old `current`. */
  function MovedByTick(e: Entity, v: Velocity, secondsPerTick: real): Entity {
    var p := e.position.current;
    e.(position := Position(Vec2(p.x + v.x * secondsPerTick, p.y + v.y * secondsPerTick), p))
  }

  /**
   * A whole `process` of an entity without a collider: `previous` becomes the
   * old `current`, `current` advances by `velocity * secondsPerTick`, the
   * velocity and every other entity are kept, and nothing is emitted.
   */
  lemma NonColliderTick(w: World, grid: Grid, cellSize: int, secondsPerTick: real, id: EntityId, now: int)
    requires cellSize > 0
    requires Movable(w, id) && w.entities[id].collider.None?
    ensures ProcessEntity(w, grid, cellSize, secondsPerTick, id, now)
         == Step(Put(w, id, MovedByTick(w.entities[id], w.entities[id].velocity.value, secondsPerTick)), [])
  {
    var e := w.entities[id];
    var p := e.position.current;
    var v := e.velocity.value;
    var e0 := e.(position := e.position.(previous := p));
    var w0 := Put(w, id, e0);
    assert ProcessEntity(w, grid, cellSize, secondsPerTick, id, now)
        == Passes(w0, grid, cellSize, secondsPerTick, id, now, PASSES);
    NonColliderPasses(w0, grid, cellSize, secondsPerTick, id, now, PASSES);
    assert 4.0 * (v.x * secondsPerTick * SECONDS_PER_PASS) == v.x * secondsPerTick;
    assert 4.0 * (v.y * secondsPerTick * SECONDS_PER_PASS) == v.y * secondsPerTick;
    var moved := e0.(position := e0.position.(current := AdvanceBy(p, v, secondsPerTick, PASSES)));
    assert moved == MovedByTick(e, v, secondsPerTick);
    assert w0.entities[id := moved] == w.entities[id := moved];
  }

  /** Boxes that only share an edge are not in contact: nothing moves and nothing fires. */
  lemma TouchingIsNoContact(w: World, id: EntityId, collider: Collider, pre: Box, cur: Box,
                            candidate: EntityId, now: int)
    requires IsCollidable(w, candidate)
    requires cur.right == CollidableBox(w, candidate).left
             || cur.left == CollidableBox(w, candidate).right
             || cur.top == CollidableBox(w, candidate).bottom
             || cur.bottom == CollidableBox(w, candidate).top
    ensures ResolveOne(w, id, collider, pre, cur, candidate, now) == Step(w, [])
  {
  }

  /**
   * Sub-stepping against tunnelling, on one axis: positions `x0 + k * d` for
   * `k = j .. n`, where the edge before `j` is still at or left of `lo`. If
   * the last one is at or past `hi` and a step is shorter than the mover's
   * extent plus the obstacle's, some `k` in `j .. n` strictly overlaps
   * `(lo, hi)` while `k - 1` did not reach `lo`.
   */
  lemma {:induction false} FirstOverlappingStep(x0: real, d: real, extent: real, lo: real, hi: real, n: nat, j: nat)
    returns (k: nat)
    requires 1 <= j <= n
    requires d > 0.0 && extent > 0.0
    requires x0 + ((j - 1) as real) * d + extent <= lo
    requires x0 + (n as real) * d >= hi
    requires d < extent + (hi - lo)
    ensures j <= k <= n
    ensures x0 + ((k - 1) as real) * d + extent <= lo
    ensures x0 + (k as real) * d < hi && x0 + (k as real) * d + extent > lo
    decreases n - j
  {
    var prev := x0 + ((j - 1) as real) * d;
    assert x0 + (j as real) * d == prev + d;
    if x0 + (j as real) * d + extent > lo {
      k := j;
    } else {
      k := FirstOverlappingStep(x0, d, extent, lo, hi, n, j + 1);
    }
  }

  /**
   * A collider moving right with no vertical motion, starting level with a
   * collidable and left of it, whose tick would carry it past the
   * collidable's right edge: as long as one sub-step is shorter than the two
   * widths together, some pass of the tick lands overlapping the collidable
   * and sees it from the left, so the contact is resolved there rather than
   * skipped over.
   */
  lemma SubStepsCatchObstacle(p: Vec2, v: Velocity, secondsPerTick: real, size: Size, c: Box)
    returns (k: nat)
    requires secondsPerTick > 0.0 && v.x > 0.0 && v.y == 0.0
    requires size.width > 0.0 && c.left < c.right
    requires p.y < c.top && p.y + size.height > c.bottom
    requires p.x + size.width <= c.left
    requires p.x + v.x * secondsPerTick >= c.right
    requires v.x * secondsPerTick * SECONDS_PER_PASS < size.width + (c.right - c.left)
    ensures 1 <= k <= PASSES
    ensures Overlaps(BoxOf(AdvanceBy(p, v, secondsPerTick, k), size), c)
    ensures ContactSide(BoxOf(AdvanceBy(p, v, secondsPerTick, k - 1), size), c) == Some(LeftSide)
  {
    var d := v.x * secondsPerTick * SECONDS_PER_PASS;
    assert (PASSES as real) * d == v.x * secondsPerTick;
    k := FirstOverlappingStep(p.x, d, size.width, c.left, c.right, PASSES, 1);
  }

  // ---------------------------------------------------------------- scenarios

  /**
   * The spawned paddle (id 0, 12.1 x 2.42 at (53.95, 10), top at 12.42),
   * standing still, and a ball (id 1) of the game's ball size, with no
   * listeners or sounds.
   */
  function Scene(ball: Vec2, ballVelocity: Velocity): World {
    World(map[
      0 := Entity(Position(PADDLE_SPAWN, PADDLE_SPAWN), PADDLE_SIZE, None, None, true,
                  None, None, None, None, None),
      1 := Entity(Position(ball, ball), Size(BALL_SIZE, BALL_SIZE), Some(ballVelocity),
                  Some(Collider(false, true, false)), false, None, None, None, None, None)], 0.0)
  }

  /**
   * The starting ball spawns at y = 10 + 1.3 + 1.1 = 12.4, which is already
   * 0.02 below the paddle's top at 12.42: it overlaps the paddle before it
   * moves. So after its first sub-step (at 1/60 s per tick, velocity -120) no
   * contact side exists and the paddle leaves it untouched.
   */
  lemma BallStartingInsidePaddleIsIgnored()
    ensures var ballSize := Size(BALL_SIZE, BALL_SIZE);
            var pre := BoxOf(STARTING_BALL_SPAWN, ballSize);
            var cur := BoxOf(Advance(STARTING_BALL_SPAWN, Velocity(0.0, -120.0), 1.0 / 60.0), ballSize);
            var w := Scene(STARTING_BALL_SPAWN, Velocity(0.0, -120.0));
            && Overlaps(pre, CollidableBox(w, 0))
            && Overlaps(cur, CollidableBox(w, 0))
            && ContactSide(pre, CollidableBox(w, 0)).None?
            && ResolveOne(w, 1, Collider(false, true, false), pre, cur, 0, 0) == Step(w, [])
  {
    assert STARTING_BALL_SPAWN == Vec2(59.35, 12.4);
    assert PADDLE_SPAWN == Vec2(53.95, 10.0);
  }

  /**
   * A ball of the same size falling from y = 12.5 above the paddle's centre
   * lands inside the paddle after one sub-step (y = 12.0), hits it from above,
   * and is snapped onto the paddle top (y = 12.42) with its vertical velocity
   * reversed to +120.
   */
  lemma BallBouncesOffPaddleTop()
    ensures var v := Velocity(0.0, -120.0);
            var start := Vec2(59.35, 12.5);
            var ballSize := Size(BALL_SIZE, BALL_SIZE);
            var pre := BoxOf(start, ballSize);
            var moved := Advance(start, v, 1.0 / 60.0);
            var w := Put(Scene(start, v), 1, Scene(moved, v).entities[1]);
            var r := ResolveOne(w, 1, Collider(false, true, false), pre, BoxOf(moved, ballSize), 0, 0);
            && moved == Vec2(59.35, 12.0)
            && r.events == []
            && r.world.entities[1].position.current == Vec2(59.35, 12.42)
            && r.world.entities[1].velocity == Some(Velocity(0.0, 120.0))
  {
    var v := Velocity(0.0, -120.0);
    var start := Vec2(59.35, 12.5);
    var ballSize := Size(BALL_SIZE, BALL_SIZE);
    var pre := BoxOf(start, ballSize);
    var moved := Advance(start, v, 1.0 / 60.0);
    var w := Put(Scene(start, v), 1, Scene(moved, v).entities[1]);
    assert PADDLE_SPAWN == Vec2(53.95, 10.0);
    var c := CollidableBox(w, 0);
    assert ContactSide(pre, c) == Some(TopSide);
    QuietContact(w, 1, Collider(false, true, false), pre, BoxOf(moved, ballSize), 0, 0, TopSide);
  }
}
