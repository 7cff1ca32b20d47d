/**
 * The game rules `EntitySpawner` attaches to the entities it spawns: arrow
 * keys to horizontal velocity, the brick hitpoint and texture rule, and the
 * paddle's rule that keeps the starting ball centred on it.
 */
module EntitySpawner {
  import opened Wrappers
  import opened LinearVelocity
  import opened Components

  /** libGDX `Input.Keys.LEFT` and `Input.Keys.RIGHT`. */
  const LEFT_KEY: int := 21
  const RIGHT_KEY: int := 22

  /** The paddle's velocity is multiplied by the movement engine's pass count. */
  const PADDLE_MULTIPLIER: real := 4.0
  const STARTING_BALL_MULTIPLIER: real := 1.0

  // ---------------------------------------------------------------- input

  /**
   * `handlePlayerInput`: both or neither arrow held stops horizontal motion,
   * otherwise the held side sets a signed speed; y is never touched.
   */
  function HandlePlayerInput(pressed: set<int>, v: Velocity, paddleVelocity: real, multiplier: real): (r: Velocity)
    ensures r.y == v.y
    ensures (LEFT_KEY in pressed) == (RIGHT_KEY in pressed) ==> r.x == 0.0
    ensures LEFT_KEY in pressed && RIGHT_KEY !in pressed ==> r.x == -paddleVelocity * multiplier
    ensures RIGHT_KEY in pressed && LEFT_KEY !in pressed ==> r.x == paddleVelocity * multiplier
  {
    var left := LEFT_KEY in pressed;
    var right := RIGHT_KEY in pressed;
    if left == right then v.(x := 0.0)
    else v.(x := (if left then -paddleVelocity else paddleVelocity) * multiplier)
  }

  /** The input processor's private pressed-key set together with the velocity it drives. */
  datatype KeyState = KeyState(pressed: set<int>, velocity: Velocity)

  datatype KeyEvent = KeyDown(keycode: int) | KeyUp(keycode: int)

  /**
   * One input callback. A key-up for a key that is not held is ignored
   * entirely; otherwise the set is updated and the velocity recomputed.
   */
  function OnKey(s: KeyState, ev: KeyEvent, paddleVelocity: real, multiplier: real): (r: KeyState)
    ensures ev.KeyDown? ==> r.pressed == s.pressed + {ev.keycode}
    ensures ev.KeyUp? && ev.keycode !in s.pressed ==> r == s
    ensures ev.KeyUp? && ev.keycode in s.pressed ==> r.pressed == s.pressed - {ev.keycode}
    ensures r.velocity.y == s.velocity.y
    ensures r != s ==> r.velocity == HandlePlayerInput(r.pressed, s.velocity, paddleVelocity, multiplier)
  {
    match ev
    case KeyDown(k) =>
      var pressed := s.pressed + {k};
      KeyState(pressed, HandlePlayerInput(pressed, s.velocity, paddleVelocity, multiplier))
    case KeyUp(k) =>
      if k !in s.pressed then s
      else
        var pressed := s.pressed - {k};
        KeyState(pressed, HandlePlayerInput(pressed, s.velocity, paddleVelocity, multiplier))
  }

  /** The starting ball's processor: speeds are not scaled. */
  function StartingBallOnKey(s: KeyState, ev: KeyEvent, paddleVelocity: real): (r: KeyState)
    ensures r != s ==> r.velocity.x == 0.0 || r.velocity.x == paddleVelocity || r.velocity.x == -paddleVelocity
  {
    OnKey(s, ev, paddleVelocity, STARTING_BALL_MULTIPLIER)
  }

  /**
   * The paddle's processor: it tracks the same keys as the starting ball's,
   * and every horizontal speed it sets is `PADDLE_MULTIPLIER` times the
   * starting ball's.
   */
  function PaddleOnKey(s: KeyState, ev: KeyEvent, paddleVelocity: real): (r: KeyState)
    ensures r.pressed == StartingBallOnKey(s, ev, paddleVelocity).pressed
    ensures r != s ==> r.velocity.x == PADDLE_MULTIPLIER * StartingBallOnKey(s, ev, paddleVelocity).velocity.x
  {
    OnKey(s, ev, paddleVelocity, PADDLE_MULTIPLIER)
  }

  /**
   * Pressing a key that was not held and releasing it restores the pressed
   * set, and the velocity is then what the original keys dictate.
   */
  lemma KeyUpUndoesKeyDown(s: KeyState, k: int, paddleVelocity: real, multiplier: real)
    requires k !in s.pressed
    ensures OnKey(OnKey(s, KeyDown(k), paddleVelocity, multiplier), KeyUp(k), paddleVelocity, multiplier).pressed == s.pressed
    ensures OnKey(OnKey(s, KeyDown(k), paddleVelocity, multiplier), KeyUp(k), paddleVelocity, multiplier).velocity ==
            HandlePlayerInput(s.pressed, s.velocity, paddleVelocity, multiplier)
  {
    var down := OnKey(s, KeyDown(k), paddleVelocity, multiplier);
    assert down.pressed - {k} == s.pressed;
  }

  /** For the same keys, the paddle moves exactly `PADDLE_MULTIPLIER` times as fast as the starting ball. */
  lemma PaddleIsFasterByPasses(pressed: set<int>, v: Velocity, paddleVelocity: real)
    ensures HandlePlayerInput(pressed, v, paddleVelocity, PADDLE_MULTIPLIER).x ==
            PADDLE_MULTIPLIER * HandlePlayerInput(pressed, v, paddleVelocity, STARTING_BALL_MULTIPLIER).x
  {
  }

  // ---------------------------------------------------------------- bricks

  /** The texture a brick is spawned with. */
  function InitialBrickTexture(startHitpoints: int): (t: Texture)
    ensures t == GreenBrick <==> startHitpoints > 2
    ensures t == YellowBrick <==> startHitpoints == 2
    ensures t == RedBrick <==> startHitpoints == 1
    ensures t == GreyBrick <==> startHitpoints <= 0
  {
    if startHitpoints > 2 then GreenBrick
    else if startHitpoints > 0 then (if startHitpoints == 2 then YellowBrick else RedBrick)
    else GreyBrick
  }

  /** The parts of a brick its listener reads and writes. */
  datatype BrickState = BrickState(hitpoints: int, texture: Option<Texture>)

  datatype BrickHit = BrickHit(brick: BrickState, delete: bool)

  /** The texture tier for a remaining-hitpoint ratio, used by bricks of more than 3 hitpoints. */
  function RatioTexture(remaining: int, startHitpoints: int): (t: Texture)
    requires startHitpoints > 0
    ensures t == GreenBrick || t == YellowBrick || t == RedBrick
  {
    var ratio := remaining as real / startHitpoints as real;
    if ratio > 0.6 then GreenBrick else if ratio > 0.3 then YellowBrick else RedBrick
  }

  /**
   * The brick's collision listener. Positive hitpoints lose exactly one; the
   * texture then follows the remaining ratio for bricks of more than 3 start
   * hitpoints, while for smaller bricks the switch falls through, setting green
   * for 3, 2 and 1 and leaving 0 alone. The brick is deleted when its
   * hitpoints are 0 afterwards.
   */
  function HitBrick(startHitpoints: int, s: BrickState): (r: BrickHit)
    ensures s.hitpoints > 0 ==> r.brick.hitpoints == s.hitpoints - 1
    ensures s.hitpoints <= 0 ==> r.brick == s
    ensures r.delete <==> r.brick.hitpoints == 0
    ensures r.delete <==> s.hitpoints == 0 || s.hitpoints == 1
    ensures s.hitpoints > 0 && startHitpoints > 3 ==>
              r.brick.texture == Some(RatioTexture(r.brick.hitpoints, startHitpoints))
    ensures s.hitpoints > 0 && startHitpoints <= 3 && 1 <= r.brick.hitpoints <= 3 ==>
              r.brick.texture == Some(GreenBrick)
    ensures s.hitpoints > 0 && startHitpoints <= 3 && !(1 <= r.brick.hitpoints <= 3) ==>
              r.brick.texture == s.texture
  {
    var brick :=
      if s.hitpoints > 0 then
        var hp := s.hitpoints - 1;
        var texture :=
          if startHitpoints > 3 then Some(RatioTexture(hp, startHitpoints))
          else if hp == 3 || hp == 2 || hp == 1 then Some(GreenBrick)
          else s.texture;
        BrickState(hp, texture)
      else s;
    BrickHit(brick, brick.hitpoints == 0)
  }

  /** `n` successive hits. */
  function HitTimes(startHitpoints: int, s: BrickState, n: nat): BrickState
    decreases n
  {
    if n == 0 then s else HitTimes(startHitpoints, HitBrick(startHitpoints, s).brick, n - 1)
  }

  /** Non-negative hitpoints count down by one per hit and stop at 0. */
  lemma {:induction false} HitsCountDown(startHitpoints: int, s: BrickState, n: nat)
    requires s.hitpoints >= 0
    ensures HitTimes(startHitpoints, s, n).hitpoints == if s.hitpoints >= n then s.hitpoints - n else 0
    decreases n
  {
    if n > 0 {
      HitsCountDown(startHitpoints, HitBrick(startHitpoints, s).brick, n - 1);
    }
  }

  /** A brick with negative hitpoints (the default -1) is invulnerable: no hit changes or deletes it. */
  lemma {:induction false} InvulnerableBrick(startHitpoints: int, s: BrickState, n: nat)
    requires s.hitpoints < 0
    ensures HitTimes(startHitpoints, s, n) == s
    ensures !HitBrick(startHitpoints, s).delete
    decreases n
  {
    if n > 0 {
      InvulnerableBrick(startHitpoints, HitBrick(startHitpoints, s).brick, n - 1);
    }
  }

  /**
   * A freshly spawned brick with `k > 0` hitpoints survives its first `k - 1`
   * hits and is deleted on hit number `k`; one spawned with 0 is deleted on
   * its first hit.
   */
  lemma {:induction false} DeletedOnLastHit(startHitpoints: int, texture: Option<Texture>, n: nat)
    requires startHitpoints >= 0
    ensures HitBrick(startHitpoints, HitTimes(startHitpoints, BrickState(startHitpoints, texture), n)).delete <==>
            n + 1 >= startHitpoints
  {
    HitsCountDown(startHitpoints, BrickState(startHitpoints, texture), n);
  }

  function TierRank(t: Texture): int {
    match t
    case GreenBrick => 2
    case YellowBrick => 1
    case _ => 0
  }

  lemma RatioTextureMonotone(a: int, b: int, startHitpoints: int)
    requires startHitpoints > 0 && a <= b
    ensures TierRank(RatioTexture(a, startHitpoints)) <= TierRank(RatioTexture(b, startHitpoints))
  {
    var n := startHitpoints as real;
    assert a as real / n <= b as real / n by {
      assert a as real / n * n == a as real && b as real / n * n == b as real;
    }
  }

  /** For bricks of more than 3 start hitpoints, a hit never moves the texture to a healthier tier. */
  lemma TextureNeverImproves(startHitpoints: int, s: BrickState)
    requires startHitpoints > 3 && s.hitpoints > 0
    ensures HitBrick(startHitpoints, s).brick.texture.Some?
    ensures TierRank(HitBrick(startHitpoints, s).brick.texture.value) <= TierRank(RatioTexture(s.hitpoints, startHitpoints))
  {
    RatioTextureMonotone(s.hitpoints - 1, s.hitpoints, startHitpoints);
  }

  // ---------------------------------------------------------------- starting ball

  /** What the paddle's starting-ball listener writes. */
  datatype Centred = Centred(ball: Position, ballVelocity: Velocity, previousVelocity: real)

  /**
   * The paddle's listener: remember a non-zero x velocity of the ball, stop
   * the ball, move it so its centre lines up with the paddle's, and snap its
   * previous position to the new one so it is not drawn sliding there.
   */
  function CentreStartingBall(paddle: Position, paddleSize: Size, ballSize: real,
                              ball: Position, ballVelocity: Velocity, previousVelocity: real): (r: Centred)
    ensures r.ballVelocity.x == 0.0 && r.ballVelocity.y == 0.0
    ensures r.ball.current.x + ballSize / 2.0 == paddle.current.x + paddleSize.width / 2.0
    ensures r.ball.current.y == ball.current.y
    ensures r.ball.previous == r.ball.current
    ensures ballVelocity.x != 0.0 ==> r.previousVelocity == ballVelocity.x
    ensures ballVelocity.x == 0.0 ==> r.previousVelocity == previousVelocity
  {
    var remembered := if ballVelocity.x != 0.0 then ballVelocity.x else previousVelocity;
    var current := ball.current.(x := paddle.current.x + paddleSize.width / 2.0 - ballSize / 2.0);
    Centred(Position(current, current), SetZero(), remembered)
  }

  /** Centring an already centred ball changes nothing, and in particular keeps the remembered velocity. */
  lemma CentreIdempotent(paddle: Position, paddleSize: Size, ballSize: real,
                         ball: Position, ballVelocity: Velocity, previousVelocity: real)
    ensures var once := CentreStartingBall(paddle, paddleSize, ballSize, ball, ballVelocity, previousVelocity);
            CentreStartingBall(paddle, paddleSize, ballSize, once.ball, once.ballVelocity, once.previousVelocity) == once
  {
  }
}
