/**
 * `handleCollision`: for one detected (collider, collidable) contact, play the
 * collidable's impact sound and run the collision listener of each side, each
 * of the three debounced by its own timestamp.
 */
module CollisionEvents {
  import opened Wrappers
  import opened LinearVelocity
  import opened Components
  import opened EntitySpawner

  /** The cooldown: 0.1 seconds of the nanosecond clock. */
  const DEBOUNCE_NANOS: int := 100_000_000

  /** `(now - last) / 1e9 > 0.1`: strictly more than the cooldown has passed. */
  predicate Debounced(now: int, last: int) {
    now - last > DEBOUNCE_NANOS
  }

  /**
   * What a listener may do to the store: delete entities, and change
   * positions, velocities, hitpoints and sprites. Every surviving entity
   * keeps its size and its collision components.
   */
  predicate Frame(w: World, w': World) {
    && w'.entities.Keys <= w.entities.Keys
    && forall id :: id in w'.entities ==>
         && w'.entities[id].size == w.entities[id].size
         && w'.entities[id].collider == w.entities[id].collider
         && w'.entities[id].collidable == w.entities[id].collidable
         && w'.entities[id].collisionListener == w.entities[id].collisionListener
         && w'.entities[id].impactSound == w.entities[id].impactSound
  }

  /** Like `Frame`, but timestamps of listeners and sounds may move. */
  predicate Structure(w: World, w': World) {
    && w'.entities.Keys <= w.entities.Keys
    && forall id :: id in w'.entities ==>
         && w'.entities[id].size == w.entities[id].size
         && w'.entities[id].collider == w.entities[id].collider
         && w'.entities[id].collidable == w.entities[id].collidable
         && w'.entities[id].collisionListener.Some? == w.entities[id].collisionListener.Some?
         && (w'.entities[id].collisionListener.Some? ==>
               w'.entities[id].collisionListener.value.listener == w.entities[id].collisionListener.value.listener)
         && w'.entities[id].impactSound.Some? == w.entities[id].impactSound.Some?
         && (w'.entities[id].impactSound.Some? ==>
               w'.entities[id].impactSound.value.sound == w.entities[id].impactSound.value.sound)
  }

  lemma FrameIsStructure(w: World, w': World)
    requires Frame(w, w')
    ensures Structure(w, w')
  {
  }

  lemma StructureTransitive(a: World, b: World, c: World)
    requires Structure(a, b) && Structure(b, c)
    ensures Structure(a, c)
  {
  }

  // ---------------------------------------------------------------- listeners

  /**
   * The brick listener, closing over the owner's hitpoints and sprite: apply
   * the hit, then delete the id it was called with as the collidable.
   */
  function RunBrickListener(w: World, owner: EntityId, startHitpoints: int, collidableId: EntityId): (r: Step)
    requires owner in w.entities
    ensures Frame(w, r.world)
    ensures r.world.previousVelocity == w.previousVelocity
    ensures r.events == [] || r.events == [EntityDeleted(collidableId)]
    ensures r.events == [] ==> r.world.entities.Keys == w.entities.Keys
    ensures r.events != [] ==> r.world.entities.Keys == w.entities.Keys - {collidableId}
    ensures forall id :: id in r.world.entities && id != owner ==> r.world.entities[id] == w.entities[id]
    ensures w.entities[owner].hitpoints.None? || w.entities[owner].sprite.None? ==> r == Step(w, [])
    ensures w.entities[owner].hitpoints.Some? && w.entities[owner].sprite.Some? ==>
              var e := w.entities[owner];
              var hit := HitBrick(startHitpoints, BrickState(e.hitpoints.value, e.sprite.value.texture));
              && (r.events == [EntityDeleted(collidableId)] <==> hit.delete && collidableId in w.entities)
              && (owner in r.world.entities ==>
                    r.world.entities[owner] == e.(hitpoints := Some(hit.brick.hitpoints), sprite := Some(Sprite(hit.brick.texture))))
  {
    var e := w.entities[owner];
    if e.hitpoints.None? || e.sprite.None? then Step(w, [])
    else
      var hit := HitBrick(startHitpoints, BrickState(e.hitpoints.value, e.sprite.value.texture));
      var w1 := Put(w, owner, e.(hitpoints := Some(hit.brick.hitpoints), sprite := Some(Sprite(hit.brick.texture))));
      if hit.delete && collidableId in w1.entities then Step(Delete(w1, collidableId), [EntityDeleted(collidableId)])
      else Step(w1, [])
  }

  /** The paddle's listener re-centres the starting ball while both are alive. */
  function RunCentreBallListener(w: World, paddleId: EntityId, ballId: EntityId, ballSize: real): (r: Step)
    ensures Frame(w, r.world)
    ensures r.world.entities.Keys == w.entities.Keys
    ensures r.events == []
    ensures forall id :: id in r.world.entities && id != ballId ==> r.world.entities[id] == w.entities[id]
    ensures paddleId !in w.entities || !Movable(w, ballId) ==> r == Step(w, [])
    ensures paddleId in w.entities && Movable(w, ballId) ==>
              var paddle := w.entities[paddleId];
              var ball := w.entities[ballId];
              var ball' := r.world.entities[ballId];
              && ball'.velocity == Some(Velocity(0.0, 0.0))
              && ball'.position.current.x + ballSize / 2.0 == paddle.position.current.x + paddle.size.width / 2.0
              && ball'.position.current.y == ball.position.current.y
              && ball'.position.previous == ball'.position.current
              && ball' == ball.(position := ball'.position, velocity := ball'.velocity)
              && r.world.previousVelocity ==
                   (if ball.velocity.value.x != 0.0 then ball.velocity.value.x else w.previousVelocity)
  {
    if paddleId !in w.entities || !Movable(w, ballId) then Step(w, [])
    else
      var paddle := w.entities[paddleId];
      var ball := w.entities[ballId];
      var c := CentreStartingBall(paddle.position, paddle.size, ballSize,
                                  ball.position, ball.velocity.value, w.previousVelocity);
      var w1 := Put(w, ballId, ball.(position := c.ball, velocity := Some(c.ballVelocity)));
      Step(w1.(previousVelocity := c.previousVelocity), [])
  }

  function RunListener(w: World, owner: EntityId, l: Listener, colliderId: EntityId, collidableId: EntityId): (r: Step)
    requires owner in w.entities
    ensures Frame(w, r.world)
    ensures forall ev :: ev in r.events ==> ev == EntityDeleted(collidableId)
  {
    match l
    case BrickListener(start) => RunBrickListener(w, owner, start, collidableId)
    case CentreBallListener(paddleId, ballId, ballSize) => RunCentreBallListener(w, paddleId, ballId, ballSize)
  }

  // ---------------------------------------------------------------- debounced firing

  /** The impact sound plays: the collider asks for it, and the collidable has a non-null sound off cooldown. */
  predicate SoundDue(w: World, collider: Collider, collidableId: EntityId, now: int) {
    && collider.playImpactSound
    && collidableId in w.entities
    && w.entities[collidableId].impactSound.Some?
    && w.entities[collidableId].impactSound.value.sound.Some?
    && Debounced(now, w.entities[collidableId].impactSound.value.lastPlayedTime)
  }

  function PlayImpactSound(w: World, collider: Collider, collidableId: EntityId, now: int): (r: Step)
    ensures Structure(w, r.world)
    ensures r.world.entities.Keys == w.entities.Keys
    ensures !SoundDue(w, collider, collidableId, now) ==> r == Step(w, [])
    ensures SoundDue(w, collider, collidableId, now) ==>
              && r.events == [SoundPlayed(w.entities[collidableId].impactSound.value.sound.value)]
              && r.world.entities[collidableId].impactSound.value.lastPlayedTime == now
              && forall id :: id in w.entities && id != collidableId ==> r.world.entities[id] == w.entities[id]
    ensures forall id :: id in r.world.entities ==> r.world.entities[id].collisionListener == w.entities[id].collisionListener
  {
    if !SoundDue(w, collider, collidableId, now) then Step(w, [])
    else
      var e := w.entities[collidableId];
      var snd := e.impactSound.value;
      Step(Put(w, collidableId, e.(impactSound := Some(snd.(lastPlayedTime := now)))), [SoundPlayed(snd.sound.value)])
  }

  /** The owner's listener runs: it is alive, has a non-null listener, and is off cooldown. */
  predicate ListenerDue(w: World, owner: EntityId, now: int) {
    && owner in w.entities
    && w.entities[owner].collisionListener.Some?
    && w.entities[owner].collisionListener.value.listener.Some?
    && Debounced(now, w.entities[owner].collisionListener.value.lastCollisionTime)
  }

  /** No sound was played among these events. */
  predicate SoundFree(events: seq<Event>) {
    forall ev :: ev in events ==> !ev.SoundPlayed?
  }

  /** Every listener invocation among these events received this contact pair. */
  predicate PairOnly(events: seq<Event>, colliderId: EntityId, collidableId: EntityId) {
    forall ev :: ev in events && ev.ListenerRan? ==> ev.colliderId == colliderId && ev.collidableId == collidableId
  }

  /** Stamps the owner's listener with `now`, then runs it with the contact pair. */
  function FireListener(w: World, owner: EntityId, colliderId: EntityId, collidableId: EntityId, now: int): (r: Step)
    ensures Structure(w, r.world)
    ensures !ListenerDue(w, owner, now) ==> r == Step(w, [])
    ensures ListenerDue(w, owner, now) ==>
              && |r.events| >= 1
              && r.events[0] == ListenerRan(owner, colliderId, collidableId)
              && forall i :: 1 <= i < |r.events| ==> r.events[i] == EntityDeleted(collidableId)
    ensures ListenerDue(w, owner, now) && owner in r.world.entities ==>
              r.world.entities[owner].collisionListener.value.lastCollisionTime == now
    ensures SoundFree(r.events) && PairOnly(r.events, colliderId, collidableId)
    ensures forall ev :: ev in r.events && ev.ListenerRan? ==> ev.owner == owner && ListenerDue(w, owner, now)
    ensures forall id :: id in r.world.entities ==> r.world.entities[id].impactSound == w.entities[id].impactSound
    ensures forall id :: id in r.world.entities && id != owner ==>
              r.world.entities[id].collisionListener == w.entities[id].collisionListener
  {
    if !ListenerDue(w, owner, now) then Step(w, [])
    else
      var e := w.entities[owner];
      var cl := e.collisionListener.value;
      var w1 := Put(w, owner, e.(collisionListener := Some(cl.(lastCollisionTime := now))));
      var s := RunListener(w1, owner, cl.listener.value, colliderId, collidableId);
      Step(s.world, [ListenerRan(owner, colliderId, collidableId)] + s.events)
  }

  /** The three independent reactions to one contact, in source order. */
  function HandleCollision(w: World, collider: Collider, colliderId: EntityId, collidableId: EntityId, now: int): (r: Step)
    ensures Structure(w, r.world)
    ensures SoundFree(r.events) <==> !SoundDue(w, collider, collidableId, now)
    ensures ListenerDue(w, colliderId, now) ==> ListenerRan(colliderId, colliderId, collidableId) in r.events
    ensures ListenerDue(w, collidableId, now) && !ListenerDue(w, colliderId, now) ==>
              ListenerRan(collidableId, colliderId, collidableId) in r.events
    ensures PairOnly(r.events, colliderId, collidableId)
    ensures (!SoundDue(w, collider, collidableId, now) && !ListenerDue(w, colliderId, now)
             && !ListenerDue(w, collidableId, now)) ==> r == Step(w, [])
  {
    var sound := PlayImpactSound(w, collider, collidableId, now);
    var mine := FireListener(sound.world, colliderId, colliderId, collidableId, now);
    var theirs := FireListener(mine.world, collidableId, colliderId, collidableId, now);
    var events := sound.events + mine.events + theirs.events;
    assert Structure(w, theirs.world) by {
      StructureTransitive(w, sound.world, mine.world);
      StructureTransitive(w, mine.world, theirs.world);
    }
    assert SoundFree(events) <==> SoundFree(sound.events);
    assert SoundFree(sound.events) <==> !SoundDue(w, collider, collidableId, now) by {
      if SoundDue(w, collider, collidableId, now) {
        assert sound.events[0] in sound.events;
      }
    }
    assert PairOnly(events, colliderId, collidableId);
    assert ListenerDue(w, colliderId, now) ==> ListenerRan(colliderId, colliderId, collidableId) in events by {
      if ListenerDue(w, colliderId, now) {
        assert ListenerDue(sound.world, colliderId, now);
        assert mine.events[0] in events;
      }
    }
    Step(theirs.world, events)
  }

  // ---------------------------------------------------------------- debounce

  /** A sound that just played is silent for the cooldown and re-arms after it. */
  lemma SoundDebounce(w: World, collider: Collider, collidableId: EntityId, t1: int, t2: int)
    requires SoundDue(w, collider, collidableId, t1)
    ensures SoundDue(PlayImpactSound(w, collider, collidableId, t1).world, collider, collidableId, t2) <==>
            t2 - t1 > DEBOUNCE_NANOS
  {
  }

  /** A listener that just ran is silent for the cooldown and, if its owner survived, re-arms after it. */
  lemma ListenerDebounce(w: World, owner: EntityId, colliderId: EntityId, collidableId: EntityId, t1: int, t2: int)
    requires ListenerDue(w, owner, t1)
    ensures var after := FireListener(w, owner, colliderId, collidableId, t1).world;
            ListenerDue(after, owner, t2) <==> owner in after.entities && t2 - t1 > DEBOUNCE_NANOS
  {
  }

  /** A sound played by one handling is not played by a second handling within the cooldown. */
  lemma SoundNotRepeated(w: World, collider: Collider, a: EntityId, b: EntityId, t1: int, t2: int)
    requires t2 - t1 <= DEBOUNCE_NANOS
    requires !SoundFree(HandleCollision(w, collider, a, b, t1).events)
    ensures SoundFree(HandleCollision(HandleCollision(w, collider, a, b, t1).world, collider, a, b, t2).events)
  {
    var sound1 := PlayImpactSound(w, collider, b, t1);
    var mine1 := FireListener(sound1.world, a, a, b, t1);
    var theirs1 := FireListener(mine1.world, b, a, b, t1);
    assert SoundDue(w, collider, b, t1);
    assert sound1.world.entities[b].impactSound.value.lastPlayedTime == t1;
    assert !SoundDue(HandleCollision(w, collider, a, b, t1).world, collider, b, t2);
  }

  /** The collider's listener, run by one handling, is not run by a second one within the cooldown. */
  lemma ColliderListenerNotRepeated(w: World, collider: Collider, a: EntityId, b: EntityId, t1: int, t2: int)
    requires a != b && t2 - t1 <= DEBOUNCE_NANOS
    requires ListenerRan(a, a, b) in HandleCollision(w, collider, a, b, t1).events
    ensures ListenerRan(a, a, b) !in HandleCollision(HandleCollision(w, collider, a, b, t1).world, collider, a, b, t2).events
  {
    var sound1 := PlayImpactSound(w, collider, b, t1);
    var mine1 := FireListener(sound1.world, a, a, b, t1);
    var theirs1 := FireListener(mine1.world, b, a, b, t1);
    var w1 := theirs1.world;
    assert ListenerRan(a, a, b) in mine1.events;
    assert !ListenerDue(w1, a, t2);
    var sound2 := PlayImpactSound(w1, collider, b, t2);
    var mine2 := FireListener(sound2.world, a, a, b, t2);
    var theirs2 := FireListener(mine2.world, b, a, b, t2);
    assert !ListenerDue(sound2.world, a, t2);
    assert HandleCollision(w1, collider, a, b, t2).events == sound2.events + mine2.events + theirs2.events;
  }

  /** The collidable's listener, run by one handling, is not run by a second one within the cooldown. */
  lemma CollidableListenerNotRepeated(w: World, collider: Collider, a: EntityId, b: EntityId, t1: int, t2: int)
    requires a != b && t2 - t1 <= DEBOUNCE_NANOS
    requires ListenerRan(b, a, b) in HandleCollision(w, collider, a, b, t1).events
    ensures ListenerRan(b, a, b) !in HandleCollision(HandleCollision(w, collider, a, b, t1).world, collider, a, b, t2).events
  {
    var sound1 := PlayImpactSound(w, collider, b, t1);
    var mine1 := FireListener(sound1.world, a, a, b, t1);
    var theirs1 := FireListener(mine1.world, b, a, b, t1);
    var w1 := theirs1.world;
    assert ListenerRan(b, a, b) in theirs1.events;
    assert !ListenerDue(w1, b, t2);
    var sound2 := PlayImpactSound(w1, collider, b, t2);
    var mine2 := FireListener(sound2.world, a, a, b, t2);
    var theirs2 := FireListener(mine2.world, b, a, b, t2);
    assert !ListenerDue(mine2.world, b, t2);
    assert HandleCollision(w1, collider, a, b, t2).events == sound2.events + mine2.events + theirs2.events;
  }

  /**
   * Two handlings of the same contact within the cooldown: each of the sound,
   * the collider-side listener and the collidable-side listener that fired
   * the first time does not fire the second time.
   */
  lemma ContactDebounce(w: World, collider: Collider, a: EntityId, b: EntityId, t1: int, t2: int)
    requires a != b
    requires t2 - t1 <= DEBOUNCE_NANOS
    ensures var r1 := HandleCollision(w, collider, a, b, t1);
            var r2 := HandleCollision(r1.world, collider, a, b, t2);
            && (!SoundFree(r1.events) ==> SoundFree(r2.events))
            && (ListenerRan(a, a, b) in r1.events ==> ListenerRan(a, a, b) !in r2.events)
            && (ListenerRan(b, a, b) in r1.events ==> ListenerRan(b, a, b) !in r2.events)
  {
    var r1 := HandleCollision(w, collider, a, b, t1);
    if !SoundFree(r1.events) {
      SoundNotRepeated(w, collider, a, b, t1, t2);
    }
    if ListenerRan(a, a, b) in r1.events {
      ColliderListenerNotRepeated(w, collider, a, b, t1, t2);
    }
    if ListenerRan(b, a, b) in r1.events {
      CollidableListenerNotRepeated(w, collider, a, b, t1, t2);
    }
  }
}
