# Brick-breaker simulation core in Dafny

This project models the per-tick simulation logic of a libGDX/artemis-odb
brick-breaker game and proves properties of it. The model has three layers.

1. **Movement and collision engine** (`MovementCollisionSystem`).
   - Every tick the spatial hash grid of Collidable boxes is rebuilt (`SpatialGrid`). Each cell is keyed by packing two Java `int` cell coordinates into one `long` (`CellKey`).
   - Every entity moves in `PASSES = 4` equal sub-steps.
   - After each sub-step, an entity with a `Collider` is tested against the de-duplicated candidates of the cells it covers. The test is a strict box overlap.
   - The contact side is chosen from the edges before the sub-step, in the fixed order left, right, bottom, top.
   - The collider is then snapped to the contact edge and bounced or stopped. A ghosted collider is left where it is.
   - Each contact is dispatched (`CollisionEvents`): a debounced impact sound, plus debounced listeners on the collider side and the collidable side.
   - The listeners the game attaches are data interpreted by the dispatcher: the brick hitpoint and texture rule, and the paddle's rule that re-centres the starting ball (`EntitySpawner`).
2. **Fixed-timestep scheduler** (`FixedTimestep`).
   - A capped frame delta is added to an accumulator.
   - Enabled logic systems run once per whole tick in the accumulator.
   - Enabled default systems then run once each, and a render system gets `alpha = accumulator / secondsPerTick`.
3. **Game-rule state machines.** Each has its own module:
   - velocity helpers: `LinearVelocity`;
   - world-bounds clamping: `WorldBounds`;
   - the single-step movement system: `Movement`;
   - the paddle key rule: `PlayerSystem`;
   - render interpolation: `Render`;
   - despawning below the world: `Despawn`;
   - the player-health trigger: `PlayerHealth`;
   - the win/lose counters: `GameOver`;
   - the screen handler's show/hide protocol: `ScreenHandler`;
   - save-level progression: `Levels`.

The entity store is `Components.World`: a map from entity id to an `Entity` record. Every entity has a position and a size; its other components are optional fields. An operation returns the new store together with the observable events it produced: sounds played, listeners run, entities deleted.

The clock is an explicit `now` parameter, an integer count of nanoseconds. Positions, sizes and velocities are `real`. Cell coordinates and keys are `int`, with Java's `int` saturation and `long` wrap-around written out. A bit-vector version of the key proves, on 64-bit patterns, that the shift-or-mask formula equals the high word times 2^32 plus the low word. The step from those patterns to `PackCell`'s integers is not proved.

Some behaviours of the code are worth spelling out.

- **The paddle scenario.** The paddle spawns 12.1 × 2.42 at (53.95, 10), so its top is at 12.42. The starting ball, of size 1.3, spawns at y = 10 + 1.3 + 1.1 = 12.4, already 0.02 inside the paddle. A ball that starts inside the paddle is not bounced, because no contact side applies.
  - `MovementCollision.BallStartingInsidePaddleIsIgnored` proves this for the starting ball's spawn point, given a falling velocity of −120.
  - `MovementCollision.BallBouncesOffPaddleTop` proves the bounce for a ball that starts above the paddle top.
- **Two health counters.** The two systems count health differently. `PlayerHealthSystem` counts notifications (one per batch) while `GameOverSystem` counts the entities in each batch. `GameOver.HealthCountersDifferOnBatches` exhibits a batch where the two disagree.
- **Brick textures.** For bricks that start with 3 or fewer hitpoints, the texture switch after a hit falls through and sets green for 3, 2 and 1 remaining. It is modelled as written.
- **Sub-step speed.** The spawner scales the paddle's speed by `PASSES`. The model uses the value 4, which the collision system declares. The spawner's import names a `logic` package where that field does not exist.

## Model

| member | source | states |
|---|---|---|
| LinearVelocity.Set | core/src/main/java/io/github/qwbarch/entity/component/LinearVelocity.java:17-21 | both components take the given values |
| LinearVelocity.SetZero | core/src/main/java/io/github/qwbarch/entity/component/LinearVelocity.java:23-25 | the result is (0, 0) |
| LinearVelocity.ReverseX | core/src/main/java/io/github/qwbarch/entity/component/LinearVelocity.java:27-30 | x is negated and y is kept |
| LinearVelocity.ReverseY | core/src/main/java/io/github/qwbarch/entity/component/LinearVelocity.java:32-35 | y is negated and x is kept |
| LinearVelocity.ReverseInvolutions | core/src/main/java/io/github/qwbarch/entity/component/LinearVelocity.java:27-35 | reversing an axis twice restores the velocity, and the two reversals commute |
| LinearVelocity.ReversePreservesSpeed | core/src/main/java/io/github/qwbarch/entity/component/LinearVelocity.java:27-35 | a reversal keeps the magnitude of the reversed component |
| Components.BoxOf | core/src/main/java/io/github/qwbarch/entity/system/MovementCollisionSystem.java:137-153 | a box's edges are the position plus the size: width and height are right − left and top − bottom |
| CellKey.PackCell | core/src/main/java/io/github/qwbarch/entity/system/MovementCollisionSystem.java:109 | the packed key of two `int` cell coordinates is a signed 64-bit value |
| CellKey.UnpackPack | core/src/main/java/io/github/qwbarch/entity/system/MovementCollisionSystem.java:109 | both cell coordinates are recovered from their key |
| CellKey.PackInjective | core/src/main/java/io/github/qwbarch/entity/system/MovementCollisionSystem.java:109 | two `int` pairs have the same key exactly when they are equal |
| CellKey.PackUnpack | core/src/main/java/io/github/qwbarch/entity/system/MovementCollisionSystem.java:109 | every 64-bit key is the packing of its two halves, so the packing is onto |
| CellKey.PackBits | core/src/main/java/io/github/qwbarch/entity/system/MovementCollisionSystem.java:167 | in the bit-level form `(x << 32) \| (y & 0xffffffff)`, the high word is x and the low word is y |
| CellKey.PackBitsIsArithmetic | core/src/main/java/io/github/qwbarch/entity/system/MovementCollisionSystem.java:167 | the bit-level key equals x · 2^32 + unsigned y |
| SpatialGrid.SaturateInt32 | core/src/main/java/io/github/qwbarch/entity/system/MovementCollisionSystem.java:99-102 | the `(int)` cast is the identity in range and clamps to the `int` limits outside it |
| SpatialGrid.CellCoord | core/src/main/java/io/github/qwbarch/entity/system/MovementCollisionSystem.java:99-102 | the cell coordinate is an `int`, and when the floor is in range the cell contains the coordinate |
| SpatialGrid.CellCoordMonotone | core/src/main/java/io/github/qwbarch/entity/system/MovementCollisionSystem.java:156-159 | a larger coordinate never lies in a lower cell |
| SpatialGrid.CellsOf | core/src/main/java/io/github/qwbarch/entity/system/MovementCollisionSystem.java:156-159 | a box's cell range has `int` corners and is non-empty for a box of non-negative size |
| SpatialGrid.PointInCellsOf | core/src/main/java/io/github/qwbarch/entity/system/MovementCollisionSystem.java:99-102 | the cell of every point of a box lies in the box's cell range |
| SpatialGrid.PaddleFootprint | core/src/main/java/io/github/qwbarch/Main.java:56-71 | with cell size 4 (line 121), the spawned 12.1 × 2.42 paddle at (53.95, 10) covers columns 13 to 16 and rows 2 to 3 |
| SpatialGrid.RangeKeysMembership | core/src/main/java/io/github/qwbarch/entity/system/MovementCollisionSystem.java:105-109 | a cell's key is among a range's keys exactly when the cell is in the range |
| SpatialGrid.AddToCells | core/src/main/java/io/github/qwbarch/entity/system/MovementCollisionSystem.java:104-117 | the id is appended to the bucket of every cell in its range, and every other bucket is unchanged |
| SpatialGrid.OccupantsMembership | core/src/main/java/io/github/qwbarch/entity/system/MovementCollisionSystem.java:92-117 | an id is an occupant of a cell exactly when it is subscribed, still Collidable, and its box's cell range holds the cell |
| SpatialGrid.BuildGridBuckets | core/src/main/java/io/github/qwbarch/entity/system/MovementCollisionSystem.java:92-117 | the rebuilt grid's bucket for a cell is exactly that cell's occupants in subscription order, with nothing left from earlier ticks |
| SpatialGrid.GridMembership | core/src/main/java/io/github/qwbarch/entity/system/MovementCollisionSystem.java:92-117 | an id is in cell (cx, cy) exactly when it is subscribed, still Collidable, and cx ∈ [⌊x/g⌋, ⌊(x+w)/g⌋] and cy ∈ [⌊y/g⌋, ⌊(y+h)/g⌋] |
| SpatialGrid.ColumnKeysMembership | core/src/main/java/io/github/qwbarch/entity/system/MovementCollisionSystem.java:166-167 | the inner cell loop visits exactly the keys of rows cy .. maxY of one column |
| SpatialGrid.RangeKeySeqMembership | core/src/main/java/io/github/qwbarch/entity/system/MovementCollisionSystem.java:165-167 | the nested cell loops visit exactly the keys of the cells of the range from the given column on |
| SpatialGrid.GatherMembership | core/src/main/java/io/github/qwbarch/entity/system/MovementCollisionSystem.java:168-172 | the ids read from the visited buckets are exactly those in some visited bucket |
| SpatialGrid.Dedup | core/src/main/java/io/github/qwbarch/entity/system/MovementCollisionSystem.java:162-174 | the tested-set filter yields each unseen id exactly once, and no id twice |
| SpatialGrid.Candidates | core/src/main/java/io/github/qwbarch/entity/system/MovementCollisionSystem.java:161-174 | within one pass the candidate list has no duplicates, and it holds exactly the ids in the buckets of the covered cells |
| SpatialGrid.CandidateHasCell | core/src/main/java/io/github/qwbarch/entity/system/MovementCollisionSystem.java:165-174 | every candidate comes from the bucket of some covered cell |
| SpatialGrid.CellOccupantIsCandidate | core/src/main/java/io/github/qwbarch/entity/system/MovementCollisionSystem.java:165-174 | every id in a covered cell's bucket is a candidate |
| SpatialGrid.BroadPhaseComplete | core/src/main/java/io/github/qwbarch/entity/system/MovementCollisionSystem.java:92-175 | a subscribed Collidable whose box strictly overlaps the probing box is always among its candidates, in the store the grid was built from |
| CollisionEvents.RunBrickListener | core/src/main/java/io/github/qwbarch/entity/EntitySpawner.java:256-283 | the owner's hitpoints and sprite become those `HitBrick` gives; the collidable is deleted, and the deletion reported, exactly when the hit deletes and the collidable is alive; every other record is unchanged; a record without hitpoints or sprite leaves the store alone |
| CollisionEvents.RunCentreBallListener | core/src/main/java/io/github/qwbarch/entity/EntitySpawner.java:108-120 | while the paddle and the ball are alive, the ball is stopped, its centre lined up with the paddle's, its previous position set to the new one and its y kept, and a non-zero x velocity is remembered; every other record is unchanged and nothing is emitted |
| CollisionEvents.RunListener | core/src/main/java/io/github/qwbarch/entity/system/MovementCollisionSystem.java:259 | running a listener changes no collision component, and the only event it can emit is the deletion of the collidable |
| CollisionEvents.PlayImpactSound | core/src/main/java/io/github/qwbarch/entity/system/MovementCollisionSystem.java:242-250 | the sound plays only if the collider asks for it, the collidable has a non-null sound, and more than 0.1 s has passed; only then is `lastPlayedTime` set to now, and nothing else changes |
| CollisionEvents.FireListener | core/src/main/java/io/github/qwbarch/entity/system/MovementCollisionSystem.java:253-261 | a non-null listener off its 0.1 s cooldown is stamped with now and runs first, with the (collider, collidable) pair; otherwise nothing happens; no sound is played and other listeners are untouched |
| CollisionEvents.HandleCollision | core/src/main/java/io/github/qwbarch/entity/system/MovementCollisionSystem.java:240-271 | a sound is played exactly when one is due; a due collider-side listener runs; a due collidable-side listener runs when the collider's is not due, as on every brick hit; every listener that runs receives the same pair; with nothing due, nothing changes |
| CollisionEvents.SoundDebounce | core/src/main/java/io/github/qwbarch/entity/system/MovementCollisionSystem.java:244-248 | after a sound plays at t1, it is due again at t2 exactly when t2 − t1 exceeds 0.1 s |
| CollisionEvents.ListenerDebounce | core/src/main/java/io/github/qwbarch/entity/system/MovementCollisionSystem.java:255-259 | after a listener fires at t1 and its owner survives, it is due again at t2 exactly when t2 − t1 exceeds 0.1 s |
| CollisionEvents.SoundNotRepeated | core/src/main/java/io/github/qwbarch/entity/system/MovementCollisionSystem.java:242-250 | a contact that played a sound does not play one when repeated within 0.1 s |
| CollisionEvents.ColliderListenerNotRepeated | core/src/main/java/io/github/qwbarch/entity/system/MovementCollisionSystem.java:253-261 | a collider-side listener that ran does not run again for the same contact within 0.1 s |
| CollisionEvents.CollidableListenerNotRepeated | core/src/main/java/io/github/qwbarch/entity/system/MovementCollisionSystem.java:262-270 | a collidable-side listener that ran does not run again for the same contact within 0.1 s |
| CollisionEvents.ContactDebounce | core/src/main/java/io/github/qwbarch/entity/system/MovementCollisionSystem.java:240-271 | the sound and both listeners are debounced independently: none that fired fires again within 0.1 s |
| MovementCollision.ContactSide | core/src/main/java/io/github/qwbarch/entity/system/MovementCollisionSystem.java:197-232 | each side is chosen exactly when its pre-step condition holds and all earlier ones (left, right, bottom, top) fail; no side exactly when the boxes overlapped before the step |
| MovementCollision.Respond | core/src/main/java/io/github/qwbarch/entity/system/MovementCollisionSystem.java:199-231 | the collider is snapped to the contact edge per side; a bounce negates only that axis, otherwise both components become 0; the snapped box no longer overlaps the collidable |
| MovementCollision.ApplyResponse | core/src/main/java/io/github/qwbarch/entity/system/MovementCollisionSystem.java:199-203 | the response changes only the collider's motion: every other entity and every collision component is kept |
| MovementCollision.ResolveOne | core/src/main/java/io/github/qwbarch/entity/system/MovementCollisionSystem.java:171-233 | a candidate that is no longer Collidable is skipped without being read; no overlap, or overlap already before the step, is a no-op; events concern only this pair |
| MovementCollision.ResolveAll | core/src/main/java/io/github/qwbarch/entity/system/MovementCollisionSystem.java:171-175 | testing the candidates in turn keeps entity structure, and every listener run names this collider and one of the candidates |
| MovementCollision.Advance | core/src/main/java/io/github/qwbarch/entity/system/MovementCollisionSystem.java:143-144 | one sub-step moves each axis by velocity · secondsPerTick · ¼ |
| MovementCollision.Pass | core/src/main/java/io/github/qwbarch/entity/system/MovementCollisionSystem.java:136-146 | an entity without a Collider is only moved by one sub-step and emits nothing; no pass creates entities or changes sizes or collision components |
| MovementCollision.Passes | core/src/main/java/io/github/qwbarch/entity/system/MovementCollisionSystem.java:136 | repeated passes keep entity structure |
| MovementCollision.ProcessEntity | core/src/main/java/io/github/qwbarch/entity/system/MovementCollisionSystem.java:121-146 | processing keeps entity structure, and an entity no longer in the store is untouched |
| MovementCollision.ProcessAll | core/src/main/java/io/github/qwbarch/entity/system/MovementCollisionSystem.java:121-238 | processing the subscription in order keeps entity structure |
| MovementCollision.Tick | core/src/main/java/io/github/qwbarch/entity/system/MovementCollisionSystem.java:86-238 | a whole tick (grid rebuild, then every entity) creates no entity and changes no size, collider, collidable flag, listener or sound |
| MovementCollision.QuietContact | core/src/main/java/io/github/qwbarch/entity/system/MovementCollisionSystem.java:197-232 | a contact with nothing due changes only the collider's motion; a ghosted collider keeps position and velocity |
| MovementCollision.NonColliderPasses | core/src/main/java/io/github/qwbarch/entity/system/MovementCollisionSystem.java:136-146 | n passes of an entity without a Collider move it by n sub-steps, keep everything else, and emit nothing |
| MovementCollision.NonColliderTick | core/src/main/java/io/github/qwbarch/entity/system/MovementCollisionSystem.java:133-146 | an entity without a Collider ends the tick at previous + v · secondsPerTick, with previous := old current and velocity unchanged |
| MovementCollision.TouchingIsNoContact | core/src/main/java/io/github/qwbarch/entity/system/MovementCollisionSystem.java:192-195 | boxes that only share an edge do not collide: no response and no handler |
| MovementCollision.FirstOverlappingStep | core/src/main/java/io/github/qwbarch/entity/system/MovementCollisionSystem.java:136-144 | sub-steps shorter than the two extents together cannot jump over an interval: some step strictly overlaps it, right after a step that had not reached it |
| MovementCollision.SubStepsCatchObstacle | core/src/main/java/io/github/qwbarch/entity/system/MovementCollisionSystem.java:136-205 | a collider whose tick would carry it past a collidable, with a sub-step shorter than both widths together, overlaps it on some pass and sees it from the left, so it does not tunnel |
| MovementCollision.BallStartingInsidePaddleIsIgnored | core/src/main/java/io/github/qwbarch/entity/system/MovementCollisionSystem.java:192-232 | the starting ball at its spawn point (59.35, 12.4) already overlaps the spawned paddle, whose top is at 12.42, so after a falling sub-step no side applies and nothing changes |
| MovementCollision.BallBouncesOffPaddleTop | core/src/main/java/io/github/qwbarch/entity/system/MovementCollisionSystem.java:225-231 | a ball falling from y = 12.5 hits the spawned paddle from above and is snapped onto its top, y = 12.42, with vertical velocity +120 |
| EntitySpawner.HandlePlayerInput | core/src/main/java/io/github/qwbarch/entity/EntitySpawner.java:63-72 | both or neither of left and right held gives x = 0; only left gives −speed · multiplier; only right gives +speed · multiplier; y is never touched |
| EntitySpawner.OnKey | core/src/main/java/io/github/qwbarch/entity/EntitySpawner.java:124-140 | a key-down adds the key; a key-up for a key not held changes nothing; otherwise the key is removed and x recomputed from the keys held |
| EntitySpawner.StartingBallOnKey | core/src/main/java/io/github/qwbarch/entity/EntitySpawner.java:124-140 | the starting ball's x velocity is always 0 or ± the paddle speed, with no scaling |
| EntitySpawner.PaddleOnKey | core/src/main/java/io/github/qwbarch/entity/EntitySpawner.java:176-192 | the paddle tracks the same keys as the starting ball, and its x velocity is `PASSES` times the starting ball's |
| EntitySpawner.KeyUpUndoesKeyDown | core/src/main/java/io/github/qwbarch/entity/EntitySpawner.java:178-190 | pressing and then releasing a key that was not held restores the key set, and the velocity is what the remaining keys dictate |
| EntitySpawner.PaddleIsFasterByPasses | core/src/main/java/io/github/qwbarch/entity/EntitySpawner.java:171-180 | for the same keys, the paddle's x speed is exactly 4 times the starting ball's |
| EntitySpawner.InitialBrickTexture | core/src/main/java/io/github/qwbarch/entity/EntitySpawner.java:231-249 | green exactly when start > 2, yellow exactly at 2, red exactly at 1, grey exactly when start ≤ 0 |
| EntitySpawner.RatioTexture | core/src/main/java/io/github/qwbarch/entity/EntitySpawner.java:261-266 | the ratio rule always picks one of green, yellow and red |
| EntitySpawner.HitBrick | core/src/main/java/io/github/qwbarch/entity/EntitySpawner.java:256-283 | positive hitpoints drop by exactly 1 and others are untouched; deletion happens exactly when the resulting hitpoints are 0; the texture follows the ratio rule for start > 3 and the fall-through switch otherwise |
| EntitySpawner.HitsCountDown | core/src/main/java/io/github/qwbarch/entity/EntitySpawner.java:257-258 | n hits on a non-negative count lower it by n, but never below 0 |
| EntitySpawner.InvulnerableBrick | core/src/main/java/io/github/qwbarch/entity/EntitySpawner.java:212-214 | a negative-hitpoint brick (the default −1) is never changed or deleted by any number of hits |
| EntitySpawner.DeletedOnLastHit | core/src/main/java/io/github/qwbarch/entity/EntitySpawner.java:280-282 | a brick starting with h ≥ 0 hitpoints is deleted by hit n + 1 exactly when n + 1 ≥ h, so a 0-hp brick goes on its first hit |
| EntitySpawner.RatioTextureMonotone | core/src/main/java/io/github/qwbarch/entity/EntitySpawner.java:263-266 | fewer remaining hitpoints never give a better texture tier |
| EntitySpawner.TextureNeverImproves | core/src/main/java/io/github/qwbarch/entity/EntitySpawner.java:263-266 | for a brick starting above 3 hitpoints, a hit never raises the texture tier |
| EntitySpawner.CentreStartingBall | core/src/main/java/io/github/qwbarch/entity/EntitySpawner.java:108-120 | the ball's velocity becomes 0; its x becomes paddleX + paddleW/2 − ballSize/2 and previous := current; previousVelocity is recorded only when the old x velocity was non-zero |
| EntitySpawner.CentreIdempotent | core/src/main/java/io/github/qwbarch/entity/EntitySpawner.java:108-120 | centring twice leaves the ball where centring once did |
| FixedTimestep.IndexOf | core/src/main/java/io/github/qwbarch/entity/strategy/FixedTimestepInvocationStrategy.java:26 | the lookup finds the first slot holding the key, or reports that no slot holds it |
| FixedTimestep.Get | core/src/main/java/io/github/qwbarch/entity/strategy/FixedTimestepInvocationStrategy.java:63 | a key has a value exactly when the map contains it, and that value is stored with it |
| FixedTimestep.Put | core/src/main/java/io/github/qwbarch/entity/strategy/FixedTimestepInvocationStrategy.java:68 | `put` overwrites a present key in place or appends a new one, keeps the key order, and the key then maps to the new value |
| FixedTimestep.PutKeepsOthers | core/src/main/java/io/github/qwbarch/entity/strategy/FixedTimestepInvocationStrategy.java:68 | `put` leaves every other key's value unchanged |
| FixedTimestep.PutKeepsDistinct | core/src/main/java/io/github/qwbarch/entity/strategy/FixedTimestepInvocationStrategy.java:68 | `put` never duplicates a key |
| FixedTimestep.Enabled | core/src/main/java/io/github/qwbarch/entity/strategy/FixedTimestepInvocationStrategy.java:91-93 | the systems run by a sweep are exactly those stored with `true`, in insertion order |
| FixedTimestep.NewStrategy | core/src/main/java/io/github/qwbarch/entity/strategy/FixedTimestepInvocationStrategy.java:26-47 | a new strategy has a zero accumulator and no registered systems |
| FixedTimestep.MapFor | core/src/main/java/io/github/qwbarch/entity/strategy/FixedTimestepInvocationStrategy.java:49-52 | a logic system belongs to the logic map and every other system to the default map |
| FixedTimestep.SetEnabled | core/src/main/java/io/github/qwbarch/entity/strategy/FixedTimestepInvocationStrategy.java:66-69 | after `setEnabled` the system is registered, runs exactly when enabled, and the other map and the accumulator are untouched |
| FixedTimestep.SetEnabledKeepsOthers | core/src/main/java/io/github/qwbarch/entity/strategy/FixedTimestepInvocationStrategy.java:66-69 | `setEnabled` does not change whether any other system runs |
| FixedTimestep.Initialize | core/src/main/java/io/github/qwbarch/entity/strategy/FixedTimestepInvocationStrategy.java:54-59 | `initialize` keeps the accumulator and the no-duplicate-keys invariant |
| FixedTimestep.InitializeEnablesAll | core/src/main/java/io/github/qwbarch/entity/strategy/FixedTimestepInvocationStrategy.java:54-59 | every registered system is enabled and runs after `initialize`, and the others run exactly as before |
| FixedTimestep.DisabledStillReportsEnabled | core/src/main/java/io/github/qwbarch/entity/strategy/FixedTimestepInvocationStrategy.java:61-69 | a system set to false still reports enabled, because `isEnabled` checks the key, yet it is not run |
| FixedTimestep.Capped | core/src/main/java/io/github/qwbarch/entity/strategy/FixedTimestepInvocationStrategy.java:77-79 | the amount added to the accumulator is min(delta, 25 · secondsPerTick) |
| FixedTimestep.ProcessLogicSystems | core/src/main/java/io/github/qwbarch/entity/strategy/FixedTimestepInvocationStrategy.java:88-100 | the loop runs ⌊acc/secondsPerTick⌋ times from a non-negative start (never from a negative one) and leaves 0 ≤ acc < secondsPerTick; each iteration runs the enabled logic systems in order |
| FixedTimestep.RunEnabledOnce | core/src/main/java/io/github/qwbarch/entity/strategy/FixedTimestepInvocationStrategy.java:91-98 | one sweep runs exactly the enabled systems in insertion order, skipping disabled ones |
| FixedTimestep.AlphaFor | core/src/main/java/io/github/qwbarch/entity/strategy/FixedTimestepInvocationStrategy.java:107-109 | only a render system receives alpha, and it receives the given value |
| FixedTimestep.Invocations | core/src/main/java/io/github/qwbarch/entity/strategy/FixedTimestepInvocationStrategy.java:103-111 | each default system is invoked once, in order, with alpha exactly when it is a render system |
| FixedTimestep.LogicInvocations | core/src/main/java/io/github/qwbarch/entity/strategy/FixedTimestepInvocationStrategy.java:91-96 | logic systems are invoked in order without alpha |
| FixedTimestep.ProcessDefaultSystems | core/src/main/java/io/github/qwbarch/entity/strategy/FixedTimestepInvocationStrategy.java:102-114 | the enabled default systems run once each, in order, and a render system gets accumulator / secondsPerTick |
| FixedTimestep.AlphaInUnitInterval | core/src/main/java/io/github/qwbarch/entity/strategy/FixedTimestepInvocationStrategy.java:107-109 | after the logic loop, alpha lies in [0, 1) |
| FixedTimestep.Process | core/src/main/java/io/github/qwbarch/entity/strategy/FixedTimestepInvocationStrategy.java:71-86 | only the accumulator changes; it gains the capped delta, then loses one tick per logic iteration; all logic iterations precede the single default sweep; alpha is in [0, 1) |
| FixedTimestep.SlowFrameIsCapped | core/src/main/java/io/github/qwbarch/entity/strategy/FixedTimestepInvocationStrategy.java:77-79 | a 1 s frame at 60 ticks per second adds only 25/60 s |
| WorldBounds.ClampAxis | core/src/main/java/io/github/qwbarch/entity/system/logic/CollisionSystem.java:52-60 | below 0 clamps to 0; otherwise past the far edge clamps to limit − extent; otherwise unchanged |
| WorldBounds.ProcessWorldBounded | core/src/main/java/io/github/qwbarch/entity/system/logic/CollisionSystem.java:41-73 | only world-bounded entities are clamped, on each axis; with bounce the clamped axis's velocity is negated, and otherwise velocity is unchanged, not zeroed |
| WorldBounds.ClampedIsInBounds | core/src/main/java/io/github/qwbarch/entity/system/logic/CollisionSystem.java:48-71 | if the entity fits in the world, afterwards 0 ≤ x ≤ W − w and 0 ≤ y ≤ H − h |
| WorldBounds.InBoundsUntouched | core/src/main/java/io/github/qwbarch/entity/system/logic/CollisionSystem.java:48-71 | an entity already in bounds keeps its position and velocity |
| WorldBounds.ClampIdempotent | core/src/main/java/io/github/qwbarch/entity/system/logic/CollisionSystem.java:48-71 | clamping a clamped entity again changes nothing |
| Movement.Step | core/src/main/java/io/github/qwbarch/entity/system/logic/MovementSystem.java:26-33 | previous becomes the old current, and each axis moves by its own velocity component times secondsPerTick |
| Movement.StepsTravel | core/src/main/java/io/github/qwbarch/entity/system/logic/MovementSystem.java:30-32 | n steps move the position by n · v · secondsPerTick, with previous one step behind |
| Movement.PassesAgreeWithSingleStep | core/src/main/java/io/github/qwbarch/entity/system/MovementCollisionSystem.java:133-144 | the four collision-system sub-steps of a collider-free entity land where one movement-system step does |
| PlayerSystem.Process | core/src/main/java/io/github/qwbarch/entity/system/logic/PlayerSystem.java:30-44 | a negative id changes nothing; both or neither key gives x = 0; only left −120; only right +120; y unchanged |
| PlayerSystem.AgreesWithSpawnerRule | core/src/main/java/io/github/qwbarch/entity/system/logic/PlayerSystem.java:38-43 | the system's rule is the spawner's input rule at speed 120 with no multiplier |
| Render.Lerp | core/src/main/java/io/github/qwbarch/entity/system/RenderSystem.java:41-42 | alpha 0 gives previous and alpha 1 gives current |
| Render.Process | core/src/main/java/io/github/qwbarch/entity/system/RenderSystem.java:35-46 | nothing is drawn exactly when the texture is null; otherwise the size is passed through and each coordinate is interpolated |
| Render.LerpBetween | core/src/main/java/io/github/qwbarch/entity/system/RenderSystem.java:41-42 | for alpha in [0, 1] the drawn coordinate lies between previous and current |
| Render.DefaultAlphaDrawsCurrent | core/src/main/java/io/github/qwbarch/entity/system/RenderSystem.java:21 | with the default alpha 1, an entity is drawn at its current position |
| ScreenHandler.NewHandler | core/src/main/java/io/github/qwbarch/screen/ScreenHandler.java:18-27 | a new handler has no current screen and no loaded screens |
| ScreenHandler.Add | core/src/main/java/io/github/qwbarch/screen/ScreenHandler.java:41-43 | `add` inserts the screen into the set and keeps the current screen |
| ScreenHandler.Remove | core/src/main/java/io/github/qwbarch/screen/ScreenHandler.java:50-52 | `remove` only takes the screen out of the set and keeps the current screen |
| ScreenHandler.SetScreen | core/src/main/java/io/github/qwbarch/screen/ScreenHandler.java:66-73 | the screen is loaded and becomes current; the previous one is hidden once if there was one, then the new one is shown |
| ScreenHandler.AddIdempotent | core/src/main/java/io/github/qwbarch/screen/ScreenHandler.java:41-59 | adding twice is adding once, and `contains` then holds |
| ScreenHandler.RemoveKeepsCurrent | core/src/main/java/io/github/qwbarch/screen/ScreenHandler.java:50-59 | after `remove`, `contains` fails for that screen, holds as before for the others, and the current screen is kept |
| ScreenHandler.ReselectHidesThenShows | core/src/main/java/io/github/qwbarch/screen/ScreenHandler.java:68-72 | selecting the current screen again hides and then re-shows it |
| ScreenHandler.ShownScreenIsLoaded | core/src/main/java/io/github/qwbarch/screen/ScreenHandler.java:66-67 | the shown screen is always in the loaded set |
| ScreenHandler.DisposeAll | core/src/main/java/io/github/qwbarch/screen/ScreenHandler.java:78-83 | `dispose` disposes every loaded screen exactly once and does nothing else |
| Levels.Ordinal | core/src/main/java/io/github/qwbarch/LevelResolver.java:33-37 | levels are ordered level 1 < level 2 < bonus, and the ordinal indexes `values()` |
| Levels.InitialResolver | core/src/main/java/io/github/qwbarch/LevelResolver.java:59-65 | initially both the level being played and the saved level are level 1 |
| Levels.ScreenOf | core/src/main/java/io/github/qwbarch/LevelResolver.java:110-114 | level 1, level 2 and bonus map to their own screens |
| Levels.CurrentSaveLevelScreen | core/src/main/java/io/github/qwbarch/LevelResolver.java:109-115 | the save's screen depends only on the saved level, through the level mapping |
| Levels.CurrentlyPlayingLevelScreen | core/src/main/java/io/github/qwbarch/LevelResolver.java:120-126 | the playing screen depends only on the level being played, through the same mapping |
| Levels.ScreenOfInjective | core/src/main/java/io/github/qwbarch/LevelResolver.java:109-126 | with distinct screens, two levels share a screen only when they are the same level |
| Levels.ShowWin | core/src/main/java/io/github/qwbarch/screen/WinScreen.java:146-157 | the save advances and is written exactly when the saved level is not the bonus level and equals the one being played; then its ordinal grows by 1 (always in bounds); otherwise nothing changes |
| Levels.SaveNeverRegresses | core/src/main/java/io/github/qwbarch/screen/WinScreen.java:146-153 | showing the win screen never moves the save backwards |
| Levels.TwoShowsAdvanceAtMostOnce | core/src/main/java/io/github/qwbarch/screen/WinScreen.java:146-153 | two shows with the same level being played save at most once and advance at most one level |
| Levels.WinProgression | core/src/main/java/io/github/qwbarch/screen/WinScreen.java:151-153 | level 1 advances to level 2, level 2 to bonus, and a bonus save stays |
| Levels.RepeatedShowsAdvanceAtMostOnce | core/src/main/java/io/github/qwbarch/screen/WinScreen.java:146-153 | any number of shows advance the save at most one level, and none when the saved level is not the one being played |
| Despawn.ProcessOne | core/src/main/java/io/github/qwbarch/entity/system/DespawnSystem.java:22-37 | deleted exactly when y < −height; then the callback, if any, runs and is cleared; otherwise nothing changes |
| Despawn.CallbackRunsAtMostOnce | core/src/main/java/io/github/qwbarch/entity/system/DespawnSystem.java:30-33 | processing again after a despawn finds no callback to run |
| Despawn.Process | core/src/main/java/io/github/qwbarch/entity/system/DespawnSystem.java:22-37 | a despawnable entity below the world is removed with its callback, if any, reported; otherwise the store is unchanged |
| Despawn.AboveFloorKept | core/src/main/java/io/github/qwbarch/entity/system/DespawnSystem.java:29 | an entity with y ≥ −height stays and runs no callback |
| PlayerHealth.Inserted | core/src/main/java/io/github/qwbarch/entity/system/PlayerHealthSystem.java:50-53 | an insertion notification adds exactly 1, whatever the batch size |
| PlayerHealth.Removed | core/src/main/java/io/github/qwbarch/entity/system/PlayerHealthSystem.java:56-59 | a removal notification subtracts exactly 1, whatever the batch size |
| PlayerHealth.ProcessSystem | core/src/main/java/io/github/qwbarch/entity/system/PlayerHealthSystem.java:63-72 | fires only when armed with health ≤ 0; it then disarms, resets health to 0, shows game over and unloads level 1, so the loaded screens become the old ones plus game over minus level 1; otherwise nothing changes |
| PlayerHealth.FiresAtMostOnce | core/src/main/java/io/github/qwbarch/entity/system/PlayerHealthSystem.java:65-67 | right after firing, a second call does nothing |
| PlayerHealth.InsertThenRemoveRestores | core/src/main/java/io/github/qwbarch/entity/system/PlayerHealthSystem.java:50-58 | an insertion then a removal notification restore the state |
| GameOver.HealthInserted | core/src/main/java/io/github/qwbarch/entity/system/GameOverSystem.java:51-53 | health grows by the batch size and targets are kept |
| GameOver.HealthRemoved | core/src/main/java/io/github/qwbarch/entity/system/GameOverSystem.java:56-59 | health shrinks by the batch size and targets are kept |
| GameOver.TargetsInserted | core/src/main/java/io/github/qwbarch/entity/system/GameOverSystem.java:64-67 | targets grow by the batch size and health is kept |
| GameOver.TargetsRemoved | core/src/main/java/io/github/qwbarch/entity/system/GameOverSystem.java:70-73 | targets shrink by the batch size and health is kept |
| GameOver.ProcessSystem | core/src/main/java/io/github/qwbarch/entity/system/GameOverSystem.java:77-88 | the win screen is always set first; win when targets are 0, whatever the health; lose only when targets ≠ 0 and health is 0 |
| GameOver.WinBeatsLose | core/src/main/java/io/github/qwbarch/entity/system/GameOverSystem.java:79-83 | with no targets left the win screen is shown twice and the lose screen never |
| GameOver.HealthCountersDifferOnBatches | core/src/main/java/io/github/qwbarch/entity/system/GameOverSystem.java:51-53 | a batch of two health entities counts 2 here but 1 in the player-health system |

## Left out

- Floating point: every `float` is a `real`, so IEEE rounding is not modelled. This covers `1f / 60f`, the ¼ sub-step factor, and the 0.6 and 0.3 texture thresholds. The float-typed timestamps lose nanosecond precision in the game; the model keeps exact nanoseconds.
- The clock: one `System.nanoTime()` reading per tick, the parameter `now` of `MovementCollision.Tick`. Every contact of every entity and pass in that tick uses it, whereas the game reads the clock for each sound and listener check. So nothing in the model can fire twice within one tick.
- The frame delta: it is a parameter of `FixedTimestep.Process`, so a negative delta is allowed. The fixed-timestep facts are stated for a non-negative accumulator.
- Systems: logic and default systems are recorded as invocations, in order, with their alpha. Running them is modelled by their own modules.
- Entity-state updates: artemis-odb's `updateEntityStates`, its entity subscriptions and its deferred `world.delete` are not modelled. Deletion removes the entry from the store at once. Subscriptions are parameters, given as sequences of ids.
- Deleted colliders: once a listener deletes the collider, the model stops moving it. Its detached components are no longer updated, whereas the game would still write to them until the deletion takes effect.
- Stale grid: `SpatialGrid.BroadPhaseComplete` speaks only of the store the grid was built from. The grid is built once per tick and never updated, so a collidable that also moves (the paddle) is found only in the cells it covered at the start of the tick. A ball processed after the paddle that overlaps only its newly entered cells is not tested; the model reproduces this.
- Cell loops at `Integer.MAX_VALUE`: the cell loops iterate each covered cell once, as for every coordinate below `Integer.MAX_VALUE`. A Java loop whose upper bound is `Integer.MAX_VALUE` would overflow and never end.
- Tunnelling monotonicity: detection reliability "non-decreasing in the number of passes" is not modelled, since the pass count is the constant 4. `MovementCollision.SubStepsCatchObstacle` covers the sub-step bound for that constant, for a horizontal approach from the left; other approach directions are not stated.
- `MovementCollision.ResolveAll`: its contract states structure preservation and the listener pairs, not the final position. The final position depends on the candidate order and on the listeners' effects.
- Spawning: the `spawn*` methods only attach components with constant values, and the model builds those records directly. They have no operation of their own.
- Input glue: both `InputSystem` classes only register the input processors. The processors' rules are in `EntitySpawner` and `PlayerSystem`.
- `Hitpoints.lastHitTime`: no code in the modelled core reads or writes it.
- Persistence: `LevelResolver.loadSave` and `saveFile` perform JSON file I/O. A write appears as the `saved` flag of `Levels.ShowWin`.
- Sound, textures and drawing: sound playback is the `SoundPlayed` event and a draw is a `Render.Draw` record. Textures and sounds are opaque handles.
- Screens: the screens' widgets, fonts and viewports are not modelled; a screen is an integer id. The same goes for the dependency-injection wiring and the `Main` lifecycle, except for its constants.
