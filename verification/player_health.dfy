/**
 * `PlayerHealthSystem`: counts the live player-health entities and, once
 * armed, switches to the game-over screen the first time none are left.
 */
module PlayerHealth {
  import opened Wrappers
  import opened ScreenHandler

  datatype Health = Health(totalHealth: int, isReady: bool)

  /** The counter starts at 0 and the trigger disarmed. */
  const INITIAL: Health := Health(0, false)

  /** An insertion notification adds one, however many entities it carries. */
  function Inserted(s: Health, batch: nat): (r: Health)
    ensures r.totalHealth == s.totalHealth + 1 && r.isReady == s.isReady
  {
    s.(totalHealth := s.totalHealth + 1)
  }

  /** A removal notification subtracts one, however many entities it carries. */
  function Removed(s: Health, batch: nat): (r: Health)
    ensures r.totalHealth == s.totalHealth - 1 && r.isReady == s.isReady
  {
    s.(totalHealth := s.totalHealth - 1)
  }

  /** Whether `processSystem` ends the game. */
  predicate Fires(s: Health) {
    s.isReady && s.totalHealth <= 0
  }

  datatype HealthTick = HealthTick(state: Health, handler: Handler, calls: seq<ScreenCall>)

  /**
   * `processSystem`: when armed and out of health, disarm, reset the counter,
   * show the game-over screen and unload the first level's screen.
   */
  function ProcessSystem(s: Health, h: Handler, gameOverScreen: ScreenId, level1Screen: ScreenId): (r: HealthTick)
    ensures !Fires(s) ==> r == HealthTick(s, h, [])
    ensures Fires(s) ==>
              && r.state == Health(0, false)
              && r.handler.current == Some(gameOverScreen)
              && level1Screen !in r.handler.screens
              && r.handler.screens == (h.screens + {gameOverScreen}) - {level1Screen}
              && r.calls == SetScreen(h, gameOverScreen).calls
  {
    if !Fires(s) then HealthTick(s, h, [])
    else
      var sw := SetScreen(h, gameOverScreen);
      HealthTick(Health(0, false), Remove(sw.handler, level1Screen), sw.calls)
  }

  /** The game-over switch happens at most once until the system is armed again. */
  lemma FiresAtMostOnce(s: Health, h: Handler, gameOverScreen: ScreenId, level1Screen: ScreenId)
    ensures var first := ProcessSystem(s, h, gameOverScreen, level1Screen);
            ProcessSystem(first.state, first.handler, gameOverScreen, level1Screen)
              == HealthTick(first.state, first.handler, [])
  {
  }

  /** The counter ignores batch sizes: any insertion followed by any removal restores it. */
  lemma InsertThenRemoveRestores(s: Health, a: nat, b: nat)
    ensures Removed(Inserted(s, a), b) == s
  {
  }
}
