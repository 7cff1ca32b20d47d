/**
 * `GameOverSystem`: tracks the live player-health and target entities by
 * batch size, and picks the win or lose screen every tick.
 */
module GameOver {
  import opened Wrappers
  import opened ScreenHandler
  import PlayerHealth

  datatype Counters = Counters(remainingHealth: int, remainingTargets: int)

  function HealthInserted(c: Counters, batch: nat): (r: Counters)
    ensures r.remainingHealth == c.remainingHealth + batch && r.remainingTargets == c.remainingTargets
  {
    c.(remainingHealth := c.remainingHealth + batch)
  }

  function HealthRemoved(c: Counters, batch: nat): (r: Counters)
    ensures r.remainingHealth == c.remainingHealth - batch && r.remainingTargets == c.remainingTargets
  {
    c.(remainingHealth := c.remainingHealth - batch)
  }

  function TargetsInserted(c: Counters, batch: nat): (r: Counters)
    ensures r.remainingTargets == c.remainingTargets + batch && r.remainingHealth == c.remainingHealth
  {
    c.(remainingTargets := c.remainingTargets + batch)
  }

  function TargetsRemoved(c: Counters, batch: nat): (r: Counters)
    ensures r.remainingTargets == c.remainingTargets - batch && r.remainingHealth == c.remainingHealth
  {
    c.(remainingTargets := c.remainingTargets - batch)
  }

  /**
   * `processSystem`: always switch to the win screen first; then, with no
   * targets left, switch to it again, or else with no health left switch to
   * the lose screen. The counters are only read.
   */
  function ProcessSystem(c: Counters, h: Handler, winScreen: ScreenId, loseScreen: ScreenId): (r: Switch)
    ensures c.remainingTargets == 0 ==> r.handler.current == Some(winScreen)
    ensures c.remainingTargets != 0 && c.remainingHealth == 0 ==> r.handler.current == Some(loseScreen)
    ensures c.remainingTargets != 0 && c.remainingHealth != 0 ==> r.handler.current == Some(winScreen)
    ensures h.current.None? ==> |r.calls| >= 1 && r.calls[0] == Show(winScreen)
    ensures h.current.Some? ==> |r.calls| >= 2 && r.calls[..2] == [Hide(h.current.value), Show(winScreen)]
    ensures winScreen in r.handler.screens && h.screens <= r.handler.screens
  {
    var first := SetScreen(h, winScreen);
    if c.remainingTargets == 0 then
      var second := SetScreen(first.handler, winScreen);
      Switch(second.handler, first.calls + second.calls)
    else if c.remainingHealth == 0 then
      var second := SetScreen(first.handler, loseScreen);
      Switch(second.handler, first.calls + second.calls)
    else first
  }

  /** How many times a call list shows a screen. */
  function ShowCount(calls: seq<ScreenCall>, s: ScreenId): nat {
    if calls == [] then 0 else (if calls[0] == Show(s) then 1 else 0) + ShowCount(calls[1..], s)
  }

  lemma {:induction false} ShowCountAppend(a: seq<ScreenCall>, b: seq<ScreenCall>, s: ScreenId)
    ensures ShowCount(a + b, s) == ShowCount(a, s) + ShowCount(b, s)
  {
    if a == [] {
      assert a + b == b;
    } else {
      assert (a + b)[1..] == a[1..] + b;
      ShowCountAppend(a[1..], b, s);
    }
  }

  /**
   * Win takes precedence over loss: with no targets left the win screen is
   * shown twice in the tick, hidden once in between, and the lose screen never.
   */
  lemma WinBeatsLose(c: Counters, h: Handler, winScreen: ScreenId, loseScreen: ScreenId)
    requires c.remainingTargets == 0 && winScreen != loseScreen
    ensures ShowCount(ProcessSystem(c, h, winScreen, loseScreen).calls, winScreen) == 2
    ensures ShowCount(ProcessSystem(c, h, winScreen, loseScreen).calls, loseScreen) == 0
  {
    var first := SetScreen(h, winScreen);
    var second := SetScreen(first.handler, winScreen);
    ShowCountAppend(first.calls, second.calls, winScreen);
    ShowCountAppend(first.calls, second.calls, loseScreen);
  }

  /**
   * The two health counters disagree once a notification carries more than
   * one entity: this one counts entities, the other counts notifications.
   */
  lemma HealthCountersDifferOnBatches()
    ensures HealthInserted(Counters(0, 0), 2).remainingHealth == 2
    ensures PlayerHealth.Inserted(PlayerHealth.INITIAL, 2).totalHealth == 1
  {
  }
}
