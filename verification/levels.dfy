/**
 * `LevelResolver` and the save-progression rule of `WinScreen.show`: which
 * level is being played, which is saved, and how a win advances the save.
 */
module Levels {

  /** The levels in declaration order. */
  datatype Level = Level1 | Level2 | BonusLevel

  /** `Level.values()`. */
  const LEVELS: seq<Level> := [Level1, Level2, BonusLevel]

  function Ordinal(l: Level): (n: nat)
    ensures n < |LEVELS| && LEVELS[n] == l
  {
    match l
    case Level1 => 0
    case Level2 => 1
    case BonusLevel => 2
  }

  /** The three level screens the resolver hands out. */
  datatype LevelScreens<S> = LevelScreens(level1: S, level2: S, bonus: S)

  datatype Resolver = Resolver(currentlyPlaying: Level, currentSave: Level)

  /** Both fields start at the first level. */
  function InitialResolver(): (r: Resolver)
    ensures Ordinal(r.currentlyPlaying) == 0 && Ordinal(r.currentSave) == 0
  {
    Resolver(Level1, Level1)
  }

  /** The screen of a level: each level has its own. */
  function ScreenOf<S>(screens: LevelScreens<S>, l: Level): (s: S)
    ensures l == Level1 ==> s == screens.level1
    ensures l == Level2 ==> s == screens.level2
    ensures l == BonusLevel ==> s == screens.bonus
  {
    match l
    case Level1 => screens.level1
    case Level2 => screens.level2
    case BonusLevel => screens.bonus
  }

  /** `getCurrentSaveLevelScreen`. */
  function CurrentSaveLevelScreen<S>(r: Resolver, screens: LevelScreens<S>): (s: S)
    ensures s == ScreenOf(screens, r.currentSave)
  {
    ScreenOf(screens, r.currentSave)
  }

  /** `getCurrentlyPlayingLevelScreen`. */
  function CurrentlyPlayingLevelScreen<S>(r: Resolver, screens: LevelScreens<S>): (s: S)
    ensures s == ScreenOf(screens, r.currentlyPlaying)
  {
    ScreenOf(screens, r.currentlyPlaying)
  }

  /** With distinct screens, the mapping from levels to screens is one-to-one. */
  lemma ScreenOfInjective<S>(screens: LevelScreens<S>, a: Level, b: Level)
    requires screens.level1 != screens.level2 && screens.level1 != screens.bonus && screens.level2 != screens.bonus
    ensures ScreenOf(screens, a) == ScreenOf(screens, b) <==> a == b
  {
  }

  /** The result of showing the win screen: the resolver, and whether the save was written. */
  datatype WinShown = WinShown(resolver: Resolver, saved: bool)

  /**
   * The rule in `WinScreen.show`: when the level just won is the saved one
   * and it is not the last, the save moves to the next level and is written.
   */
  function ShowWin(r: Resolver): (w: WinShown)
    ensures w.resolver.currentlyPlaying == r.currentlyPlaying
    ensures w.saved <==> r.currentSave != BonusLevel && r.currentSave == r.currentlyPlaying
    ensures w.saved ==> Ordinal(w.resolver.currentSave) == Ordinal(r.currentSave) + 1
    ensures !w.saved ==> w.resolver == r
  {
    if r.currentSave != BonusLevel && r.currentSave == r.currentlyPlaying then
      WinShown(r.(currentSave := LEVELS[Ordinal(r.currentSave) + 1]), true)
    else WinShown(r, false)
  }

  /** The save never moves backwards. */
  lemma SaveNeverRegresses(r: Resolver)
    ensures Ordinal(ShowWin(r).resolver.currentSave) >= Ordinal(r.currentSave)
  {
  }

  /** Two shows for the same level being played advance the save at most once. */
  lemma TwoShowsAdvanceAtMostOnce(r: Resolver)
    ensures !(ShowWin(r).saved && ShowWin(ShowWin(r).resolver).saved)
    ensures Ordinal(ShowWin(ShowWin(r).resolver).resolver.currentSave) <= Ordinal(r.currentSave) + 1
  {
  }

  /** Winning the saved level moves the save one level on: level 1 to 2, level 2 to the bonus level. */
  lemma WinProgression()
    ensures ShowWin(Resolver(Level1, Level1)) == WinShown(Resolver(Level1, Level2), true)
    ensures ShowWin(Resolver(Level2, Level2)) == WinShown(Resolver(Level2, BonusLevel), true)
    ensures ShowWin(Resolver(BonusLevel, BonusLevel)) == WinShown(Resolver(BonusLevel, BonusLevel), false)
  {
  }

  /** `n` shows of the win screen in a row, as repeated win checks produce. */
  function ShowWinTimes(r: Resolver, n: nat): Resolver
    decreases n
  {
    if n == 0 then r else ShowWinTimes(ShowWin(r).resolver, n - 1)
  }

  /**
   * However often the win screen is shown while the same level is being
   * played, the save moves at most one level on, and only when it was that level.
   */
  lemma {:induction false} RepeatedShowsAdvanceAtMostOnce(r: Resolver, n: nat)
    ensures ShowWinTimes(r, n).currentlyPlaying == r.currentlyPlaying
    ensures Ordinal(r.currentSave) <= Ordinal(ShowWinTimes(r, n).currentSave) <= Ordinal(r.currentSave) + 1
    ensures r.currentSave != r.currentlyPlaying ==> ShowWinTimes(r, n) == r
    decreases n
  {
    if n > 0 {
      var next := ShowWin(r).resolver;
      RepeatedShowsAdvanceAtMostOnce(next, n - 1);
      if ShowWin(r).saved {
        assert next.currentSave != next.currentlyPlaying;
      }
    }
  }
}
