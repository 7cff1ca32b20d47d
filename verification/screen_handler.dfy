/**
 * `ScreenHandler`: the set of loaded screens and the one currently shown.
 * Screens are opaque ids; the lifecycle calls the handler makes on them are
 * returned in order.
 */
module ScreenHandler {
  import opened Wrappers

  type ScreenId = int

  /** A lifecycle call made on a screen. */
  datatype ScreenCall = Hide(screen: ScreenId) | Show(screen: ScreenId) | Dispose(screen: ScreenId)

  /** `currentScreen` starts out null. */
  datatype Handler = Handler(current: Option<ScreenId>, screens: set<ScreenId>)

  function NewHandler(): (h: Handler)
    ensures h.current.None? && h.screens == {}
  {
    Handler(None, {})
  }

  function Add(h: Handler, s: ScreenId): (r: Handler)
    ensures r.current == h.current
    ensures r.screens == h.screens + {s}
  {
    h.(screens := h.screens + {s})
  }

  function Remove(h: Handler, s: ScreenId): (r: Handler)
    ensures r.current == h.current
    ensures r.screens == h.screens - {s}
  {
    h.(screens := h.screens - {s})
  }

  predicate Contains(h: Handler, s: ScreenId) {
    s in h.screens
  }

  /** The result of a `setScreen`: the new handler and the calls made, in order. */
  datatype Switch = Switch(handler: Handler, calls: seq<ScreenCall>)

  /**
   * `setScreen`: load the screen if needed, hide the current one if there is
   * one, then make the new screen current and show it.
   */
  function SetScreen(h: Handler, s: ScreenId): (r: Switch)
    ensures r.handler.current == Some(s)
    ensures r.handler.screens == h.screens + {s}
    ensures h.current.None? ==> r.calls == [Show(s)]
    ensures h.current.Some? ==> r.calls == [Hide(h.current.value), Show(s)]
  {
    var loaded := if !Contains(h, s) then Add(h, s) else h;
    var hides := if h.current.Some? then [Hide(h.current.value)] else [];
    Switch(loaded.(current := Some(s)), hides + [Show(s)])
  }

  /** `add` twice is `add` once. */
  lemma AddIdempotent(h: Handler, s: ScreenId)
    ensures Add(Add(h, s), s) == Add(h, s)
    ensures Contains(Add(h, s), s)
  {
  }

  /** `remove` forgets the screen but never changes which screen is shown. */
  lemma RemoveKeepsCurrent(h: Handler, s: ScreenId)
    ensures !Contains(Remove(h, s), s)
    ensures Remove(h, s).current == h.current
    ensures forall other :: other != s ==> (Contains(Remove(h, s), other) <==> Contains(h, other))
  {
  }

  /** Switching to the screen already shown hides it and shows it again. */
  lemma ReselectHidesThenShows(h: Handler, s: ScreenId)
    requires h.current == Some(s)
    ensures SetScreen(h, s).calls == [Hide(s), Show(s)]
    ensures SetScreen(h, s).handler.current == h.current
  {
  }

  /** Every screen that was ever made current stays loaded until removed. */
  lemma ShownScreenIsLoaded(h: Handler, s: ScreenId)
    ensures Contains(SetScreen(h, s).handler, s)
  {
  }

  /** `dispose`: each loaded screen is disposed exactly once, in the set's iteration order. */
  method DisposeAll(h: Handler) returns (calls: seq<ScreenCall>)
    ensures |calls| == |h.screens|
    ensures forall s :: s in h.screens <==> Dispose(s) in calls
    ensures forall c :: c in calls ==> c.Dispose?
    ensures forall i, j :: 0 <= i < j < |calls| ==> calls[i] != calls[j]
  {
    var remaining := h.screens;
    calls := [];
    while remaining != {}
      invariant remaining <= h.screens
      invariant |calls| + |remaining| == |h.screens|
      invariant forall s :: s in h.screens <==> (s in remaining || Dispose(s) in calls)
      invariant forall s :: Dispose(s) in calls ==> s !in remaining
      invariant forall c :: c in calls ==> c.Dispose?
      invariant forall i, j :: 0 <= i < j < |calls| ==> calls[i] != calls[j]
      decreases |remaining|
    {
      NonEmptyHasMember(remaining);
      var s :| s in remaining;
      calls := calls + [Dispose(s)];
      remaining := remaining - {s};
    }
  }

  lemma NonEmptyHasMember(s: set<ScreenId>)
    requires s != {}
    ensures exists x :: x in s
  {
    // splitting on emptiness lets the solver use set extensionality
    if forall x :: x !in s {
    }
  }
}
