/**
 * `FixedTimestepInvocationStrategy`: the fixed-timestep game loop. Each frame
 * adds the capped frame time to an accumulator, runs the enabled logic systems
 * once per whole tick the accumulator holds, then runs the enabled default
 * systems once, handing render systems the leftover fraction of a tick.
 */
module FixedTimestep {
  import opened Wrappers

  /** Seconds per logic tick: 60 updates per second. */
  const SECONDS_PER_TICK: real := 1.0 / 60.0

  /** A frame adds at most this many ticks of time to the accumulator. */
  const MAX_TICKS_PER_FRAME: real := 25.0

  /** A registered system, with the two class tests the strategy makes on it. */
  datatype SystemRef = SystemRef(id: int, isLogic: bool, isRender: bool)

  /** libGDX's `ArrayMap<BaseSystem, Boolean>`: entries in insertion order. */
  type ArrayMap = seq<(SystemRef, bool)>

  predicate ContainsKey(m: ArrayMap, k: SystemRef) {
    exists i :: 0 <= i < |m| && m[i].0 == k
  }

  /** Each system appears at most once. */
  predicate DistinctKeys(m: ArrayMap) {
    forall i, j :: 0 <= i < j < |m| ==> m[i].0 != m[j].0
  }

  /** `indexOfKey`: the position of the first entry for `k`. */
  function IndexOf(m: ArrayMap, k: SystemRef): (r: Option<nat>)
    ensures r.Some? ==> r.value < |m| && m[r.value].0 == k && forall j :: 0 <= j < r.value ==> m[j].0 != k
    ensures r.None? ==> forall j :: 0 <= j < |m| ==> m[j].0 != k
  {
    if m == [] then None
    else if m[0].0 == k then Some(0)
    else match IndexOf(m[1..], k)
      case None => None
      case Some(i) => Some(i + 1)
  }

  /** Two maps whose keys agree up to the shorter one, with `k` absent beyond it, find `k` at the same place. */
  lemma IndexOfSameKeys(a: ArrayMap, b: ArrayMap, k: SystemRef)
    requires |a| <= |b|
    requires forall i :: 0 <= i < |a| ==> a[i].0 == b[i].0
    requires forall i :: |a| <= i < |b| ==> b[i].0 != k
    ensures IndexOf(a, k) == IndexOf(b, k)
  {
  }

  /** The value stored for `k`, if any. */
  function Get(m: ArrayMap, k: SystemRef): (r: Option<bool>)
    ensures r.Some? <==> ContainsKey(m, k)
    ensures r.Some? ==> (k, r.value) in m
  {
    match IndexOf(m, k)
    case None => None
    case Some(i) => assert m[i] == (k, m[i].1); Some(m[i].1)
  }

  /**
   * `put`: overwrite the value of a present key in place, otherwise append a
   * new entry; the keys already present keep their order.
   */
  function Put(m: ArrayMap, k: SystemRef, v: bool): (r: ArrayMap)
    ensures ContainsKey(m, k) ==> |r| == |m|
    ensures !ContainsKey(m, k) ==> |r| == |m| + 1 && r[|m|] == (k, v)
    ensures forall i :: 0 <= i < |m| ==> r[i].0 == m[i].0
    ensures Get(r, k) == Some(v)
  {
    match IndexOf(m, k)
    case Some(i) =>
      var r := m[i := (k, v)];
      IndexOfSameKeys(m, r, k);
      r
    case None =>
      var r := m + [(k, v)];
      assert r[|m|].0 == k;
      assert forall j :: 0 <= j < |m| ==> r[j].0 != k;
      r
  }

  /** `put` leaves every other key's value alone. */
  lemma PutKeepsOthers(m: ArrayMap, k: SystemRef, v: bool, other: SystemRef)
    requires other != k
    ensures Get(Put(m, k, v), other) == Get(m, other)
  {
    var r := Put(m, k, v);
    IndexOfSameKeys(m, r, other);
    if IndexOf(m, other).Some? {
      var i := IndexOf(m, other).value;
      assert r[i] == m[i];
    }
  }

  /** `put` never creates a second entry for a key. */
  lemma PutKeepsDistinct(m: ArrayMap, k: SystemRef, v: bool)
    requires DistinctKeys(m)
    ensures DistinctKeys(Put(m, k, v))
  {
    var r := Put(m, k, v);
    if !ContainsKey(m, k) {
      assert forall i :: 0 <= i < |m| ==> r[i].0 != k;
    }
  }

  /** With distinct keys, the value `get` finds is the value stored in the one entry. */
  lemma GetDistinct(m: ArrayMap, k: SystemRef, v: bool)
    requires DistinctKeys(m)
    ensures (k, v) in m <==> Get(m, k) == Some(v)
  {
    if (k, v) in m {
      var j :| 0 <= j < |m| && m[j] == (k, v);
      var i := IndexOf(m, k).value;
      assert i == j;
    }
  }

  /** The systems whose stored value is `true`, in insertion order. */
  function Enabled(m: ArrayMap): (r: seq<SystemRef>)
    ensures |r| <= |m|
    ensures forall s :: s in r <==> (s, true) in m
  {
    if m == [] then []
    else if m[0].1 then [m[0].0] + Enabled(m[1..])
    else Enabled(m[1..])
  }

  /** A run of one system, with the alpha handed to it when it is a render system. */
  datatype Invocation = Invocation(system: SystemRef, alpha: Option<real>)

  datatype Strategy = Strategy(
    secondsPerTick: real,
    logicSystems: ArrayMap,
    defaultSystems: ArrayMap,
    accumulator: real)

  /** Both maps are only ever written by `put`, so neither holds a system twice. */
  predicate Valid(s: Strategy) {
    DistinctKeys(s.logicSystems) && DistinctKeys(s.defaultSystems)
  }

  /** A fresh strategy: both maps empty and the accumulator at 0. */
  function NewStrategy(secondsPerTick: real): (s: Strategy)
    ensures s.accumulator == 0.0 && s.logicSystems == [] && s.defaultSystems == []
    ensures Valid(s)
    ensures forall sys :: !ContainsKey(s.logicSystems, sys) && !ContainsKey(s.defaultSystems, sys)
  {
    Strategy(secondsPerTick, [], [], 0.0)
  }

  /** `isEnabledForSystem`: logic systems live in one map, all others in the other. */
  function MapFor(s: Strategy, sys: SystemRef): (m: ArrayMap)
    ensures sys.isLogic ==> m == s.logicSystems
    ensures !sys.isLogic ==> m == s.defaultSystems
  {
    if sys.isLogic then s.logicSystems else s.defaultSystems
  }

  /** `isEnabled` reports whether the system is registered, not its stored flag. */
  predicate IsEnabled(s: Strategy, sys: SystemRef) {
    ContainsKey(MapFor(s, sys), sys)
  }

  /** Whether the strategy would actually run the system. */
  predicate Runs(s: Strategy, sys: SystemRef) {
    Get(MapFor(s, sys), sys) == Some(true)
  }

  /** `setEnabled`: store the flag in the system's own map and touch nothing else. */
  function SetEnabled(s: Strategy, sys: SystemRef, enabled: bool): (r: Strategy)
    ensures r.secondsPerTick == s.secondsPerTick && r.accumulator == s.accumulator
    ensures sys.isLogic ==> r.defaultSystems == s.defaultSystems
    ensures !sys.isLogic ==> r.logicSystems == s.logicSystems
    ensures IsEnabled(r, sys)
    ensures Runs(r, sys) <==> enabled
    ensures Valid(s) ==> Valid(r)
  {
    if sys.isLogic then
      PutDistinctIfValid(s.logicSystems, sys, enabled);
      s.(logicSystems := Put(s.logicSystems, sys, enabled))
    else
      PutDistinctIfValid(s.defaultSystems, sys, enabled);
      s.(defaultSystems := Put(s.defaultSystems, sys, enabled))
  }

  lemma PutDistinctIfValid(m: ArrayMap, k: SystemRef, v: bool)
    ensures DistinctKeys(m) ==> DistinctKeys(Put(m, k, v))
  {
    if DistinctKeys(m) {
      PutKeepsDistinct(m, k, v);
    }
  }

  /** `setEnabled` on one system leaves whether any other system runs unchanged. */
  lemma SetEnabledKeepsOthers(s: Strategy, sys: SystemRef, enabled: bool, other: SystemRef)
    requires other != sys
    ensures Runs(SetEnabled(s, sys, enabled), other) <==> Runs(s, other)
  {
    PutKeepsOthers(MapFor(s, sys), sys, enabled, other);
  }

  /** `initialize`: enable every registered system, in registration order. */
  function Initialize(s: Strategy, systems: seq<SystemRef>): (r: Strategy)
    ensures r.secondsPerTick == s.secondsPerTick && r.accumulator == s.accumulator
    ensures Valid(s) ==> Valid(r)
    decreases |systems|
  {
    if systems == [] then s
    else Initialize(SetEnabled(s, systems[0], true), systems[1..])
  }

  /** After `initialize` every registered system runs, and no other system changes. */
  lemma {:induction false} InitializeEnablesAll(s: Strategy, systems: seq<SystemRef>, sys: SystemRef)
    ensures sys in systems ==> IsEnabled(Initialize(s, systems), sys) && Runs(Initialize(s, systems), sys)
    ensures sys !in systems ==> (Runs(Initialize(s, systems), sys) <==> Runs(s, sys))
    decreases |systems|
  {
    if systems != [] {
      var s1 := SetEnabled(s, systems[0], true);
      InitializeEnablesAll(s1, systems[1..], sys);
      if sys != systems[0] {
        SetEnabledKeepsOthers(s, systems[0], true, sys);
      } else if sys !in systems[1..] {
        assert Runs(s1, sys);
      }
    }
  }

  /**
   * A system switched off still reports enabled, yet it is absent from the
   * systems its map runs.
   */
  lemma DisabledStillReportsEnabled(s: Strategy, sys: SystemRef)
    requires Valid(s)
    ensures IsEnabled(SetEnabled(s, sys, false), sys)
    ensures sys !in Enabled(MapFor(SetEnabled(s, sys, false), sys))
  {
    var r := SetEnabled(s, sys, false);
    var m := MapFor(r, sys);
    assert DistinctKeys(m);
    GetDistinct(m, sys, true);
  }

  /** `Math.min(delta, secondsPerTick * 25)`. */
  function Capped(delta: real, secondsPerTick: real): (c: real)
    ensures c <= delta && c <= secondsPerTick * MAX_TICKS_PER_FRAME
    ensures c == delta || c == secondsPerTick * MAX_TICKS_PER_FRAME
  {
    if delta <= secondsPerTick * MAX_TICKS_PER_FRAME then delta else secondsPerTick * MAX_TICKS_PER_FRAME
  }

  /** `n` copies of `s`, one after another. */
  function Repeat<T>(s: seq<T>, n: nat): (r: seq<T>)
    ensures |r| == n * |s|
  {
    if n == 0 then [] else Repeat(s, n - 1) + s
  }

  lemma DivisionStep(acc: real, spt: real)
    requires spt > 0.0
    ensures (acc - spt) / spt == acc / spt - 1.0
  {
    var q := acc / spt;
    var x := (acc - spt) / spt;
    assert q * spt == acc && x * spt == acc - spt;
    var d := x - (q - 1.0);
    assert d * spt == 0.0;
    // a product with a positive factor is zero only when the other factor is
    if d > 0.0 {
    } else if d < 0.0 {
    }
  }

  /** Taking one tick out of a stored amount of at least one tick lowers its whole tick count by one. */
  lemma FloorStep(x: real, spt: real)
    requires spt > 0.0 && x >= spt
    ensures (x / spt).Floor >= 1
    ensures ((x - spt) / spt).Floor == (x / spt).Floor - 1
  {
    DivisionStep(x, spt);
    var q := x / spt;
    assert q * spt == x;
    if q < 1.0 {
      // q * spt < spt would follow, contradicting x >= spt
    }
  }

  /** Less than one tick holds no whole tick. */
  lemma FloorOfFraction(x: real, spt: real)
    requires spt > 0.0 && 0.0 <= x < spt
    ensures (x / spt).Floor == 0
  {
    AlphaInUnitInterval(x, spt);
  }

  /**
   * `processLogicSystems`: while a whole tick is stored, take it out and run
   * every enabled logic system. From a non-negative accumulator the loop runs
   * exactly `floor(accumulator / secondsPerTick)` times and leaves less than
   * one tick; from a negative one it does nothing.
   */
  method ProcessLogicSystems(accumulator: real, secondsPerTick: real, logicSystems: ArrayMap)
    returns (leftover: real, ticks: nat, runs: seq<SystemRef>)
    requires secondsPerTick > 0.0
    ensures leftover == accumulator - (ticks as real) * secondsPerTick
    ensures leftover < secondsPerTick
    ensures accumulator >= 0.0 ==> 0.0 <= leftover && ticks == (accumulator / secondsPerTick).Floor
    ensures accumulator < 0.0 ==> ticks == 0 && leftover == accumulator
    ensures runs == Repeat(Enabled(logicSystems), ticks)
  {
    leftover := accumulator;
    ticks := 0;
    runs := [];
    var perTick := Enabled(logicSystems);
    while leftover >= secondsPerTick
      invariant leftover == accumulator - (ticks as real) * secondsPerTick
      invariant accumulator >= 0.0 ==> leftover >= 0.0
      invariant accumulator < 0.0 ==> ticks == 0 && leftover == accumulator
      invariant ticks + (leftover / secondsPerTick).Floor == (accumulator / secondsPerTick).Floor
      invariant runs == Repeat(perTick, ticks)
      decreases (leftover / secondsPerTick).Floor
    {
      FloorStep(leftover, secondsPerTick);
      assert (ticks as real) * secondsPerTick + secondsPerTick == ((ticks + 1) as real) * secondsPerTick;
      leftover := leftover - secondsPerTick;
      ticks := ticks + 1;
      var tick := RunEnabledOnce(logicSystems);
      runs := runs + tick;
    }
    if 0.0 <= leftover {
      FloorOfFraction(leftover, secondsPerTick);
    }
  }

  /** One sweep over a map, visiting the enabled systems by index. */
  method RunEnabledOnce(m: ArrayMap) returns (ran: seq<SystemRef>)
    ensures ran == Enabled(m)
  {
    var i := 0;
    ran := [];
    while i < |m|
      invariant 0 <= i <= |m|
      invariant Enabled(m) == ran + Enabled(m[i..])
    {
      assert m[i..][0] == m[i] && m[i..][1..] == m[i + 1..];
      if m[i].1 {
        ran := ran + [m[i].0];
      }
      i := i + 1;
    }
    assert m[|m|..] == [];
  }

  /** The alpha handed to the system: only render systems receive one. */
  function AlphaFor(sys: SystemRef, alpha: real): (a: Option<real>)
    ensures a.Some? <==> sys.isRender
    ensures a.Some? ==> a.value == alpha
  {
    if sys.isRender then Some(alpha) else None
  }

  /** Runs of a list of systems, render systems receiving `alpha`. */
  function Invocations(systems: seq<SystemRef>, alpha: real): (r: seq<Invocation>)
    ensures |r| == |systems|
    ensures forall i :: 0 <= i < |r| ==> r[i] == Invocation(systems[i], AlphaFor(systems[i], alpha))
  {
    if systems == [] then [] else [Invocation(systems[0], AlphaFor(systems[0], alpha))] + Invocations(systems[1..], alpha)
  }

  /** Runs of logic systems: they never receive an alpha. */
  function LogicInvocations(systems: seq<SystemRef>): (r: seq<Invocation>)
    ensures |r| == |systems|
    ensures forall i :: 0 <= i < |r| ==> r[i] == Invocation(systems[i], None)
  {
    if systems == [] then [] else [Invocation(systems[0], None)] + LogicInvocations(systems[1..])
  }

  /** `processDefaultSystems`: each enabled default system once, render systems told `alpha`. */
  method ProcessDefaultSystems(accumulator: real, secondsPerTick: real, defaultSystems: ArrayMap)
    returns (runs: seq<Invocation>)
    requires secondsPerTick > 0.0
    ensures runs == Invocations(Enabled(defaultSystems), accumulator / secondsPerTick)
  {
    var enabled := RunEnabledOnce(defaultSystems);
    var alpha := accumulator / secondsPerTick;
    runs := [];
    var i := 0;
    while i < |enabled|
      invariant 0 <= i <= |enabled|
      invariant runs == Invocations(enabled[..i], alpha)
    {
      assert enabled[..i + 1] == enabled[..i] + [enabled[i]];
      InvocationsAppend(enabled[..i], [enabled[i]], alpha);
      runs := runs + [Invocation(enabled[i], AlphaFor(enabled[i], alpha))];
      i := i + 1;
    }
    assert enabled[..|enabled|] == enabled;
  }

  lemma {:induction false} InvocationsAppend(a: seq<SystemRef>, b: seq<SystemRef>, alpha: real)
    ensures Invocations(a + b, alpha) == Invocations(a, alpha) + Invocations(b, alpha)
  {
    if a != [] {
      assert (a + b)[1..] == a[1..] + b;
      InvocationsAppend(a[1..], b, alpha);
    }
  }

  /** The leftover fraction of a tick: in [0, 1) whenever less than one tick is left over. */
  lemma AlphaInUnitInterval(accumulator: real, secondsPerTick: real)
    requires secondsPerTick > 0.0
    requires 0.0 <= accumulator < secondsPerTick
    ensures 0.0 <= accumulator / secondsPerTick < 1.0
  {
    var a := accumulator / secondsPerTick;
    assert a * secondsPerTick == accumulator;
    if a < 0.0 {
    } else if a >= 1.0 {
    }
  }

  /**
   * `process`: add the capped frame time, run the logic systems once per
   * whole stored tick, then the default systems once with the leftover
   * fraction as alpha. Only the accumulator changes.
   */
  method Process(s: Strategy, delta: real) returns (r: Strategy, ticks: nat, runs: seq<Invocation>)
    requires s.secondsPerTick > 0.0
    ensures r == s.(accumulator := r.accumulator)
    ensures var total := s.accumulator + Capped(delta, s.secondsPerTick);
            && r.accumulator == total - (ticks as real) * s.secondsPerTick
            && r.accumulator < s.secondsPerTick
            && (total >= 0.0 ==> 0.0 <= r.accumulator && ticks == (total / s.secondsPerTick).Floor)
            && (total < 0.0 ==> ticks == 0)
    ensures runs == LogicInvocations(Repeat(Enabled(s.logicSystems), ticks))
                  + Invocations(Enabled(s.defaultSystems), r.accumulator / s.secondsPerTick)
    ensures s.accumulator + Capped(delta, s.secondsPerTick) >= 0.0 ==>
              forall inv :: inv in runs && inv.alpha.Some? ==> 0.0 <= inv.alpha.value < 1.0
  {
    var total := s.accumulator + Capped(delta, s.secondsPerTick);
    var leftover, logicRuns;
    leftover, ticks, logicRuns := ProcessLogicSystems(total, s.secondsPerTick, s.logicSystems);
    var defaultRuns := ProcessDefaultSystems(leftover, s.secondsPerTick, s.defaultSystems);
    r := s.(accumulator := leftover);
    runs := LogicInvocations(logicRuns) + defaultRuns;
    if total >= 0.0 {
      AlphaInUnitInterval(leftover, s.secondsPerTick);
    }
  }

  /** A one-second frame at 60 ticks per second adds 25/60 s to the accumulator, not the full second. */
  lemma SlowFrameIsCapped()
    ensures Capped(1.0, SECONDS_PER_TICK) == 25.0 / 60.0
    ensures Capped(1.0, SECONDS_PER_TICK) < 1.0
  {
  }
}
