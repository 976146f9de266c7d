/**
 * The four activation tests of `EdapDevice` (delta, level crossing, tolerance,
 * time window) and the per-trigger decision that combines them.
 */
module Predicates {
  import opened Wrappers
  import opened EdapTypes

  function Abs(x: real): real {
    if x < 0.0 then -x else x
  }

  /** `trigger.get('value') or 0`. */
  function CachedOrZero(t: Trigger): real {
    if t.value.Some? then t.value.value else 0.0
  }

  /** `_delta_triggered`: the change since this trigger's own cached value. */
  function DeltaTriggered(value: real, t: Trigger): (fired: bool)
    ensures t.delta.NoDelta? ==> !fired
    ensures (t.delta.NullDelta? || t.delta == Delta(0.0)) ==> (fired <==> t.value != Some(value))
    ensures t.delta.Delta? && t.delta.threshold != 0.0 ==>
              (fired <==> Abs(value - CachedOrZero(t)) > t.delta.threshold)
  {
    match t.delta
    case NoDelta => false
    case NullDelta => t.value != Some(value)
    case Delta(d) => if d == 0.0 then t.value != Some(value) else Abs(value - CachedOrZero(t)) > d
  }

  /** `level` lies strictly between `a` and `b`, in either direction. */
  predicate StrictlyBetween(a: real, level: real, b: real) {
    a > level > b || a < level < b
  }

  /** The early-return loop of `_level_triggered` over the levels. */
  function CrossesAny(levels: seq<real>, last: real, value: real): (crossed: bool)
    ensures crossed <==> exists i :: 0 <= i < |levels| && StrictlyBetween(last, levels[i], value)
    decreases |levels|
  {
    if levels == [] then false
    else if StrictlyBetween(last, levels[0], value) then true
    else
      var rest := CrossesAny(levels[1..], last, value);
      assert forall i :: 1 <= i < |levels| ==> levels[i] == levels[1..][i - 1];
      rest
  }

  /**
   * `_level_triggered`: compares against the LAST EMITTED sample (not the
   * trigger's cache); a trigger without a property (or with "") never fires.
   */
  function LevelTriggered(value: real, t: Trigger, last: Sample): (fired: bool)
    ensures fired <==>
      t.property.Some? && t.property.value != "" &&
      exists i :: 0 <= i < |t.levels| && StrictlyBetween(LastValue(last, t.property.value), t.levels[i], value)
  {
    if t.property.None? || t.property.value == "" then false
    else CrossesAny(t.levels, LastValue(last, t.property.value), value)
  }

  /** Level crossing never fires on equality with a level, nor when the value did not move. */
  lemma LevelNeedsStrictCrossing(value: real, t: Trigger, last: Sample)
    requires LevelTriggered(value, t, last)
    ensures LastValue(last, t.property.value) != value
    ensures exists i :: 0 <= i < |t.levels| && t.levels[i] != value && t.levels[i] != LastValue(last, t.property.value)
  {
  }

  /** `_property_failures.get(p, 0)`. */
  function Count(f: Failures, p: Option<string>): int {
    if p in f then f[p] else 0
  }

  /** `_is_tolerance_triggered`: exact mode (`==`) after a miss, `>=` when the value is back. */
  function ToleranceTriggered(t: Trigger, f: Failures, exactEquals: bool): bool {
    if t.tolerance.Some? && t.property in f then
      if exactEquals then f[t.property] == t.tolerance.value else f[t.property] >= t.tolerance.value
    else false
  }

  /** Python's `int(x)` on a float: truncation toward zero. */
  function Trunc(d: real): (n: int)
    ensures d >= 0.0 ==> n as real <= d < n as real + 1.0
    ensures d < 0.0 ==> n as real - 1.0 < d <= n as real
  {
    if d >= 0.0 then d.Floor else -((-d).Floor)
  }

  /**
   * What `_is_time_triggered` needs in order not to raise: once a time trigger
   * has a cached time, its `delta` must be a number and the reading must have a time.
   */
  predicate TimeReady(t: Trigger, r: Reading) {
    t.property == Some(TimeProperty) && t.value.Some? ==> t.delta.Delta? && r.time.Some?
  }

  /** `_is_time_triggered`: fires with no cached time, else once `delta` whole seconds elapsed. */
  function TimeTriggered(sampleTime: Option<int>, t: Trigger): (fired: bool)
    requires t.value.Some? ==> t.delta.Delta? && sampleTime.Some?
    ensures t.value.None? ==> fired
    ensures t.value.Some? ==> (fired <==> sampleTime.value as real - t.value.value >= Trunc(t.delta.threshold) as real)
  {
    if t.value.None? then true
    else sampleTime.value as real - t.value.value >= Trunc(t.delta.threshold) as real
  }

  /**
   * `_single_trigger_activated`: whether `t` fires on `r`, and the failure
   * counters afterwards. Counters are keyed by property, not by trigger.
   */
  function Single(t: Trigger, f: Failures, last: Sample, r: Reading): (res: (bool, Failures))
    requires TimeReady(t, r)
    ensures t.property == Some(TimeProperty) ==> res.1 == f
    ensures t.property != Some(TimeProperty) ==>
              res.1.Keys == f.Keys + {t.property} &&
              res.1[t.property] == (if CurrentValue(r, t.property).Some? then 0 else Count(f, t.property) + 1)
    ensures forall k :: k in f && k != t.property ==> k in res.1 && res.1[k] == f[k]
  {
    if t.property == Some(TimeProperty) then (TimeTriggered(r.time, t), f)
    else
      var v := CurrentValue(r, t.property);
      if v.Some? then
        var tolerance := ToleranceTriggered(t, f, false);
        (tolerance || LevelTriggered(v.value, t, last) || DeltaTriggered(v.value, t), f[t.property := 0])
      else
        var f' := f[t.property := Count(f, t.property) + 1];
        (ToleranceTriggered(t, f', true), f')
  }

  /**
   * A missing value fires only through tolerance, and only when the counter
   * reaches `tolerance` exactly: once per missing streak.
   */
  lemma MissingFiresAtTolerance(t: Trigger, f: Failures, last: Sample, r: Reading)
    requires t.property != Some(TimeProperty) && CurrentValue(r, t.property).None?
    ensures Single(t, f, last, r).0 <==> t.tolerance == Some(Count(f, t.property) + 1)
  {
  }

  /** A present value after a streak of at least `tolerance` misses fires, and the counter resets. */
  lemma PresentAfterStreakFires(t: Trigger, f: Failures, last: Sample, r: Reading)
    requires t.property != Some(TimeProperty) && CurrentValue(r, t.property).Some?
    requires t.tolerance.Some? && Count(f, t.property) >= t.tolerance.value && t.property in f
    ensures Single(t, f, last, r).0
    ensures Single(t, f, last, r).1[t.property] == 0
  {
  }

  /** The missing-value path reads neither the trigger's cache nor the stored sample. */
  lemma MissingIgnoresCacheAndLast(t: Trigger, v: Option<real>, f: Failures, last: Sample, last': Sample, r: Reading)
    requires t.property != Some(TimeProperty) && CurrentValue(r, t.property).None?
    ensures Single(t, f, last, r) == Single(t.(value := v), f, last', r)
  {
  }

  /** Without `tolerance`, whether a trigger fires does not depend on the counters. */
  lemma NoToleranceIgnoresCounters(t: Trigger, f: Failures, g: Failures, last: Sample, r: Reading)
    requires TimeReady(t, r) && t.tolerance.None?
    ensures Single(t, f, last, r).0 == Single(t, g, last, r).0
  {
  }

  /**
   * A pure delta trigger with threshold d > 0 and cached value v fires on a
   * present value x exactly when |x - v| > d.
   */
  lemma DeltaThreshold(t: Trigger, f: Failures, last: Sample, r: Reading, d: real, v: real)
    requires t.property != Some(TimeProperty) && t.tolerance.None? && t.levels == []
    requires t.delta == Delta(d) && d > 0.0 && t.value == Some(v)
    requires CurrentValue(r, t.property).Some?
    ensures Single(t, f, last, r).0 <==> Abs(CurrentValue(r, t.property).value - v) > d
  {
  }

  /** Iterating a missing value `n` times: the counter and whether each step fired. */
  function MissingStreak(t: Trigger, f: Failures, last: Sample, r: Reading, n: nat): (res: (seq<bool>, Failures))
    requires t.property != Some(TimeProperty) && CurrentValue(r, t.property).None?
    ensures |res.0| == n
    decreases n
  {
    if n == 0 then ([], f)
    else
      var (fired, f1) := MissingStreak(t, f, last, r, n - 1);
      var (b, f2) := Single(t, f1, last, r);
      (fired + [b], f2)
  }

  /**
   * Over a streak of misses starting from a zero counter, the j-th miss
   * (counting from 1) fires iff j equals `tolerance`: at most one firing.
   */
  lemma {:induction false} MissingStreakFiresOnce(t: Trigger, f: Failures, last: Sample, r: Reading, n: nat)
    requires t.property != Some(TimeProperty) && CurrentValue(r, t.property).None?
    requires Count(f, t.property) == 0
    ensures Count(MissingStreak(t, f, last, r, n).1, t.property) == n
    ensures forall j :: 0 <= j < n ==> (MissingStreak(t, f, last, r, n).0[j] <==> t.tolerance == Some(j + 1))
  {
    if n > 0 {
      MissingStreakFiresOnce(t, f, last, r, n - 1);
      var (fired, f1) := MissingStreak(t, f, last, r, n - 1);
      MissingFiresAtTolerance(t, f1, last, r);
    }
  }
}
