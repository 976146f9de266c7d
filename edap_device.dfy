/**
 * `EdapDevice`: the stateful engine. It holds the trigger list with each
 * trigger's cached value, the per-property failure counters and the last
 * emitted sample, and `Trigger` evaluates one reading against all of them.
 */
module Edap {
  import opened Wrappers
  import opened EdapTypes
  import opened Predicates
  import opened Samples

  /** No trigger would raise in `_is_time_triggered` on reading `r` itself. */
  predicate AllTimeReady(ts: seq<Trigger>, r: Reading) {
    forall i :: 0 <= i < |ts| ==> TimeReady(ts[i], r)
  }

  /**
   * The first loop of `trigger`: test every trigger in registration order,
   * threading the failure counters through; one flag per trigger.
   */
  function Evaluate(ts: seq<Trigger>, f: Failures, last: Sample, r: Reading): (res: (seq<bool>, Failures))
    requires AllTimeReady(ts, r)
    ensures |res.0| == |ts|
    decreases |ts|
  {
    if ts == [] then ([], f)
    else
      var (flags, f1) := Evaluate(ts[..|ts| - 1], f, last, r);
      var (b, f2) := Single(ts[|ts| - 1], f1, last, r);
      (flags + [b], f2)
  }

  /** The positions of the fired triggers, in increasing (registration) order. */
  function ActivatedIndices(flags: seq<bool>): (idx: seq<nat>)
    ensures forall k :: 0 <= k < |idx| ==> idx[k] < |flags| && flags[idx[k]]
    ensures forall i :: 0 <= i < |flags| && flags[i] ==> i in idx
    ensures forall a, b :: 0 <= a < b < |idx| ==> idx[a] < idx[b]
    decreases |flags|
  {
    if flags == [] then []
    else
      var front := ActivatedIndices(flags[..|flags| - 1]);
      if flags[|flags| - 1] then front + [|flags| - 1] else front
  }

  /** The triggers at positions `idx`. */
  function Activated(ts: seq<Trigger>, idx: seq<nat>): seq<Trigger>
    requires forall k :: 0 <= k < |idx| ==> idx[k] < |ts|
  {
    seq(|idx|, k requires 0 <= k < |idx| => ts[idx[k]])
  }

  /** Every fired trigger caches the reading's value for its property; the rest are untouched. */
  function WriteBack(ts: seq<Trigger>, flags: seq<bool>, r: Reading): seq<Trigger>
    requires |flags| == |ts|
  {
    seq(|ts|, i requires 0 <= i < |ts| => if flags[i] then ts[i].(value := CurrentValue(r, ts[i].property)) else ts[i])
  }

  /** The sample `trigger` emits for the flags of `Evaluate`. */
  function Emission(ts: seq<Trigger>, flags: seq<bool>, r: Reading, last: Sample): Sample
    requires |flags| == |ts|
  {
    Annotated(GenerateSample(r, last), Activated(ts, ActivatedIndices(flags)), r.sensors)
  }

  /** The emitted `triggers` list holds one id per fired trigger, in registration order. */
  lemma EmissionIds(ts: seq<Trigger>, flags: seq<bool>, r: Reading, last: Sample)
    requires |flags| == |ts|
    ensures var idx := ActivatedIndices(flags);
            var ids := Emission(ts, flags, r, last).triggers;
            |ids| == |idx| && forall k :: 0 <= k < |idx| ==> ids[k] == EmittedId(ts[idx[k]])
  {
    var idx := ActivatedIndices(flags);
    var acts := Activated(ts, idx);
    AnnotatedIds(GenerateSample(r, last), acts, r.sensors);
    assert Emission(ts, flags, r, last).triggers == Ids(acts);
  }

  /**
   * The emitted sensors come from the reading; every other field is the one
   * `generate_sample` computed.
   */
  lemma EmissionFields(ts: seq<Trigger>, flags: seq<bool>, r: Reading, last: Sample)
    requires |flags| == |ts|
    ensures var s := Emission(ts, flags, r, last);
            SubMap(s.sensors, r.sensors) && s.(triggers := [], sensors := map[]) == GenerateSample(r, last)
  {
    var acts := Activated(ts, ActivatedIndices(flags));
    AnnotatedKeepsOtherFields(GenerateSample(r, last), acts, r.sensors);
    AnnotatedSensorsSubMap(GenerateSample(r, last), acts, r.sensors);
  }

  /** Number of non-time triggers of `ts` that watch property `k`. */
  function Watchers(ts: seq<Trigger>, k: Option<string>): nat
    decreases |ts|
  {
    if ts == [] then 0
    else Watchers(ts[..|ts| - 1], k) + (if ts[|ts| - 1].property == k && k != Some(TimeProperty) then 1 else 0)
  }

  /**
   * Failure counters are keyed by property: after one reading, a watched
   * property's counter is 0 if its value is present, else it grew by one per
   * trigger watching it; unwatched counters are unchanged.
   */
  lemma {:induction false} EvaluateFailures(ts: seq<Trigger>, f: Failures, last: Sample, r: Reading, k: Option<string>)
    requires AllTimeReady(ts, r)
    ensures var f' := Evaluate(ts, f, last, r).1;
            (k in f' <==> k in f || Watchers(ts, k) > 0) &&
            Count(f', k) == if Watchers(ts, k) == 0 then Count(f, k)
                            else if CurrentValue(r, k).Some? then 0
                            else Count(f, k) + Watchers(ts, k)
    decreases |ts|
  {
    if ts != [] {
      EvaluateFailures(ts[..|ts| - 1], f, last, r, k);
    }
  }

  /**
   * Flag `i` is the verdict of trigger `i` against the counters left behind by
   * the triggers registered before it, so earlier triggers see no later update.
   */
  lemma {:induction false} EvaluateFlags(ts: seq<Trigger>, f: Failures, last: Sample, r: Reading, i: nat)
    requires AllTimeReady(ts, r) && i < |ts|
    ensures AllTimeReady(ts[..i], r)
    ensures Evaluate(ts, f, last, r).0[i] == Single(ts[i], Evaluate(ts[..i], f, last, r).1, last, r).0
    decreases |ts|
  {
    var front := ts[..|ts| - 1];
    if i < |ts| - 1 {
      EvaluateFlags(front, f, last, r, i);
      assert front[..i] == ts[..i];
    } else {
      assert ts[..i] == front;
    }
  }

  /** `ts` is `before` with exactly the triggers at positions `done` caching their current value. */
  ghost predicate CachedExactly(ts: seq<Trigger>, before: seq<Trigger>, done: seq<nat>, r: Reading) {
    |ts| == |before| &&
    forall m :: 0 <= m < |ts| ==>
      ts[m] == if m in done then before[m].(value := CurrentValue(r, before[m].property)) else before[m]
  }

  lemma CachedStep(ts: seq<Trigger>, before: seq<Trigger>, done: seq<nat>, j: nat, r: Reading)
    requires CachedExactly(ts, before, done, r) && j < |ts| && j !in done
    ensures CachedExactly(ts[j := ts[j].(value := CurrentValue(r, ts[j].property))], before, done + [j], r)
  {
  }

  lemma CachedAll(ts: seq<Trigger>, before: seq<Trigger>, flags: seq<bool>, r: Reading)
    requires |flags| == |before| && CachedExactly(ts, before, ActivatedIndices(flags), r)
    ensures ts == WriteBack(before, flags, r)
  {
  }

  lemma ActivatedStep(ts: seq<Trigger>, idx: seq<nat>, k: nat)
    requires k < |idx| && forall i :: 0 <= i < |idx| ==> idx[i] < |ts|
    ensures Activated(ts, idx[..k + 1]) == Activated(ts, idx[..k]) + [ts[idx[k]]]
  {
  }

  lemma AnnotatedStep(base: Sample, acts: seq<Trigger>, t: Trigger, reading: SensorMap)
    ensures Annotated(base, acts + [t], reading) == AnnotateOne(Annotated(base, acts, reading), t, reading)
  {
    assert (acts + [t])[..|acts|] == acts;
  }

  /** In a strictly increasing index list, no position repeats an earlier one. */
  lemma FreshIndex(idx: seq<nat>, k: nat)
    requires k < |idx| && forall a, b :: 0 <= a < b < |idx| ==> idx[a] < idx[b]
    ensures idx[k] !in idx[..k]
  {
    forall i | 0 <= i < k
      ensures idx[..k][i] != idx[k]
    {
      assert idx[i] < idx[k];
    }
  }

  /** One round of the second loop of `trigger` caches the next fired trigger's value. */
  lemma CacheStepAt(ts: seq<Trigger>, before: seq<Trigger>, idx: seq<nat>, k: nat, r: Reading)
    requires k < |idx| && idx[k] < |ts| && idx[k] !in idx[..k]
    requires CachedExactly(ts, before, idx[..k], r)
    ensures ts[idx[k]] == before[idx[k]]
    ensures CachedExactly(ts[idx[k] := ts[idx[k]].(value := CurrentValue(r, ts[idx[k]].property))], before, idx[..k + 1], r)
  {
    var j := idx[k];
    CachedStep(ts, before, idx[..k], j, r);
    assert idx[..k + 1] == idx[..k] + [j];
  }

  /** One round of the second loop of `trigger` records the next fired trigger in the sample. */
  lemma RecordStepAt(before: seq<Trigger>, idx: seq<nat>, k: nat, base: Sample, s: Sample, reading: SensorMap)
    requires k < |idx| && forall i :: 0 <= i < |idx| ==> idx[i] < |before|
    requires s == Annotated(base, Activated(before, idx[..k]), reading)
    ensures AnnotateOne(s, before[idx[k]], reading) == Annotated(base, Activated(before, idx[..k + 1]), reading)
  {
    ActivatedStep(before, idx, k);
    AnnotatedStep(base, Activated(before, idx[..k]), before[idx[k]], reading);
  }

  /** The engine's whole state: triggers with their caches, failure counters, last emitted sample. */
  datatype EngineState = EngineState(triggers: seq<Trigger>, failures: Failures, lastSample: Sample)

  /**
   * One call of `trigger` on state `s`: the next state and what is returned.
   * `Evaluate` decides which triggers fire; with none, only the counters move.
   */
  function TriggerStep(s: EngineState, r: Reading): (res: (EngineState, Option<Sample>))
    requires AllTimeReady(s.triggers, r)
  {
    var (flags, f') := Evaluate(s.triggers, s.failures, s.lastSample, r);
    if ActivatedIndices(flags) == [] then (s.(failures := f'), None)
    else
      var sample := Emission(s.triggers, flags, r, s.lastSample);
      (EngineState(WriteBack(s.triggers, flags, r), f', sample), Some(sample))
  }

  /**
   * `trigger` returns `None` iff no trigger fires, and then only the failure
   * counters change: triggers and the stored sample stay as they were.
   */
  lemma TriggerStepQuiet(s: EngineState, r: Reading)
    requires AllTimeReady(s.triggers, r)
    ensures var (s', out) := TriggerStep(s, r);
            var (flags, f') := Evaluate(s.triggers, s.failures, s.lastSample, r);
            && s'.failures == f'
            && (out.None? <==> forall i :: 0 <= i < |flags| ==> !flags[i])
            && (out.None? ==> s'.triggers == s.triggers && s'.lastSample == s.lastSample)
  {
    var flags := Evaluate(s.triggers, s.failures, s.lastSample, r).0;
    if ActivatedIndices(flags) == [] {
      assert forall i :: 0 <= i < |flags| ==> !flags[i];
    } else {
      assert flags[ActivatedIndices(flags)[0]];
    }
  }

  /**
   * When `trigger` emits, the returned sample becomes the stored sample, its
   * ids are those of the fired triggers in registration order, and exactly the
   * fired triggers cache the reading's value.
   */
  lemma TriggerStepEmits(s: EngineState, r: Reading)
    requires AllTimeReady(s.triggers, r)
    ensures var (s', out) := TriggerStep(s, r);
            var flags := Evaluate(s.triggers, s.failures, s.lastSample, r).0;
            var idx := ActivatedIndices(flags);
            out.Some? ==>
              && out.value == s'.lastSample
              && |out.value.triggers| == |idx|
              && (forall k :: 0 <= k < |idx| ==> out.value.triggers[k] == EmittedId(s.triggers[idx[k]]))
              && |s'.triggers| == |s.triggers|
              && (forall i :: 0 <= i < |s.triggers| ==>
                    s'.triggers[i] == if flags[i] then s.triggers[i].(value := CurrentValue(r, s.triggers[i].property))
                                      else s.triggers[i])
  {
    var flags := Evaluate(s.triggers, s.failures, s.lastSample, r).0;
    EmissionIds(s.triggers, flags, r, s.lastSample);
  }

  class EdapDevice {
    var triggers: seq<Trigger>
    var failures: Failures
    var lastSample: Sample

    /** The abstract state this object holds. */
    function State(): EngineState
      reads this
    {
      EngineState(triggers, failures, lastSample)
    }

    /** The stored sample before any emission; `now` stands for the clock read at construction. */
    static function InitialSample(now: int): Sample {
      Sample(Some(now), Some(0.0), Some(0.0), Some(0.0), Some(0.0), map[], [])
    }

    /** `__init__`: keeps the given triggers (`triggers or []`); no default trigger is added. */
    constructor (initial: Option<seq<Trigger>>, now: int)
      ensures triggers == (if initial.Some? then initial.value else [])
      ensures failures == map[] && lastSample == InitialSample(now)
    {
      triggers := if initial.Some? then initial.value else [];
      failures := map[];
      lastSample := InitialSample(now);
    }

    /** `get_triggers`. */
    method GetTriggers() returns (ts: seq<Trigger>)
      ensures ts == triggers
    {
      ts := triggers;
    }

    /** `set_triggers`: stores the list, adding the hourly time trigger when it is absent or empty. */
    method SetTriggers(ts: Option<seq<Trigger>>)
      modifies this`triggers
      ensures |triggers| >= 1
      ensures ts.Some? && ts.value != [] ==> triggers == ts.value
      ensures ts.None? || ts.value == [] ==> triggers == [DefaultTimeTrigger]
    {
      if ts.None? {
        triggers := [];
      } else {
        triggers := ts.value;
      }
      if |triggers| == 0 {
        triggers := triggers + [DefaultTimeTrigger];
      }
    }

    /** `_single_trigger_activated`: tests one trigger and updates the counter of its property. */
    method SingleTriggerActivated(r: Reading, t: Trigger) returns (fired: bool)
      requires TimeReady(t, r)
      modifies this`failures
      ensures (fired, failures) == Single(t, old(failures), lastSample, r)
    {
      if t.property == Some(TimeProperty) {
        return TimeTriggered(r.time, t);
      }
      var value := CurrentValue(r, t.property);
      if value.Some? {
        var tolerance := ToleranceTriggered(t, failures, false);
        failures := failures[t.property := 0];
        if tolerance || LevelTriggered(value.value, t, lastSample) || DeltaTriggered(value.value, t) {
          return true;
        }
      } else {
        failures := failures[t.property := Count(failures, t.property) + 1];
        if ToleranceTriggered(t, failures, true) {
          return true;
        }
      }
      return false;
    }

    /** Records one fired trigger in the stored sample: its id, then its sensors. */
    method RecordTrigger(t: Trigger, sensors: SensorMap)
      modifies this`lastSample
      ensures lastSample == AnnotateOne(old(lastSample), t, sensors)
    {
      lastSample := lastSample.(triggers := lastSample.triggers + [EmittedId(t)]);
      if |lastSample.sensors| == |sensors| {
        return;
      }
      if t.sensors.None? {
        lastSample := lastSample.(sensors := sensors);
      } else {
        var names := t.sensors.value;
        var j := 0;
        while j < |names|
          invariant 0 <= j <= |names|
          invariant lastSample == old(lastSample).(
                      triggers := old(lastSample).triggers + [EmittedId(t)],
                      sensors := AllowListMerge(old(lastSample).sensors, sensors, names[..j]))
        {
          var value := Lookup(sensors, names[j]);
          if value.Some? {
            lastSample := lastSample.(sensors := lastSample.sensors[names[j] := value]);
          }
          assert names[..j + 1][..j] == names[..j];
          j := j + 1;
        }
        assert names[..j] == names;
      }
    }

    /** The first loop of `trigger`: tests every trigger, in order, against `r`. */
    method EvaluateAll(r: Reading) returns (flags: seq<bool>, idx: seq<nat>)
      requires AllTimeReady(triggers, r)
      modifies this`failures
      ensures (flags, failures) == Evaluate(triggers, old(failures), lastSample, r)
      ensures idx == ActivatedIndices(flags)
    {
      flags, idx := [], [];
      var i := 0;
      while i < |triggers|
        invariant 0 <= i <= |triggers|
        invariant (flags, failures) == Evaluate(triggers[..i], old(failures), lastSample, r)
        invariant idx == ActivatedIndices(flags)
      {
        assert triggers[..i + 1][..i] == triggers[..i];
        var fired := SingleTriggerActivated(r, triggers[i]);
        flags := flags + [fired];
        if fired {
          idx := idx + [i];
        }
        i := i + 1;
      }
      assert triggers[..i] == triggers;
    }

    /**
     * The second half of `trigger`: builds the new sample, then, for each
     * fired trigger in order, caches its value and records it in the sample.
     */
    method EmitSample(r: Reading, flags: seq<bool>, idx: seq<nat>)
      requires |flags| == |triggers| && idx == ActivatedIndices(flags)
      modifies this`triggers, this`lastSample
      ensures triggers == WriteBack(old(triggers), flags, r)
      ensures lastSample == Emission(old(triggers), flags, r, old(lastSample))
    {
      lastSample := GenerateSample(r, lastSample);
      ghost var base := lastSample;
      var k := 0;
      while k < |idx|
        invariant 0 <= k <= |idx|
        invariant CachedExactly(triggers, old(triggers), idx[..k], r)
        invariant lastSample == Annotated(base, Activated(old(triggers), idx[..k]), r.sensors)
      {
        FreshIndex(idx, k);
        CacheStepAt(triggers, old(triggers), idx, k, r);
        RecordStepAt(old(triggers), idx, k, base, lastSample, r.sensors);
        var t := triggers[idx[k]];
        triggers := triggers[idx[k] := t.(value := CurrentValue(r, t.property))];
        RecordTrigger(t, r.sensors);
        k := k + 1;
      }
      assert idx[..k] == idx;
      CachedAll(triggers, old(triggers), flags, r);
    }

    /**
     * `trigger`: evaluates `r` against every trigger. With none fired, it
     * returns `None` and only the failure counters may have changed. Otherwise
     * the fired triggers cache their current value, the new sample replaces
     * the stored one, and it is returned.
     */
    method Trigger(r: Reading) returns (emitted: Option<Sample>)
      requires AllTimeReady(triggers, r)
      modifies this
      ensures (State(), emitted) == TriggerStep(old(State()), r)
    {
      var flags, idx := EvaluateAll(r);
      if idx == [] {
        return None;
      }
      EmitSample(r, flags, idx);
      emitted := Some(lastSample);
    }
  }
}
