/**
 * The situations of tests/test_edap.py. `GetSetTriggersScenario` drives an
 * `EdapDevice` object through its method contracts; the others follow the
 * readings through the step function `TriggerStep` that `Trigger` is proved
 * to implement.
 */
module Scenarios {
  import opened Wrappers
  import opened EdapTypes
  import opened Predicates
  import opened Samples
  import opened Edap

  /** A trigger that watches `property` with a delta threshold and an initial cached value. */
  function DeltaTrigger(id: string, property: string, delta: real, value: Option<real>): Trigger {
    Trigger(Some(id), Some(property), None, Delta(delta), [], None, value, false)
  }

  /** A reading holding only top-level fields. */
  function FieldsReading(time: Option<int>, fields: map<string, Option<real>>): Reading {
    Reading(time, fields, map[])
  }

  /** Evaluating a one-trigger list is one `Single` step. */
  lemma EvaluateOne(t: Trigger, f: Failures, last: Sample, r: Reading)
    requires TimeReady(t, r)
    ensures Evaluate([t], f, last, r) == ([Single(t, f, last, r).0], Single(t, f, last, r).1)
  {
    assert [t][..0] == [];
    assert Evaluate([], f, last, r) == ([], f);
    var b := Single(t, f, last, r).0;
    assert [] + [b] == [b];
  }

  /** Evaluating a two-trigger list threads the counters from the first step into the second. */
  lemma EvaluateTwo(t: Trigger, u: Trigger, f: Failures, last: Sample, r: Reading)
    requires TimeReady(t, r) && TimeReady(u, r)
    ensures var (b, f1) := Single(t, f, last, r);
            Evaluate([t, u], f, last, r) == ([b, Single(u, f1, last, r).0], Single(u, f1, last, r).1)
  {
    assert [t, u][..1] == [t];
    EvaluateOne(t, f, last, r);
    var (b, f1) := Single(t, f, last, r);
    assert [b] + [Single(u, f1, last, r).0] == [b, Single(u, f1, last, r).0];
  }

  /** A lone fired trigger contributes its id and caches its value. */
  lemma EmitOne(t: Trigger, r: Reading, last: Sample)
    ensures Emission([t], [true], r, last).triggers == [EmittedId(t)]
    ensures WriteBack([t], [true], r) == [t.(value := CurrentValue(r, t.property))]
  {
    assert [true][..0] == [];
    assert ActivatedIndices([true]) == [0];
    assert Activated([t], [0]) == [t];
    AnnotatedIds(GenerateSample(r, last), [t], r.sensors);
    assert Ids([t]) == [EmittedId(t)];
  }

  /** Two fired triggers contribute their ids in list order and both cache their values. */
  lemma EmitTwo(t: Trigger, u: Trigger, r: Reading, last: Sample)
    ensures Emission([t, u], [true, true], r, last).triggers == [EmittedId(t), EmittedId(u)]
    ensures WriteBack([t, u], [true, true], r) ==
            [t.(value := CurrentValue(r, t.property)), u.(value := CurrentValue(r, u.property))]
  {
    assert [true, true][..1] == [true] && [true][..0] == [];
    assert ActivatedIndices([true, true]) == [0, 1];
    assert Activated([t, u], [0, 1]) == [t, u];
    AnnotatedIds(GenerateSample(r, last), [t, u], r.sensors);
    assert Ids([t, u]) == [EmittedId(t), EmittedId(u)];
  }

  /**
   * One call of `trigger` on a single-trigger engine: it emits iff `Single`
   * says the trigger fires, and then reports that trigger's id and caches its value.
   */
  lemma OneTriggerStep(s: EngineState, r: Reading)
    requires |s.triggers| == 1 && TimeReady(s.triggers[0], r)
    ensures var t := s.triggers[0];
            var (fired, f') := Single(t, s.failures, s.lastSample, r);
            var (s', out) := TriggerStep(s, r);
            && s'.failures == f'
            && (out.Some? <==> fired)
            && (!fired ==> s'.triggers == [t] && s'.lastSample == s.lastSample)
            && (fired ==> out.value.triggers == [EmittedId(t)] && s'.triggers == [t.(value := CurrentValue(r, t.property))])
  {
    var t := s.triggers[0];
    assert s.triggers == [t];
    EvaluateOne(t, s.failures, s.lastSample, r);
    var fired := Single(t, s.failures, s.lastSample, r).0;
    assert [fired][..0] == [];
    if fired {
      EmitOne(t, r, s.lastSample);
    }
  }

  /** One call of `trigger` on a two-trigger engine where both fire. */
  lemma BothFireStep(s: EngineState, r: Reading)
    requires |s.triggers| == 2 && TimeReady(s.triggers[0], r) && TimeReady(s.triggers[1], r)
    requires var (b, f1) := Single(s.triggers[0], s.failures, s.lastSample, r);
             b && Single(s.triggers[1], f1, s.lastSample, r).0
    ensures var t, u := s.triggers[0], s.triggers[1];
            var (s', out) := TriggerStep(s, r);
            && out.Some? && out.value.triggers == [EmittedId(t), EmittedId(u)]
            && s'.triggers == [t.(value := CurrentValue(r, t.property)), u.(value := CurrentValue(r, u.property))]
  {
    var t, u := s.triggers[0], s.triggers[1];
    assert s.triggers == [t, u];
    EvaluateTwo(t, u, s.failures, s.lastSample, r);
    EmitTwo(t, u, r, s.lastSample);
    assert [true, true][0];
  }

  /** Construction installs no default trigger; `set_triggers(None)` installs one. */
  method GetSetTriggersScenario(now: int) returns (initial: nat, afterNone: nat)
    ensures initial == 0 && afterNone == 1
  {
    var device := new EdapDevice(None, now);
    var ts := device.GetTriggers();
    initial := |ts|;
    device.SetTriggers(None);
    ts := device.GetTriggers();
    afterNone := |ts|;
  }

  /** A freshly set-up engine: triggers given, no counters, the initial stored sample. */
  function Start(ts: seq<Trigger>, now: int): EngineState {
    EngineState(ts, map[], EdapDevice.InitialSample(now))
  }

  /** A change within the delta emits nothing and keeps the cache; a larger one fires and caches. */
  lemma SingleTriggerScenario(now: int)
    ensures var t := DeltaTrigger("power_id", "power", 2.0, Some(20.0));
            var (s1, o1) := TriggerStep(Start([t], now), FieldsReading(None, map["power" := Some(21.0)]));
            && o1.None? && s1.triggers == [t]
            && var (s2, o2) := TriggerStep(s1, FieldsReading(None, map["power" := Some(23.0)]));
            && o2.Some? && o2.value.triggers == ["power_id"]
            && s2.triggers == [t.(value := Some(23.0))]
  {
    var t := DeltaTrigger("power_id", "power", 2.0, Some(20.0));
    var s0 := Start([t], now);
    var r1 := FieldsReading(None, map["power" := Some(21.0)]);
    assert CurrentValue(r1, t.property) == Some(21.0);
    OneTriggerStep(s0, r1);
    var (s1, o1) := TriggerStep(s0, r1);

    var r2 := FieldsReading(None, map["power" := Some(23.0)]);
    assert CurrentValue(r2, t.property) == Some(23.0);
    OneTriggerStep(s1, r2);
  }

  /** Two triggers that both fire report their ids in registration order. */
  lemma MultipleTriggersScenario(now: int)
    ensures var power := DeltaTrigger("power_1", "power", 2.0, Some(25.0));
            var temp := DeltaTrigger("temperature_1", "temp", 0.5, Some(20.0));
            var r := Reading(None, map["power" := Some(22.0)], map["temp" := Some(21.0)]);
            var (s1, o1) := TriggerStep(Start([power, temp], now), r);
            o1.Some? && o1.value.triggers == ["power_1", "temperature_1"]
  {
    var power := DeltaTrigger("power_1", "power", 2.0, Some(25.0));
    var temp := DeltaTrigger("temperature_1", "temp", 0.5, Some(20.0));
    var r := Reading(None, map["power" := Some(22.0)], map["temp" := Some(21.0)]);
    assert CurrentValue(r, power.property) == Some(22.0);
    assert CurrentValue(r, temp.property) == Some(21.0);
    BothFireStep(Start([power, temp], now), r);
  }

  /** The time trigger of the time scenario, fired every 60 s. */
  function TimeTrigger(value: Option<real>): Trigger {
    Trigger(Some("time_id"), Some(TimeProperty), None, Delta(60.0), [], None, value, false)
  }

  /**
   * A time trigger with no cached time fires on the first reading, ahead of
   * the power trigger registered after it, and both cache their values.
   * (tests/test_edap.py:74 expects "power_id" first; the code puts "time_id" first.)
   */
  lemma TimeTriggerFirstReading(now: int)
    ensures var power := DeltaTrigger("power_id", "power", 2.0, Some(20.0));
            var (s1, o1) := TriggerStep(Start([TimeTrigger(None), power], now), FieldsReading(Some(now - 120), map["power" := Some(23.0)]));
            && o1.Some? && o1.value.triggers == ["time_id", "power_id"]
            && s1.triggers == [TimeTrigger(Some((now - 120) as real)), power.(value := Some(23.0))]
  {
    var power := DeltaTrigger("power_id", "power", 2.0, Some(20.0));
    var r1 := FieldsReading(Some(now - 120), map["power" := Some(23.0)]);
    assert CurrentValue(r1, power.property) == Some(23.0);
    assert CurrentValue(r1, TimeTrigger(None).property) == Some((now - 120) as real);
    BothFireStep(Start([TimeTrigger(None), power], now), r1);
  }

  /** Two minutes after the time trigger cached its time, both triggers fire again. */
  lemma TimeTriggerTwoMinutesLater(now: int, s1: EngineState)
    requires s1.triggers == [TimeTrigger(Some((now - 120) as real)), DeltaTrigger("power_id", "power", 2.0, Some(23.0))]
    ensures var r2 := FieldsReading(Some(now), map["power" := Some(20.0)]);
            && AllTimeReady(s1.triggers, r2)
            && var (s2, o2) := TriggerStep(s1, r2);
            o2.Some? && o2.value.triggers == ["time_id", "power_id"]
  {
    var r2 := FieldsReading(Some(now), map["power" := Some(20.0)]);
    assert CurrentValue(r2, s1.triggers[1].property) == Some(20.0);
    BothFireStep(s1, r2);
  }

  /** The power trigger of the tolerance scenario: delta 2, tolerance 2. */
  function ToleranceTrigger(value: Option<real>): Trigger {
    Trigger(Some("power_id"), Some("power"), None, Delta(2.0), [], Some(2), value, false)
  }

  const Missing: Reading := FieldsReading(None, map["power" := None])

  /** With tolerance 2, the first missing reading emits nothing and counts one failure. */
  lemma ToleranceFirstMiss(now: int)
    ensures var (s1, o1) := TriggerStep(Start([ToleranceTrigger(Some(20.0))], now), Missing);
            && o1.None?
            && s1.triggers == [ToleranceTrigger(Some(20.0))] && s1.failures == map[Some("power") := 1]
  {
    var t := ToleranceTrigger(Some(20.0));
    var s0 := Start([t], now);
    assert CurrentValue(Missing, t.property).None?;
    MissingFiresAtTolerance(t, s0.failures, s0.lastSample, Missing);
    OneTriggerStep(s0, Missing);
  }

  /** The second missing reading reaches the tolerance and fires, caching `None`. */
  lemma ToleranceSecondMissFires(s1: EngineState)
    requires s1.triggers == [ToleranceTrigger(Some(20.0))] && s1.failures == map[Some("power") := 1]
    ensures var (s2, o2) := TriggerStep(s1, Missing);
            && o2.Some? && o2.value.triggers == ["power_id"]
            && s2.triggers == [ToleranceTrigger(None)] && s2.failures == map[Some("power") := 2]
  {
    var t := ToleranceTrigger(Some(20.0));
    assert CurrentValue(Missing, t.property).None?;
    MissingFiresAtTolerance(t, s1.failures, s1.lastSample, Missing);
    OneTriggerStep(s1, Missing);
  }

  /**
   * After the streak has fired, a third missing reading emits nothing; the
   * next present value fires again, whatever the delta says.
   */
  lemma ToleranceFiresWhenValueReturns(s2: EngineState)
    requires s2.triggers == [ToleranceTrigger(None)] && s2.failures == map[Some("power") := 2]
    ensures var (s3, o3) := TriggerStep(s2, Missing);
            && o3.None?
            && var (s4, o4) := TriggerStep(s3, FieldsReading(None, map["power" := Some(21.0)]));
            o4.Some? && o4.value.triggers == ["power_id"]
  {
    var t := ToleranceTrigger(None);
    var present := FieldsReading(None, map["power" := Some(21.0)]);
    assert CurrentValue(Missing, t.property).None?;
    assert CurrentValue(present, t.property) == Some(21.0);
    MissingFiresAtTolerance(t, s2.failures, s2.lastSample, Missing);
    OneTriggerStep(s2, Missing);
    var (s3, o3) := TriggerStep(s2, Missing);
    assert s3.triggers == [t] && s3.failures == map[Some("power") := 3];

    PresentAfterStreakFires(t, s3.failures, s3.lastSample, present);
    OneTriggerStep(s3, present);
  }
}
