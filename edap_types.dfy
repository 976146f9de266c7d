/**
 * The records the EDAP engine works on: trigger configurations, raw readings
 * and emitted samples, with the Python-style lookups (`a or b`) the engine
 * uses to read a property's value out of them.
 */
module EdapTypes {
  import opened Wrappers

  /** The `delta` entry of a trigger: key absent, key present with `None`, or a number. */
  datatype DeltaSetting = NoDelta | NullDelta | Delta(threshold: real)

  /**
   * One trigger configuration. `value` is the cache the engine overwrites each
   * time this trigger fires: the last value of its property, or the last
   * firing time for a `"time"` trigger. `levels` stands for `levels or []`.
   */
  datatype Trigger = Trigger(
    id: Option<string>,
    property: Option<string>,
    sensors: Option<seq<string>>,
    delta: DeltaSetting,
    levels: seq<real>,
    tolerance: Option<int>,
    value: Option<real>,
    discardSample: bool)

  /** Sensor name to value; a `None` value is a key present with `None`. */
  type SensorMap = map<string, Option<real>>

  /**
   * A raw reading handed to the engine: its `time` (integer seconds), the
   * other top-level keys (`power`, `energy`, `duration`, `sample_energy`, ...)
   * and its sensor map (`sensors or {}`).
   */
  datatype Reading = Reading(time: Option<int>, fields: map<string, Option<real>>, sensors: SensorMap)

  /** An emitted EDAP sample, also the engine's stored last sample. */
  datatype Sample = Sample(
    time: Option<int>,
    power: Option<real>,
    energy: Option<real>,
    sampleEnergy: Option<real>,
    duration: Option<real>,
    sensors: SensorMap,
    triggers: seq<string>)

  /** Consecutive-missing-reading counters, keyed by property (the key may be `None`). */
  type Failures = map<Option<string>, int>

  const TimeProperty: string := "time"

  /** The trigger `set_triggers` installs when given no triggers. */
  const DefaultTimeTrigger: Trigger :=
    Trigger(Some("unset_time"), Some(TimeProperty), None, Delta(3600.0), [], None, None, false)

  /** Python truthiness of an optional number: `None` and `0` are false. */
  predicate Truthy(v: Option<real>) {
    v.Some? && v.value != 0.0
  }

  /** Python's `a or b` on optional numbers. */
  function OrElse(a: Option<real>, b: Option<real>): Option<real> {
    if Truthy(a) then a else b
  }

  /** Python's `d.get(k)`: an absent key and a `None` value both give `None`. */
  function Lookup<K>(m: map<K, Option<real>>, k: K): Option<real> {
    if k in m then m[k] else None
  }

  function TimeValue(t: Option<int>): Option<real> {
    if t.Some? then Some(t.value as real) else None
  }

  /**
   * The reading's value for a property: `sample.get(p) or sensors.get(p)`.
   * A timestamp is always truthy; a top-level `0` falls through to the sensors.
   */
  function CurrentValue(r: Reading, p: Option<string>): Option<real> {
    match p
    case None => None
    case Some(name) =>
      if name == TimeProperty && r.time.Some? then TimeValue(r.time)
      else OrElse(if name == TimeProperty then None else Lookup(r.fields, name), Lookup(r.sensors, name))
  }

  /** A top-level key of the stored sample, as `_last_sample.get(name)` reads it. */
  function SampleField(s: Sample, name: string): Option<real> {
    if name == "power" then s.power
    else if name == "energy" then s.energy
    else if name == "sample_energy" then s.sampleEnergy
    else if name == "duration" then s.duration
    else if name == TimeProperty then TimeValue(s.time)
    else None
  }

  /** The stored sample's value for a property: `last.get(p) or last.sensors.get(p) or 0`. */
  function LastValue(s: Sample, name: string): real {
    var v := OrElse(SampleField(s, name), Lookup(s.sensors, name));
    if v.Some? then v.value else 0.0
  }

  /** `str(property)` in the default id: `None` prints as "None". */
  function PropertyText(p: Option<string>): string {
    if p.Some? then p.value else "None"
  }

  /** `trigger.get('id', f'unset_{property}')`. */
  function BaseId(t: Trigger): string {
    if t.id.Some? then t.id.value else "unset_" + PropertyText(t.property)
  }

  /** The id a fired trigger contributes to the emitted sample. */
  function EmittedId(t: Trigger): (id: string)
    ensures t.discardSample ==> |id| == |BaseId(t)| + 1 && id[0] == '#' && id[1..] == BaseId(t)
    ensures !t.discardSample ==> id == BaseId(t)
    ensures t.id.None? ==> !t.discardSample ==> id[..6] == "unset_"
  {
    if t.discardSample then "#" + BaseId(t) else BaseId(t)
  }

  /** A top-level `0` is falsy, so it hides nothing: the sensor map decides. */
  lemma ZeroFallsThroughToSensors(r: Reading, name: string)
    requires name != TimeProperty && name in r.fields && r.fields[name] == Some(0.0)
    ensures CurrentValue(r, Some(name)) == Lookup(r.sensors, name)
    ensures name !in r.sensors ==> CurrentValue(r, Some(name)).None?
  {
  }
}
