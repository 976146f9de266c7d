/**
 * Building an emitted sample: the base structure of `generate_sample` with
 * its derived fields (`_get_delta`), then, per fired trigger, its id and the
 * sensor merge under the allow-list policy.
 */
module Samples {
  import opened Wrappers
  import opened EdapTypes

  /**
   * `_get_delta(sample, prop, calc_prop)`: a derived field the reading sets
   * itself passes through; otherwise it is the difference of the reading's and
   * the stored sample's underlying values, or `None` when either is missing.
   */
  function GetDelta(r: Reading, prop: string, current: Option<real>, previous: Option<real>): (d: Option<real>)
    ensures prop in r.fields ==> d == r.fields[prop]
    ensures prop !in r.fields ==> (d.Some? <==> current.Some? && previous.Some?)
    ensures prop !in r.fields && d.Some? ==> d.value == current.value - previous.value
  {
    if prop in r.fields || current.None? || previous.None? then Lookup(r.fields, prop)
    else Some(current.value - previous.value)
  }

  /**
   * `generate_sample`: the reading's time, power and energy, the derived
   * `sample_energy` and `duration` (seconds), and empty triggers and sensors.
   */
  function GenerateSample(r: Reading, last: Sample): (s: Sample)
    ensures s.triggers == [] && s.sensors == map[]
    ensures s.time == r.time && s.power == Lookup(r.fields, "power") && s.energy == Lookup(r.fields, "energy")
  {
    var energy := Lookup(r.fields, "energy");
    Sample(
      r.time,
      Lookup(r.fields, "power"),
      energy,
      GetDelta(r, "sample_energy", energy, last.energy),
      GetDelta(r, "duration", TimeValue(r.time), TimeValue(last.time)),
      map[],
      [])
  }

  /** The reading leaves `duration` and `sample_energy` to be computed. */
  predicate Underived(r: Reading) {
    "duration" !in r.fields && "sample_energy" !in r.fields
  }

  /** Two readings at the same time give a zero duration; 120 s later gives 120. */
  lemma DurationIsElapsedTime(r: Reading, last: Sample)
    requires Underived(r) && r.time.Some? && last.time.Some?
    ensures GenerateSample(r, last).duration == Some((r.time.value - last.time.value) as real)
    ensures r.time == last.time ==> GenerateSample(r, last).duration == Some(0.0)
  {
  }

  /** The samples emitted for a run of readings, each built against the one before. */
  function Chain(last: Sample, rs: seq<Reading>): (ss: seq<Sample>)
    ensures |ss| == |rs|
    decreases |rs|
  {
    if rs == [] then [] else
      var s := GenerateSample(rs[0], last);
      [s] + Chain(s, rs[1..])
  }

  function SumOf(xs: seq<Option<real>>): real
    decreases |xs|
  {
    if xs == [] then 0.0 else (if xs[0].Some? then xs[0].value else 0.0) + SumOf(xs[1..])
  }

  function Durations(ss: seq<Sample>): seq<Option<real>> {
    seq(|ss|, i requires 0 <= i < |ss| => ss[i].duration)
  }

  function SampleEnergies(ss: seq<Sample>): seq<Option<real>> {
    seq(|ss|, i requires 0 <= i < |ss| => ss[i].sampleEnergy)
  }

  /**
   * Durations and sample energies telescope: over a run of timed readings with
   * energy, they add up to the total elapsed time and the total energy change.
   */
  lemma {:induction false} DerivedFieldsTelescope(last: Sample, rs: seq<Reading>)
    requires |rs| > 0 && last.time.Some? && last.energy.Some?
    requires forall i :: 0 <= i < |rs| ==> Underived(rs[i]) && rs[i].time.Some? && Lookup(rs[i].fields, "energy").Some?
    ensures SumOf(Durations(Chain(last, rs))) == (rs[|rs| - 1].time.value - last.time.value) as real
    ensures SumOf(SampleEnergies(Chain(last, rs))) == Lookup(rs[|rs| - 1].fields, "energy").value - last.energy.value
    decreases |rs|
  {
    var s := GenerateSample(rs[0], last);
    var ss := Chain(last, rs);
    assert ss == [s] + Chain(s, rs[1..]);
    assert Durations(ss)[1..] == Durations(Chain(s, rs[1..]));
    assert SampleEnergies(ss)[1..] == SampleEnergies(Chain(s, rs[1..]));
    if |rs| > 1 {
      DerivedFieldsTelescope(s, rs[1..]);
    } else {
      assert Chain(s, rs[1..]) == [];
    }
  }

  /** The value stored for every key of `small` is the one `big` has. */
  predicate SubMap(small: SensorMap, big: SensorMap) {
    forall k :: k in small ==> k in big && small[k] == big[k]
  }

  /** A sub-map as large as the whole map is the whole map. */
  lemma SubMapOfSameSize(small: SensorMap, big: SensorMap)
    requires SubMap(small, big) && |small| == |big|
    ensures small == big
  {
    var extra := big.Keys - small.Keys;
    assert big.Keys == small.Keys + extra;
    assert |big.Keys| == |small.Keys| + |extra|;
    assert extra == {};
  }

  /**
   * The allow-list loop of `trigger`: copy each listed sensor whose value in
   * the reading is not `None`; every other entry stays as it was.
   */
  function AllowListMerge(into: SensorMap, reading: SensorMap, names: seq<string>): (m: SensorMap)
    ensures forall k :: k in m <==> k in into || (k in names && Lookup(reading, k).Some?)
    ensures forall k :: k in m ==> m[k] == if k in names && Lookup(reading, k).Some? then reading[k] else into[k]
    decreases |names|
  {
    if names == [] then into
    else
      var m := AllowListMerge(into, reading, names[..|names| - 1]);
      var k := names[|names| - 1];
      assert forall x :: x in names <==> x in names[..|names| - 1] || x == k;
      if Lookup(reading, k).Some? then m[k := reading[k]] else m
  }

  /**
   * The sensor merge for one fired trigger: skipped once the sample holds as
   * many sensors as the reading, else the whole map or the allow-listed part.
   */
  function MergeSensors(into: SensorMap, reading: SensorMap, allow: Option<seq<string>>): SensorMap {
    if |into| == |reading| then into
    else if allow.None? then reading
    else AllowListMerge(into, reading, allow.value)
  }

  /** A merge only ever copies the reading's own entries. */
  lemma MergeKeepsSubMap(into: SensorMap, reading: SensorMap, allow: Option<seq<string>>)
    requires SubMap(into, reading)
    ensures SubMap(MergeSensors(into, reading, allow), reading)
  {
  }

  /** Record one fired trigger in the sample: append its id, merge its sensors. */
  function AnnotateOne(s: Sample, t: Trigger, reading: SensorMap): Sample {
    s.(triggers := s.triggers + [EmittedId(t)], sensors := MergeSensors(s.sensors, reading, t.sensors))
  }

  /** The sample after recording every fired trigger of `acts`, in order. */
  function Annotated(base: Sample, acts: seq<Trigger>, reading: SensorMap): Sample
    decreases |acts|
  {
    if acts == [] then base
    else AnnotateOne(Annotated(base, acts[..|acts| - 1], reading), acts[|acts| - 1], reading)
  }

  /** The ids of `acts`, one per trigger, in the same order. */
  function Ids(acts: seq<Trigger>): (ids: seq<string>)
    ensures |ids| == |acts| && forall k :: 0 <= k < |acts| ==> ids[k] == EmittedId(acts[k])
  {
    seq(|acts|, k requires 0 <= k < |acts| => EmittedId(acts[k]))
  }

  /** Recording appends exactly one id per fired trigger, in order. */
  lemma {:induction false} AnnotatedIds(base: Sample, acts: seq<Trigger>, reading: SensorMap)
    ensures Annotated(base, acts, reading).triggers == base.triggers + Ids(acts)
    decreases |acts|
  {
    if acts != [] {
      var front := acts[..|acts| - 1];
      AnnotatedIds(base, front, reading);
      assert Ids(acts) == Ids(front) + [EmittedId(acts[|acts| - 1])];
    }
  }

  /** Recording touches no field of the sample besides its ids and sensors. */
  lemma {:induction false} AnnotatedKeepsOtherFields(base: Sample, acts: seq<Trigger>, reading: SensorMap)
    ensures Annotated(base, acts, reading).(triggers := base.triggers, sensors := base.sensors) == base
    decreases |acts|
  {
    if acts != [] {
      AnnotatedKeepsOtherFields(base, acts[..|acts| - 1], reading);
    }
  }

  /** The emitted sensors are always a sub-map of the reading's sensors. */
  lemma {:induction false} AnnotatedSensorsSubMap(base: Sample, acts: seq<Trigger>, reading: SensorMap)
    requires SubMap(base.sensors, reading)
    ensures SubMap(Annotated(base, acts, reading).sensors, reading)
    decreases |acts|
  {
    if acts != [] {
      var front := acts[..|acts| - 1];
      AnnotatedSensorsSubMap(base, front, reading);
      MergeKeepsSubMap(Annotated(base, front, reading).sensors, reading, acts[|acts| - 1].sensors);
    }
  }

  /** Once any fired trigger has no allow-list, the emitted sensors are the reading's whole map. */
  lemma {:induction false} AnnotatedFullCopy(base: Sample, acts: seq<Trigger>, reading: SensorMap, j: nat)
    requires SubMap(base.sensors, reading)
    requires j < |acts| && acts[j].sensors.None?
    ensures Annotated(base, acts, reading).sensors == reading
    decreases |acts|
  {
    var front := acts[..|acts| - 1];
    var prev := Annotated(base, front, reading).sensors;
    AnnotatedSensorsSubMap(base, front, reading);
    if j < |acts| - 1 {
      AnnotatedFullCopy(base, front, reading, j);
    } else if |prev| == |reading| {
      SubMapOfSameSize(prev, reading);
    }
  }

  /** Some fired trigger lists `name` in its allow-list. */
  predicate Listed(acts: seq<Trigger>, name: string) {
    exists k :: 0 <= k < |acts| && acts[k].sensors.Some? && name in acts[k].sensors.value
  }

  /**
   * When every fired trigger has an allow-list, the emitted sensors are exactly
   * the listed names whose reading value is not `None`, with the reading's value.
   */
  lemma {:induction false} AnnotatedAllowListOnly(base: Sample, acts: seq<Trigger>, reading: SensorMap)
    requires base.sensors == map[]
    requires forall k :: 0 <= k < |acts| ==> acts[k].sensors.Some?
    ensures forall name :: name in Annotated(base, acts, reading).sensors ==>
              Listed(acts, name) && Lookup(reading, name).Some?
    ensures forall name :: Listed(acts, name) && Lookup(reading, name).Some? ==>
              name in Annotated(base, acts, reading).sensors && Annotated(base, acts, reading).sensors[name] == reading[name]
    decreases |acts|
  {
    if acts != [] {
      var front := acts[..|acts| - 1];
      AnnotatedAllowListOnly(base, front, reading);
      forall name | name in Annotated(base, acts, reading).sensors
        ensures Listed(acts, name) && Lookup(reading, name).Some?
      {
        if name in Annotated(base, front, reading).sensors {
          var k :| 0 <= k < |front| && front[k].sensors.Some? && name in front[k].sensors.value;
          assert acts[k] == front[k];
        } else {
          assert acts[|acts| - 1].sensors.Some?;
        }
      }
      AllowListedEmitted(base, acts, reading);
    }
  }

  /** The converse step of `AnnotatedAllowListOnly`: a listed, present sensor is emitted. */
  lemma AllowListedEmitted(base: Sample, acts: seq<Trigger>, reading: SensorMap)
    requires base.sensors == map[] && acts != []
    requires forall k :: 0 <= k < |acts| ==> acts[k].sensors.Some?
    requires forall name :: Listed(acts[..|acts| - 1], name) && Lookup(reading, name).Some? ==>
               name in Annotated(base, acts[..|acts| - 1], reading).sensors &&
               Annotated(base, acts[..|acts| - 1], reading).sensors[name] == reading[name]
    ensures forall name :: Listed(acts, name) && Lookup(reading, name).Some? ==>
              name in Annotated(base, acts, reading).sensors && Annotated(base, acts, reading).sensors[name] == reading[name]
  {
    var front := acts[..|acts| - 1];
    var last := acts[|acts| - 1];
    var prev := Annotated(base, front, reading).sensors;
    var next := Annotated(base, acts, reading).sensors;
    assert next == MergeSensors(prev, reading, last.sensors);
    AnnotatedSensorsSubMap(base, front, reading);
    if |prev| == |reading| {
      SubMapOfSameSize(prev, reading);
    }
    forall name | Listed(acts, name) && Lookup(reading, name).Some?
      ensures name in next && next[name] == reading[name]
    {
      var k :| 0 <= k < |acts| && acts[k].sensors.Some? && name in acts[k].sensors.value;
      if k < |acts| - 1 {
        assert front[k] == acts[k];
        assert Listed(front, name);
      }
    }
  }
}
