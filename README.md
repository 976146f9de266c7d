# EDAP trigger engine and network-scan reader, modelled in Dafny

EDAP (Energy Device Access Protocol) devices report readings such as power,
energy and sensor values. They emit an EDAP sample only when one of their
triggers fires. The engine is `EdapDevice` in `edap/edap.py`.

It holds:
- a list of triggers, each caching the value it last fired on;
- per-property counters of consecutive missing readings;
- the last emitted sample.

A trigger fires on a reading for any of four reasons:
- its property moved more than `delta` away from the cached value;
- the value crossed one of its `levels` since the last emitted sample;
- the value went missing exactly `tolerance` times in a row, or came back after such a streak;
- for a `"time"` trigger, `delta` seconds passed since it last fired.

When a trigger fires, `trigger` builds a new sample with `generate_sample`. It then:
- appends each fired trigger's id, with a leading `#` when the trigger asks for the sample to be discarded;
- copies sensor values into the sample, all of them or only the trigger's allow-list;
- makes each fired trigger cache its new value.

The gateway example also reads `arp-scan` output (`network_scan.py`). It keeps
the lines whose first word is a dotted-quad IPv4 address and turns each one into an
`{ip, mac, company}` entry.

The Dafny modules follow the source:

- `Wrappers`: `Option` and `Result`.
- `EdapTypes`: triggers, readings, samples and failure counters. It also holds
  Python's `a or b` lookups on optional numbers.
- `Predicates`: the four activation tests and `_single_trigger_activated` as
  pure functions, with lemmas about tolerance streaks and thresholds.
- `Samples`: `_get_delta`, `generate_sample` and the per-trigger recording
  step of `trigger` (id and sensor merge), with lemmas about what ends up in an
  emitted sample.
- `Edap`: the class `EdapDevice`, which has fields for the trigger list, the
  counters and the last sample. Its methods `SingleTriggerActivated`, `Trigger`,
  `SetTriggers` and others update those fields in place. Each method is proved
  against pure specification functions (`Single`, `Evaluate`, `TriggerStep`), and
  those functions' properties are proved as lemmas.
- `Scenarios`: the situations of `tests/test_edap.py` followed through the
  engine's specification.
- `NetworkScan`: `str.split`, `str.join`, `is_ip_address`, whitespace
  tokenising and the `read_network_scan` loop.

Where the tests and the code disagree, the model follows the code.
`tests/test_edap.py:74` expects `"power_id"` as the first id of the first
sample in the time test. But `trigger` tests triggers in registration order, and
the time trigger is registered first and fires as well (it has no cached time). So
the sample lists `["time_id", "power_id"]`, which `Scenarios.TimeTriggerFirstReading`
proves.

The test helper `MockEdapDevice` (`tests/utils.py`) overrides
`generate_sample`. The scenario lemmas use the base `generate_sample`, and state
only ids, trigger caches and whether a sample is emitted. None of these depend
on that override.

## Model

| member | source | states |
|---|---|---|
| EdapTypes.EmittedId | edap/edap.py:133-135 | the emitted id is the trigger's id, or `unset_<property>` without one, and with `discard_sample` set it is `#` followed by that id; without it the id is emitted unchanged |
| EdapTypes.ZeroFallsThroughToSensors | edap/edap.py:96 | a top-level value of 0 is falsy, so the sensor map's value for the property is used (and none if it has no such sensor) |
| Predicates.DeltaTriggered | edap/edap.py:59-65 | never fires without a `delta` key; with `delta` None or 0 fires iff the value differs from the cache; otherwise fires iff the distance from the cache (0 when unset) exceeds `delta` |
| Predicates.CrossesAny | edap/edap.py:73-76 | the early-return loop finds a crossing iff some level lies strictly between the last value and the new one |
| Predicates.LevelTriggered | edap/edap.py:67-76 | fires iff the trigger has a non-empty property and some level lies strictly between the last emitted sample's value (0 when absent) and the new value |
| Predicates.LevelNeedsStrictCrossing | edap/edap.py:74 | a level trigger never fires when the value did not move, and the crossed level differs from both endpoints |
| Predicates.Trunc | edap/edap.py:89 | `int()` on a number truncates toward zero |
| Predicates.TimeTriggered | edap/edap.py:85-90 | a time trigger with no cached time fires; otherwise it fires iff at least `int(delta)` seconds elapsed since the cached time |
| Predicates.Single | edap/edap.py:92-106 | a time trigger leaves the counters alone; any other trigger resets its property's counter to 0 when the value is present and increments it when missing; no other counter changes |
| Predicates.MissingFiresAtTolerance | edap/edap.py:78-83 | on a missing value a trigger fires iff its tolerance equals the incremented counter |
| Predicates.PresentAfterStreakFires | edap/edap.py:97-101 | a present value after at least `tolerance` misses fires, and the counter is reset to 0 |
| Predicates.MissingIgnoresCacheAndLast | edap/edap.py:102-105 | on a missing value the outcome depends neither on the trigger's cached value nor on the last sample |
| Predicates.NoToleranceIgnoresCounters | edap/edap.py:78-83 | without `tolerance`, whether a trigger fires does not depend on the failure counters |
| Predicates.DeltaThreshold | edap/edap.py:59-65 | a plain delta trigger with positive threshold d and cache v fires on x iff the absolute value of x - v exceeds d |
| Predicates.MissingStreakFiresOnce | edap/edap.py:102-105 | over n consecutive misses from a zero counter the counter reaches n and the j-th miss fires iff j equals `tolerance`: at most one firing per streak |
| Samples.GetDelta | edap/edap.py:154-159 | a derived field the reading sets passes through; otherwise it is present iff both underlying values are, and is then their difference |
| Samples.GenerateSample | edap/edap.py:161-176 | the new sample copies time, power and energy from the reading and has empty triggers and sensors |
| Samples.DurationIsElapsedTime | edap/edap.py:157-158 | without a reading-supplied `duration`, the duration is the seconds elapsed since the last sample (0 for equal times) |
| Samples.DerivedFieldsTelescope | edap/edap.py:154-176 | over a run of samples each built against the previous one, the durations add up to the total elapsed time and the sample energies to the total energy change |
| Samples.AllowListMerge | edap/edap.py:146-150 | the allow-list loop adds exactly the listed sensors whose reading value is not None, and leaves every other entry as it was |
| Samples.MergeKeepsSubMap | edap/edap.py:140-150 | one trigger's sensor merge only copies entries from the reading |
| Samples.AnnotatedIds | edap/edap.py:126-138 | recording the fired triggers appends one id per trigger, in order |
| Samples.AnnotatedKeepsOtherFields | edap/edap.py:126-150 | recording the fired triggers changes no field of the sample besides its ids and sensors |
| Samples.AnnotatedSensorsSubMap | edap/edap.py:140-150 | the emitted sensors are always a sub-map of the reading's sensors |
| Samples.AnnotatedFullCopy | edap/edap.py:140-145 | once any fired trigger has no allow-list, the emitted sensors are the reading's whole sensor map |
| Samples.AnnotatedAllowListOnly | edap/edap.py:146-150 | when every fired trigger has an allow-list, a sensor is emitted exactly when some fired trigger lists it and its reading value is not None, and it is emitted with the reading's value |
| Edap.Evaluate | edap/edap.py:114-118 | the first loop of `trigger` yields one activation flag per trigger |
| Edap.EvaluateFlags | edap/edap.py:114-118 | flag `i` is `_single_trigger_activated` of trigger `i` against the counters left by the triggers before it, in registration order |
| Edap.ActivatedIndices | edap/edap.py:114-118 | the fired triggers are collected exactly (every flagged position, nothing else), in strictly increasing registration order |
| Edap.EvaluateFailures | edap/edap.py:99-103 | after one reading a property's counter is unchanged if no non-time trigger watches it, 0 if its value is present, and otherwise grows by the number of triggers watching it |
| Edap.EmissionIds | edap/edap.py:126-138 | the emitted sample holds exactly one id per fired trigger, in registration order |
| Edap.EmissionFields | edap/edap.py:123-152 | the emitted sensors are a sub-map of the reading's sensors, and every other field is the one `generate_sample` computed |
| Edap.TriggerStepQuiet | edap/edap.py:114-121 | `trigger` returns None iff no trigger fires, and then changes only the failure counters |
| Edap.TriggerStepEmits | edap/edap.py:123-152 | when a sample is emitted it becomes the stored sample, its ids are the fired triggers' ids in order, and exactly the fired triggers cache the reading's value |
| Edap.EdapDevice.constructor | edap/edap.py:30-41 | the device keeps the given triggers (none when absent), has no counters, and its stored sample has zero power, energy, duration and sample energy at the construction time |
| Edap.EdapDevice.GetTriggers | edap/edap.py:43-44 | returns the current trigger list |
| Edap.EdapDevice.SetTriggers | edap/edap.py:46-57 | a non-empty list is stored as given; None or an empty list installs the single hourly `unset_time` trigger; the list is never left empty |
| Edap.EdapDevice.SingleTriggerActivated | edap/edap.py:92-106 | the in-place method returns `Single`'s verdict and leaves the counters `Single` computes |
| Edap.EdapDevice.RecordTrigger | edap/edap.py:133-150 | the stored sample gains the trigger's id, and its sensors are merged by the skip / full copy / allow-list rule |
| Edap.EdapDevice.EvaluateAll | edap/edap.py:114-121 | the first loop computes `Evaluate`'s flags and counters and the fired positions in order |
| Edap.EdapDevice.EmitSample | edap/edap.py:123-152 | the second loop leaves exactly the fired triggers with their new cached values and the stored sample equal to the emission |
| Edap.EdapDevice.Trigger | edap/edap.py:112-152 | the new object state and the return value are those of `TriggerStep`, whose effects `TriggerStepQuiet` and `TriggerStepEmits` state |
| Scenarios.GetSetTriggersScenario | tests/test_edap.py:5-9 | a new device has no triggers; `set_triggers(None)` leaves exactly one |
| Scenarios.SingleTriggerScenario | tests/test_edap.py:11-32 | a change within the delta emits nothing and keeps the cache at 20; a change of 3 fires `power_id` and caches 23 |
| Scenarios.MultipleTriggersScenario | tests/test_edap.py:34-53 | two triggers firing on one reading (one on a top-level field, one on a sensor) are reported as `["power_1", "temperature_1"]` |
| Scenarios.TimeTriggerFirstReading | tests/test_edap.py:55-74 | the first reading fires the uncached time trigger and the power trigger, reported in registration order, and both cache their values |
| Scenarios.TimeTriggerTwoMinutesLater | tests/test_edap.py:77-81 | 120 s after the cached time, with delta 60, the time trigger fires again and is reported first |
| Scenarios.ToleranceFirstMiss | tests/test_edap.py:83-97 | with tolerance 2 the first missing reading emits nothing and counts one failure for `power` |
| Scenarios.ToleranceSecondMissFires | tests/test_edap.py:99-101 | the second missing reading reaches the tolerance, fires `power_id` and caches None |
| Scenarios.ToleranceFiresWhenValueReturns | tests/test_edap.py:103-109 | a third miss emits nothing; the returning value fires |
| NetworkScan.Split | examples/basic-edap-gateway/src/network_scan.py:7 | `split` yields at least one piece and no piece contains the separator |
| NetworkScan.JoinSplit | examples/basic-edap-gateway/src/network_scan.py:7 | joining the pieces of a split rebuilds the string |
| NetworkScan.SplitJoin | examples/basic-edap-gateway/src/network_scan.py:7 | splitting a join of separator-free pieces returns the pieces |
| NetworkScan.AllOctets | examples/basic-edap-gateway/src/network_scan.py:10-15 | the early-return loop succeeds iff every piece is a digit string of value at most 255 |
| NetworkScan.IsIpAddress | examples/basic-edap-gateway/src/network_scan.py:5-15 | accepted iff the string splits on `.` into exactly four pieces, each a non-empty digit string of value at most 255 |
| NetworkScan.IpAddressIsFourOctets | examples/basic-edap-gateway/src/network_scan.py:5-15 | every accepted string is four octets joined by dots |
| NetworkScan.DottedQuadAccepted | examples/basic-edap-gateway/src/network_scan.py:5-15 | the dotted decimal text of any four numbers up to 255 is accepted |
| NetworkScan.LeadingZerosIgnored | examples/basic-edap-gateway/src/network_scan.py:11-13 | leading zeros do not change a piece's value, so zero-padded octets are accepted |
| NetworkScan.Tokens | examples/basic-edap-gateway/src/network_scan.py:28 | `split()` yields only non-empty tokens without whitespace |
| NetworkScan.TokensAfterWord | examples/basic-edap-gateway/src/network_scan.py:28 | a word followed by whitespace is the first token and the rest is tokenised on its own |
| NetworkScan.TokensJoin | examples/basic-edap-gateway/src/network_scan.py:28 | words joined by a whitespace character tokenise back to the same words |
| NetworkScan.TrailingSpaceIgnored | examples/basic-edap-gateway/src/network_scan.py:22-28 | the line terminator kept by `readlines` adds no token |
| NetworkScan.ParseLine | examples/basic-edap-gateway/src/network_scan.py:28-36 | an entry's ip is always a valid address |
| NetworkScan.ParseLineCases | examples/basic-edap-gateway/src/network_scan.py:28-36 | a line gives an entry iff it has at least two tokens and the first is an address, and fails iff it holds an address and nothing else; the entry is the first two tokens and the rest joined by spaces |
| NetworkScan.ScanLineTokens | examples/basic-edap-gateway/src/network_scan.py:28 | a tab-separated scan line tokenises into address, MAC and the vendor's words |
| NetworkScan.ParseScanLine | examples/basic-edap-gateway/src/network_scan.py:28-36 | a tab-separated arp-scan line parses back to its entry, with the vendor's words joined by single spaces |
| NetworkScan.Kept | examples/basic-edap-gateway/src/network_scan.py:26-38 | at most one entry per line |
| NetworkScan.KeptAddressesValid | examples/basic-edap-gateway/src/network_scan.py:29-33 | every returned entry carries a valid address |
| NetworkScan.KeptComesFromLines | examples/basic-edap-gateway/src/network_scan.py:26-38 | every returned entry is the parse of some line of the file |
| NetworkScan.KeptAppend | examples/basic-edap-gateway/src/network_scan.py:26-38 | scanning two chunks of a file in turn gives the first chunk's entries followed by the second's |
| NetworkScan.ParseScan | examples/basic-edap-gateway/src/network_scan.py:26-38 | the loop fails at the first line holding an address and nothing else; without such a line it returns the entries of all address lines in order |
| NetworkScan.ReadNetworkScan | examples/basic-edap-gateway/src/network_scan.py:17-38 | an unreadable file gives an empty list; otherwise the result is that of the loop over the file's lines |

## Left out

- The clock. `__init__` reads `datetime.now`; the constructor takes the time as the parameter `now`.
- Datetimes are whole seconds, so sub-second times are not modelled.
- Values are exact reals, not floats, so float rounding is not modelled. `_round` (edap/edap.py:108-110) is not called by the core and is not modelled.
- Aliasing is not modelled. `__init__` and `set_triggers` keep the caller's list object, `set_triggers` appends the default trigger to that object, and `trigger` updates the caller's trigger dictionaries in place. The model stores triggers as values; the returned sample is a deep copy in the source, so the model loses nothing there.
- Values that are not numbers are not modelled. This covers triggers on the keys `sensors` or `triggers` (whose values are a dict and a list) and non-numeric `delta`, `levels` or `value` entries.
- Edap.EdapDevice.Trigger: requires that no time trigger raises where the model can see it. Two cases raise TypeError in the source: a time trigger with a cached time but no number as `delta`, and a reading without a time while the time trigger has a cached time. Both are excluded by the `AllTimeReady` precondition instead of being modelled as an exception. A third case is not excluded: a time trigger without a cache fires on a reading without a top-level time and caches the reading's sensor named `time`, a number rather than a datetime; the source then raises TypeError at edap/edap.py:88 on that trigger's next evaluation, whereas the model, which stores both as seconds, treats the number as a timestamp and carries on. `Predicates.Single` and `Edap.EdapDevice.SingleTriggerActivated` carry the same precondition, `TimeReady`.
- A trigger whose `id` key is present with value None gives the id None in the source. The model treats it like a missing id (`unset_<property>`).
- `discard_sample` is a boolean; other truthy values are not modelled.
- `generate_sample` is modelled as the base class writes it. Overrides in subclasses (`tests/utils.py`, the gateway's devices) are not part of this model. So the last sample only ever holds the base fields that `_level_triggered` can read.
- NetworkScan.IsDigits: only ASCII `0`-`9`. `str.isdigit` also accepts other Unicode digits, some of which `int` then rejects with ValueError.
- Reading `network_scan.txt` is not modelled: `read_network_scan` receives the file's lines, or `None` when the file cannot be read. The `IndexError` raised for a line holding only an address becomes a `Failure` carrying that line's index.
- `NetworkScan.IsSpace` uses the whitespace set of Python's `str.isspace`. Unicode character data beyond that list is not modelled.
