# Scenario FMU, modelled in Dafny

This project models the scenario FMU, an FMI 2.0 Co-Simulation signal source. A
scenario text `"[t;v1;v2][t;v1;v2]..."` is set on value reference 0 before
initialisation. `fmi2ExitInitializationMode` parses it into one series per
column; column 0 is time itself. `fmi2GetReal` then answers each output at the
current time with `eval_value_at`, which scans forward from a per-series search
hint (`access_index`) and applies the series' interpolation policy (zero-order
hold, nearest neighbour, linear; cubic has no formula). Two Python helpers from
the generator are modelled too: the `name;interp;t,v;t,v` variable text format
and the SSP parameter-set builder.

Files and modules:

- `wrappers.dfy` (`Wrappers`): `Option`, `Result` and `Outcome`.
- `strings.dfy` (`Strings`): `trim`, `iequals`, `parse_double_opt` (a decimal
  `strtod`) and `split`. `split` is generalised to a delimiter sequence because
  the parser splits on `"]["`. Each has a pure specification function. `Trim`,
  `IEquals` and `SplitOn` are loop methods proved equal to it.
- `series.dfy` (`Series`): `SeriesData` as a value, the scenario parser
  (`ParseScenario`, a loop method proved equal to `ScenarioSpec`),
  `parse_interpolation` on an array of records, and `eval_value_at`
  (`EvalValueAt`, a loop method proved equal to the function `Eval`).
- `adapter.dfy` (`ScenarioFmu`): the `Model` record as a class with one method
  per FMI call. Value references are unsigned 32-bit numbers.
- `variable.dfy` (`ScenarioVariables`): `Variable.from_str` / `to_str` and the
  list helpers. Python's `float()` and f-string formatting are a pair of
  functions passed in as a parameter (`NumberCodec`).
- `parameters.dfy` (`SspParameters`): `ParameterSetBuilder` as a class whose
  parameter list is appended to in place.

Points where the model follows the code rather than the FMU's header and tests:

- Outputs start at value reference 1, and vr 1 is not an interpolation setting.
  The adapter never calls `parse_interpolation`.
- The interpolation tokens are case-sensitive. Linear is the default.
- Nothing is carried forward, there is no column cap and there is no binary search.
- The scan in `eval_value_at` starts one past the hint. When the times ascend,
  a fresh series queried exactly at its first time therefore holds the last value
  (`LinearExampleValues`, third clause). A second query at the same time can
  answer differently from the first (`RepeatedQueryDependsOnHint`).
- Past the last sample, the time column holds its last sample.

## Model

| member | source | states |
|---|---|---|
| Strings.Trim | libs/scenario_fmu/include_private/string.hpp:11-22 | the two-pointer loop returns exactly `Trimmed(s)` |
| Strings.TrimmedIsStripped | libs/scenario_fmu/include_private/string.hpp:11-22 | trim gives a contiguous substring with only whitespace cut off at both ends; it has no edge whitespace; it is empty iff s is all whitespace |
| Strings.TrimStartShape | libs/scenario_fmu/include_private/string.hpp:13-14 | the front scan drops a whitespace prefix and stops at a non-space or at the end |
| Strings.TrimEndShape | libs/scenario_fmu/include_private/string.hpp:15-19 | the back scan drops a whitespace suffix and stops at a non-space or at the front |
| Strings.TrimmedFixesNoEdgeSpace | libs/scenario_fmu/include_private/string.hpp:11-22 | a string without edge whitespace is its own trim |
| Strings.TrimmedIdempotent | libs/scenario_fmu/include_private/string.hpp:11-22 | trim(trim(s)) == trim(s) |
| Strings.IEquals | libs/scenario_fmu/include_private/string.hpp:24-34 | true iff equal position by position under ASCII tolower; false when the lengths differ |
| Strings.EqualIgnoringCaseIsEquivalence | libs/scenario_fmu/include_private/string.hpp:24-34 | case-insensitive equality is reflexive, symmetric and transitive |
| Strings.ParseDoubleOptNone | libs/scenario_fmu/include_private/string.hpp:36-43 | none exactly for the empty string or when strtod consumes nothing (no numeric prefix) |
| Strings.ParseDoubleOptExamples | libs/scenario_fmu/include_private/string.hpp:38-41 | "", " " and "x1" parse to none |
| Strings.SplitOn | libs/scenario_fmu/include_private/string.hpp:45-63 | the `parts`/`cur` loop returns exactly `Split(s, d)` |
| Strings.SplitCount | libs/scenario_fmu/include_private/string.hpp:45-63 | occurrences of d plus one parts; the empty string splits into one empty part |
| Strings.SplitJoin | libs/scenario_fmu/include_private/string.hpp:45-63 | joining the parts with d gives back s |
| Strings.SplitPiecesAvoidDelimiter | libs/scenario_fmu/include_private/string.hpp:45-63 | no part contains d |
| Strings.SplitHeadIsPrefix | libs/scenario_fmu/include_private/string.hpp:45-63 | the first part is a prefix of s |
| Strings.SplitWithoutDelimiter | libs/scenario_fmu/include_private/string.hpp:45-63 | a string without the delimiter character is one part |
| Strings.JoinThenSplit | libs/scenario_fmu/include_private/string.hpp:45-63 | for a one-character delimiter no part contains, split undoes join |
| Series.InterpolationFromString | libs/scenario_fmu/include_private/series.hpp:22-34 | "ZOH", "NN" and "C" map to their policies, case-sensitively; every other token (including "L") is Linear, both directions |
| Series.FirstGroupError | libs/scenario_fmu/include_private/series.hpp:62-73 | none iff every group has the right field count and a parsable time; otherwise the error of some failing group |
| Series.FirstGroupErrorIsFirst | libs/scenario_fmu/include_private/series.hpp:62-73 | when group i is rejected and every group before it is accepted, the error reported is group i's |
| Series.Column | libs/scenario_fmu/include_private/series.hpp:75-85 | every column built is well formed (parallel vectors of length size), with hint 0 and Linear policy |
| Series.AppendGroup | libs/scenario_fmu/include_private/series.hpp:75-87 | the inner loop appends to each column exactly the sample its field contributes |
| Series.ParseScenario | libs/scenario_fmu/include_private/series.hpp:47-90 | the parser returns exactly `ScenarioSpec(input)`, errors included |
| Series.ParseGroups | libs/scenario_fmu/include_private/series.hpp:61-89 | the group loop returns exactly `GroupsSpec`: the first rejected group's error, or the columns of all groups |
| Series.ColumnSamples | libs/scenario_fmu/include_private/series.hpp:75-85 | column v holds one sample per group whose field v parses: that group's time and the parsed value, and nothing for blank or unparsable fields |
| Series.SampleRowsOrdered | libs/scenario_fmu/include_private/series.hpp:62-85 | the samples come from strictly increasing groups, so they keep input order (times are never sorted), and every parsing group contributes |
| Series.TimeColumnIsTimeAxis | libs/scenario_fmu/include_private/series.hpp:69-83 | column 0's values equal its times |
| Series.ScenarioShape | libs/scenario_fmu/include_private/series.hpp:54-59 | a successful parse has one well-formed series per field of the first group, each with hint 0 and Linear, and series 0 is the time axis |
| Series.ScenarioFailsIff | libs/scenario_fmu/include_private/series.hpp:49-73 | the parse fails iff the input is empty, has one character, or some group has the wrong field count or no parsable time; the empty input fails with NoScenario |
| Series.TokenPolicyDefaults | libs/scenario_fmu/include_private/series.hpp:113-121 | a blank token is Linear; " ZOH " is trimmed to ZOH; "zoh" and "l" are Linear |
| Series.ParseInterpolation | libs/scenario_fmu/include_private/series.hpp:94-124 | an empty string changes nothing; a one-character string is out_of_range; a token count other than the series count fails before any change; otherwise only each record's policy changes |
| Series.ScanFrom | libs/scenario_fmu/include_private/series.hpp:135-181 | the hint only moves forward and stays at most size-2 |
| Series.Eval | libs/scenario_fmu/include_private/series.hpp:126-182 | the record stays well formed, only its hint changes, the hint never decreases, and before the first time (or on an empty series) the value is 0.0 with the record unchanged |
| Series.EvalValueAt | libs/scenario_fmu/include_private/series.hpp:126-182 | the scanning loop returns exactly `Eval`'s value and updated record |
| Series.StopValueMeaning | libs/scenario_fmu/include_private/series.hpp:146-176 | at an exact hit the value is values[k]; strictly inside a bracket ZOH gives v0, NN gives v0 on ties or the nearer sample, Linear lies between v0 and v1 on the chord, Cubic never stops there |
| Series.ScanFromFindsFirstStop | libs/scenario_fmu/include_private/series.hpp:135-181 | the scan returns at the first stopping index after the hint, or at size-2 holding the last value when none stops |
| Series.EvalCharacterized | libs/scenario_fmu/include_private/series.hpp:126-182 | before the start: 0.0 and the hint kept; otherwise the first stop after the hint, or the last value with no stop after the hint |
| Series.CubicHitsOrHoldsLast | libs/scenario_fmu/include_private/series.hpp:146-181 | a Cubic series answers 0.0 before the start, an exact hit, or the last value |
| Series.LinearExampleValues | libs/scenario_fmu/include_private/series.hpp:126-182 | the fresh Linear series (0,0),(1,4),(2,3),(3,4) gives 3.5 at 1.5, 4 at 5.5 and 4 (not 0) at 0 |
| Series.RepeatedQueryDependsOnHint | libs/scenario_fmu/include_private/series.hpp:135-150 | the time axis answers 2.5 at 2.5 once, and 3.0 when asked again from the moved hint |
| ScenarioFmu.OutputIffInRange | libs/scenario_fmu/src/scenario_fmu_interface.cpp:197-198 | with an unsigned index, a vr is an output iff 1 <= vr <= outputs_count, and then names column vr-1; vr 0 wraps to the largest index |
| ScenarioFmu.ReadOne | libs/scenario_fmu/src/scenario_fmu_interface.cpp:197-208 | one reference: the series stay well formed, change only in their hints, and only the queried series changes |
| ScenarioFmu.ReadOutputs | libs/scenario_fmu/src/scenario_fmu_interface.cpp:195-209 | one value per reference; the series change only in their hints |
| ScenarioFmu.ReadOutputsUntouched | libs/scenario_fmu/src/scenario_fmu_interface.cpp:198-200 | a series no reference queries is left exactly as it was |
| ScenarioFmu.ReadOutputsZeroForNonOutputs | libs/scenario_fmu/src/scenario_fmu_interface.cpp:202-207 | a reference that is not an output reads 0.0 |
| ScenarioFmu.ReadOutputsWarnedIff | libs/scenario_fmu/src/scenario_fmu_interface.cpp:193-210 | the status is Warning iff at least one reference is not an output |
| ScenarioFmu.ReadOutputsPrefix | libs/scenario_fmu/src/scenario_fmu_interface.cpp:195-209 | value i is fixed once reference i is read; later references do not change it |
| ScenarioFmu.FirstQueryReadsOldSeries | libs/scenario_fmu/src/scenario_fmu_interface.cpp:197-200 | an output whose series no earlier reference in the call queried reads eval_value_at on the series as it was before the call |
| ScenarioFmu.LastScenarioWriteWins | libs/scenario_fmu/src/scenario_fmu_interface.cpp:161-169 | the last entry for vr 0 sets the scenario text, a null value as "" |
| ScenarioFmu.ScenarioKeptWithoutWrite | libs/scenario_fmu/src/scenario_fmu_interface.cpp:161-169 | without an entry for vr 0 (vr 1 included) the scenario text is unchanged |
| ScenarioFmu.Model.constructor | libs/scenario_fmu/src/scenario_fmu_interface.cpp:74-93 | state Instantiated, time 0.0, no outputs, no series, empty scenario text; the arguments stored, a null resource location as "" |
| ScenarioFmu.Model.EnterInitializationMode | libs/scenario_fmu/src/scenario_fmu_interface.cpp:120-125 | OK and state InitializationMode |
| ScenarioFmu.Model.ExitInitializationMode | libs/scenario_fmu/src/scenario_fmu_interface.cpp:127-136 | on a successful parse: series := the parse, outputs_count := its size as a 32-bit unsigned, state StepComplete; a failing parse (the empty text included) reports its error and changes nothing |
| ScenarioFmu.Model.Terminate | libs/scenario_fmu/src/scenario_fmu_interface.cpp:138-143 | OK and state Terminated |
| ScenarioFmu.Model.SetTime | libs/scenario_fmu/src/scenario_fmu_interface.cpp:146-154 | OK and current_time := time, nothing else |
| ScenarioFmu.Model.SetString | libs/scenario_fmu/src/scenario_fmu_interface.cpp:156-171 | OK, and the scenario text becomes `ScenarioAfter` of the writes; nothing else changes |
| ScenarioFmu.Model.DoStep | libs/scenario_fmu/src/scenario_fmu_interface.cpp:173-185 | OK, current_time := point + step, state StepComplete, series untouched |
| ScenarioFmu.Model.GetReal | libs/scenario_fmu/src/scenario_fmu_interface.cpp:188-211 | writes exactly value[0..nvr) with `ReadOutputs`' values, keeps the rest of the array, stores the moved hints, keeps the model valid, and returns Warning iff `ReadOutputs` warned |
| ScenarioFmu.Model.Reset | libs/scenario_fmu/src/scenario_fmu_interface.cpp:213-217 | OK, and nothing is modified |
| ScenarioVariables.StartValue | python/src/scenario_fmu_generator/variable.py:13-14 | succeeds iff the first point exists and has a second element; otherwise IndexError |
| ScenarioVariables.MapAll | python/src/scenario_fmu_generator/variable.py:21-24 | a list comprehension succeeds iff every element converts, with the converted values in order; otherwise it raises the first element's error |
| ScenarioVariables.FromStrShape | python/src/scenario_fmu_generator/variable.py:16-25 | parts[0] is the name, parts[1] the interpolation, one coordinate per later field with as many numbers as comma pieces (arity unchecked); fewer than two fields is IndexError |
| ScenarioVariables.PointRoundTrip | python/src/scenario_fmu_generator/variable.py:21-28 | for numbers whose rendering parses back, a formatted pair parses back to the same pair and holds no ";" or line break |
| ScenarioVariables.PiecesOfPrintable | python/src/scenario_fmu_generator/variable.py:27-29 | the pieces to_str joins hold no ";" and parse back to the series |
| ScenarioVariables.ToStrRoundTrip | python/src/scenario_fmu_generator/variable.py:16-29 | for a name and interpolation without ";", pairs only and a non-empty series, from_str(to_str(v)) == v |
| ScenarioVariables.BinaryCodecFaithful | python/src/scenario_fmu_generator/variable.py:27-28 | a codec knowing only 0 and 1 renders both faithfully and 2 not, so the per-number hypothesis of the round trips can hold |
| ScenarioVariables.BinaryCodecWrites | python/src/scenario_fmu_generator/variable.py:27-29 | with that codec, the variable y, L, [[0, 1]] prints as "y;L;0,1" |
| ScenarioVariables.BinaryCodecRoundTrip | python/src/scenario_fmu_generator/variable.py:16-29 | "y;L;0,1" reads back as that same variable, an instance of the round trip whose hypotheses all hold |
| ScenarioVariables.EmptySeriesDoesNotRoundTrip | python/src/scenario_fmu_generator/variable.py:16-29 | an empty series prints "name;interp;", which from_str rejects with ValueError |
| ScenarioVariables.StartValueRoundTrip | python/src/scenario_fmu_generator/variable.py:13-29 | the start value read back is the first point's value |
| ScenarioVariables.LinesRoundTrip | python/src/scenario_fmu_generator/variable.py:32-39 | each printed line holds no line break and reads back as its variable |
| ScenarioVariables.ToStringRoundTrip | python/src/scenario_fmu_generator/variable.py:32-39 | from_string(to_string(vs)) == vs for a non-empty list of printable variables, so the length survives |
| ScenarioVariables.EmptyListDoesNotRoundTrip | python/src/scenario_fmu_generator/variable.py:32-39 | the empty list prints "", which reads back as an IndexError |
| SspParameters.Capitalize | python/src/scenario_fmu_generator/ssp_parameter_builder.py:24 | same length, first character upper case, the rest lower case |
| SspParameters.CapitalizeIgnoresCase | python/src/scenario_fmu_generator/ssp_parameter_builder.py:24 | strings that differ only in case normalise alike, and the result differs from the input only in case |
| SspParameters.AcceptedIff | python/src/scenario_fmu_generator/ssp_parameter_builder.py:24-26 | a type is accepted iff it names String, Real, Integer or Boolean in any mix of cases, and is then stored under that name |
| SspParameters.RealInAnyCase | python/src/scenario_fmu_generator/ssp_parameter_builder.py:24 | "real", "REAL" and "rEaL" become "Real" |
| SspParameters.UnsupportedExamples | python/src/scenario_fmu_generator/ssp_parameter_builder.py:25-26 | "Float" and "" are rejected |
| SspParameters.FirstRejected | python/src/scenario_fmu_generator/ssp_parameter_builder.py:42-45 | every item before it is accepted, and the item at it (if any) is rejected |
| SspParameters.NormalisedPrefix | python/src/scenario_fmu_generator/ssp_parameter_builder.py:43-44 | the first k items, each under its capitalised type, in order |
| SspParameters.ExtendStopsAtFirstRejected | python/src/scenario_fmu_generator/ssp_parameter_builder.py:42-45 | with a good, a bad and a good item, only the first is applied |
| SspParameters.ParameterSetBuilder.constructor | python/src/scenario_fmu_generator/ssp_parameter_builder.py:19-21 | the given name ("Default" unless given) and an empty list |
| SspParameters.ParameterSetBuilder.Add | python/src/scenario_fmu_generator/ssp_parameter_builder.py:23-28 | an accepted type appends exactly one parameter under the capitalised type; a rejected one fails naming the type as given and leaves the list unchanged |
| SspParameters.ParameterSetBuilder.AddString | python/src/scenario_fmu_generator/ssp_parameter_builder.py:30-31 | appends (name, "String", value), value "" by default |
| SspParameters.ParameterSetBuilder.AddReal | python/src/scenario_fmu_generator/ssp_parameter_builder.py:33-34 | appends (name, "Real", value), value "0" by default |
| SspParameters.ParameterSetBuilder.AddInteger | python/src/scenario_fmu_generator/ssp_parameter_builder.py:36-37 | appends (name, "Integer", value), value "0" by default |
| SspParameters.ParameterSetBuilder.AddBoolean | python/src/scenario_fmu_generator/ssp_parameter_builder.py:39-40 | appends (name, "Boolean", value), value "false" by default |
| SspParameters.ParameterSetBuilder.Extend | python/src/scenario_fmu_generator/ssp_parameter_builder.py:42-45 | appends the items in order up to the first rejected one, which fails naming its type; the earlier items stay appended |

## Left out

- The no-op FMI entry points (state get/set/serialise, derivatives, events,
  integer/boolean/string getters and setters, status queries),
  `fmi2FreeInstance`, `fmi2SetupExperiment`, the experiment record's time,
  callbacks and logging. They are memory management or stubs with no logic.
- `fmi2Instantiate` does not return a pointer here. It is the `Model`
  constructor, and the callbacks argument is dropped.
- ScenarioFmu.Model.ExitInitializationMode: `parse_scenario` throws, and the
  exception leaves an `extern "C"` function. The model reports the parse error
  as a failure result that leaves the model unchanged. It does not model
  process termination.
- ScenarioFmu.Model.GetReal: requires `Readable`. A one-sample series queried
  at or after its sample makes `eval_value_at` read past the end of its
  vectors. That read is undefined behaviour, so it is excluded rather than
  modelled.
- Series.EvalValueAt: the same one-sample read past the end is the
  precondition `Evaluable`.
- Series.EvalValueAt: the C++ function updates the record through a reference.
  The model returns the updated record, and the adapter stores it back into
  its `series` field.
- Series.ParseInterpolation works on an array of records updated in place. The
  adapter never calls it, so it has no caller here either.
- `std::strtod` is modelled only for decimal input: optional whitespace, sign,
  digits, a point and an exponent. Hexadecimal floats, `inf`, `nan` and the
  C-locale rounding of the value are not modelled. Whitespace is the C
  `isspace` set and case mapping is ASCII.
- Strings.ParseDoubleOptExamples: gives only the none cases. No numeric value
  is computed for a concrete string.
- Doubles are reals: there is no rounding, no NaN and no infinities, and
  `dt == 0` cannot occur strictly inside a bracket.
- ScenarioVariables.ToStrRoundTrip: Python `float()` and f-string formatting
  are an abstract `NumberCodec`. The round trips assume `FaithfulOn(c, v)`:
  each number of the variable renders to text that parses back to it, after
  stripping, and holds no `,`, `;` or line break (`FaithfulFor`).
  `BinaryCodecRoundTrip` shows that the hypothesis can be met. The round
  trip is not proved for CPython's actual float repr.
- Python `str.strip` is modelled by the C `isspace` set, not by Unicode
  whitespace. `str.capitalize` is modelled for ASCII letters only.
- SspParameters.ParameterSetBuilder.AddReal: the `str(value)` conversion is
  not modelled. Values are taken as strings already, and the same holds for
  AddInteger and AddBoolean.
- Method chaining (`return self`) in the builder is not modelled. The methods
  return an outcome instead of raising `ValueError`.
- `to_xml_bytes`, `build`, the XML model description, packaging, the command
  line tools and the platform probing are file, XML and process I/O.
- `kMaxOutputs` in the public header is never enforced by the code, so it is
  not modelled.
