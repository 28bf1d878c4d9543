/** The FMI 2.0 co-simulation adapter of scenario_fmu_interface.cpp: one
    Model object per instance, whose fields the fmi2* entry points read and
    update. The parameter at value reference 0 holds the scenario text;
    leaving initialization mode parses it into one series per column, and
    the outputs are the columns, starting at value reference 1 (column 0,
    the time axis, is output 1). */
module ScenarioFmu {
  import opened Wrappers
  import opened Series

  /** fmi2ValueReference is a 32-bit unsigned int. */
  const UIntModulus: int := 0x1_0000_0000
  type ValueReference = x: int | 0 <= x < 0x1_0000_0000

  const VrScenarioInput: ValueReference := 0
  const VrFirstOutput: ValueReference := 1

  datatype Status = OK | Warning | Discard | Error | Fatal | Pending

  datatype FmuType = ModelExchange | CoSimulation

  datatype ModelState =
    | StartAndEnd | Instantiated | InitializationMode | EventMode | ContinuousTimeMode
    | StepComplete | StepInProgress | StepFailed | StepCanceled | Terminated

  // ------------------------------------------------------------------
  // Value references of the outputs
  // ------------------------------------------------------------------

  /** The column a value reference asks for: vr - 1 in unsigned arithmetic,
      so vr 0 wraps around to the largest index. */
  function OutputIndex(vr: ValueReference): nat
  {
    if vr >= VrFirstOutput then vr - VrFirstOutput else vr - VrFirstOutput + UIntModulus
  }

  predicate IsOutput(vr: ValueReference, outputsCount: nat)
  {
    OutputIndex(vr) < outputsCount
  }

  /** With a 32-bit output count, the outputs are exactly the value
      references 1 .. outputsCount, and vr names column vr - 1; vr 0 (the
      scenario text) is never an output. */
  lemma OutputIffInRange(vr: ValueReference, outputsCount: nat)
    requires outputsCount < UIntModulus
    ensures IsOutput(vr, outputsCount) <==> 1 <= vr <= outputsCount
    ensures IsOutput(vr, outputsCount) ==> OutputIndex(vr) == vr - 1
    ensures OutputIndex(VrScenarioInput) == UIntModulus - 1
  {
    if vr == 0 {
      assert OutputIndex(vr) == UIntModulus - 1;
    } else {
      assert OutputIndex(vr) == vr - 1;
    }
  }

  // ------------------------------------------------------------------
  // fmi2GetReal, as a function of the series it reads
  // ------------------------------------------------------------------

  predicate AllWellFormed(series: seq<SeriesData>)
  {
    forall j :: 0 <= j < |series| ==> WellFormed(series[j])
  }

  /** Every output the value references ask for can be evaluated at t: no
      one-sample series is queried at or after its only sample, where
      eval_value_at would read past the end of its vectors. */
  predicate Readable(series: seq<SeriesData>, outputsCount: nat, vrs: seq<ValueReference>, t: real)
  {
    && outputsCount <= |series| && AllWellFormed(series)
    && forall i :: 0 <= i < |vrs| && IsOutput(vrs[i], outputsCount) ==>
         Evaluable(series[OutputIndex(vrs[i])], t)
  }

  /** The values written, the series left behind (with their hints moved),
      and whether any value reference was not an output. */
  datatype Readout = Readout(values: seq<real>, series: seq<SeriesData>, warned: bool)

  /** Two records that differ at most in their search hints. */
  predicate SameSamples(a: SeriesData, b: SeriesData)
  {
    a == b.(accessIndex := a.accessIndex)
  }

  /** Reading one value reference after the earlier ones left the series
      as r.series: an output is evaluated on its series, which keeps the
      moved hint; anything else reads 0.0 and raises the warning. */
  function ReadOne(r: Readout, outputsCount: nat, vr: ValueReference, t: real): (r': Readout)
    requires outputsCount <= |r.series| && AllWellFormed(r.series)
    requires IsOutput(vr, outputsCount) ==> Evaluable(r.series[OutputIndex(vr)], t)
    ensures |r'.series| == |r.series| && AllWellFormed(r'.series)
    ensures forall j :: 0 <= j < |r.series| ==> SameSamples(r'.series[j], r.series[j])
    ensures forall j :: 0 <= j < |r.series| && (!IsOutput(vr, outputsCount) || OutputIndex(vr) != j) ==>
      r'.series[j] == r.series[j]
  {
    if IsOutput(vr, outputsCount) then
      var index := OutputIndex(vr);
      var e := Eval(r.series[index], t);
      Readout(r.values + [e.value], r.series[index := e.series], r.warned)
    else
      Readout(r.values + [0.0], r.series, true)
  }

  /** Reading the value references in order, one at a time: one value per
      reference, and the series differ from the old ones at most in their
      hints. */
  function ReadOutputs(series: seq<SeriesData>, outputsCount: nat, vrs: seq<ValueReference>, t: real): (r: Readout)
    requires Readable(series, outputsCount, vrs, t)
    ensures |r.values| == |vrs| && |r.series| == |series| && AllWellFormed(r.series)
    ensures forall j :: 0 <= j < |series| ==> SameSamples(r.series[j], series[j])
    decreases |vrs|
  {
    if vrs == [] then Readout([], series, false)
    else
      var front := vrs[..|vrs| - 1];
      var vr := vrs[|vrs| - 1];
      assert forall i :: 0 <= i < |front| ==> front[i] == vrs[i];
      var r := ReadOutputs(series, outputsCount, front, t);
      assert IsOutput(vr, outputsCount) ==> SameSamples(r.series[OutputIndex(vr)], series[OutputIndex(vr)]);
      ReadOne(r, outputsCount, vr, t)
  }

  /** Reading one more reference is one more ReadOne. */
  lemma ReadOutputsStep(series: seq<SeriesData>, outputsCount: nat, vrs: seq<ValueReference>, t: real, i: nat)
    requires Readable(series, outputsCount, vrs, t) && i < |vrs|
    ensures Readable(series, outputsCount, vrs[..i], t) && Readable(series, outputsCount, vrs[..i + 1], t)
    ensures var r := ReadOutputs(series, outputsCount, vrs[..i], t);
      && (IsOutput(vrs[i], outputsCount) ==> Evaluable(r.series[OutputIndex(vrs[i])], t))
      && ReadOutputs(series, outputsCount, vrs[..i + 1], t) == ReadOne(r, outputsCount, vrs[i], t)
  {
    ReadablePrefix(series, outputsCount, vrs, t, i);
    ReadablePrefix(series, outputsCount, vrs, t, i + 1);
    assert vrs[..i + 1][..i] == vrs[..i];
  }

  /** A series that no reference queries is left exactly as it was. */
  lemma {:induction false} ReadOutputsUntouched(series: seq<SeriesData>, outputsCount: nat, vrs: seq<ValueReference>, t: real, j: nat)
    requires Readable(series, outputsCount, vrs, t) && j < |series|
    requires forall i :: 0 <= i < |vrs| ==> !IsOutput(vrs[i], outputsCount) || OutputIndex(vrs[i]) != j
    ensures ReadOutputs(series, outputsCount, vrs, t).series[j] == series[j]
    decreases |vrs|
  {
    if vrs != [] {
      var n := |vrs| - 1;
      ReadOutputsStep(series, outputsCount, vrs, t, n);
      assert forall i :: 0 <= i < n ==> vrs[..n][i] == vrs[i];
      ReadOutputsUntouched(series, outputsCount, vrs[..n], t, j);
      assert vrs[..n + 1] == vrs;
    }
  }

  /** A reference that is not an output reads 0.0. */
  lemma {:induction false} ReadOutputsZeroForNonOutputs(series: seq<SeriesData>, outputsCount: nat, vrs: seq<ValueReference>, t: real, i: nat)
    requires Readable(series, outputsCount, vrs, t) && i < |vrs| && !IsOutput(vrs[i], outputsCount)
    ensures ReadOutputs(series, outputsCount, vrs, t).values[i] == 0.0
  {
    ReadOutputsPrefix(series, outputsCount, vrs, t, i + 1);
    ReadOutputsStep(series, outputsCount, vrs, t, i);
    var r := ReadOutputs(series, outputsCount, vrs[..i], t);
    var r' := ReadOutputs(series, outputsCount, vrs[..i + 1], t);
    assert r' == Readout(r.values + [0.0], r.series, true);
    assert r'.values[i] == 0.0;
  }

  /** The warning is raised exactly when some reference is not an output. */
  lemma {:induction false} ReadOutputsWarnedIff(series: seq<SeriesData>, outputsCount: nat, vrs: seq<ValueReference>, t: real)
    requires Readable(series, outputsCount, vrs, t)
    ensures ReadOutputs(series, outputsCount, vrs, t).warned <==> exists i :: 0 <= i < |vrs| && !IsOutput(vrs[i], outputsCount)
    decreases |vrs|
  {
    if vrs != [] {
      var n := |vrs| - 1;
      var front := vrs[..n];
      ReadOutputsStep(series, outputsCount, vrs, t, n);
      assert forall i :: 0 <= i < n ==> front[i] == vrs[i];
      ReadOutputsWarnedIff(series, outputsCount, front, t);
      assert vrs[..n + 1] == vrs;
      var r := ReadOutputs(series, outputsCount, front, t);
      var r' := ReadOutputs(series, outputsCount, vrs, t);
      if IsOutput(vrs[n], outputsCount) {
        assert r'.warned == r.warned;
        if r'.warned {
          var i :| 0 <= i < n && !IsOutput(front[i], outputsCount);
          assert !IsOutput(vrs[i], outputsCount);
        }
      } else {
        assert r'.warned;
      }
    }
  }

  lemma ReadablePrefix(series: seq<SeriesData>, outputsCount: nat, vrs: seq<ValueReference>, t: real, n: nat)
    requires Readable(series, outputsCount, vrs, t) && n <= |vrs|
    ensures Readable(series, outputsCount, vrs[..n], t)
  {
    assert forall i :: 0 <= i < n ==> vrs[..n][i] == vrs[i];
  }

  /** Reading the first n references gives the first n values, and later
      reads do not change them. */
  lemma {:induction false} ReadOutputsPrefix(series: seq<SeriesData>, outputsCount: nat, vrs: seq<ValueReference>, t: real, n: nat)
    requires Readable(series, outputsCount, vrs, t) && n <= |vrs|
    ensures Readable(series, outputsCount, vrs[..n], t)
    ensures ReadOutputs(series, outputsCount, vrs[..n], t).values == ReadOutputs(series, outputsCount, vrs, t).values[..n]
    decreases |vrs|
  {
    ReadablePrefix(series, outputsCount, vrs, t, n);
    if n < |vrs| {
      var front := vrs[..|vrs| - 1];
      ReadablePrefix(series, outputsCount, vrs, t, |vrs| - 1);
      ReadOutputsPrefix(series, outputsCount, front, t, n);
      assert front[..n] == vrs[..n];
    } else {
      assert vrs[..n] == vrs;
    }
  }

  /** The value read for an output whose series no earlier reference in
      the same call has queried is eval_value_at on that series as it was
      before the call. In particular, with distinct value references every
      output reads its series from the hint the previous calls left. */
  lemma FirstQueryReadsOldSeries(series: seq<SeriesData>, outputsCount: nat, vrs: seq<ValueReference>, t: real, i: nat)
    requires Readable(series, outputsCount, vrs, t) && i < |vrs| && IsOutput(vrs[i], outputsCount)
    requires forall k :: 0 <= k < i ==> !IsOutput(vrs[k], outputsCount) || OutputIndex(vrs[k]) != OutputIndex(vrs[i])
    ensures ReadOutputs(series, outputsCount, vrs, t).values[i] == Eval(series[OutputIndex(vrs[i])], t).value
  {
    ReadOutputsPrefix(series, outputsCount, vrs, t, i + 1);
    ReadOutputsStep(series, outputsCount, vrs, t, i);
    var front := vrs[..i];
    var r := ReadOutputs(series, outputsCount, front, t);
    assert forall k :: 0 <= k < |front| ==> front[k] == vrs[k];
    ReadOutputsUntouched(series, outputsCount, front, t, OutputIndex(vrs[i]));
    assert |r.values| == i;
  }

  // ------------------------------------------------------------------
  // fmi2SetString, as a function of the strings it is given
  // ------------------------------------------------------------------

  /** A null C string is stored as the empty string. */
  function Stored(value: Option<string>): string
  {
    value.GetOr("")
  }

  /** The scenario text after the writes of fmi2SetString, in array order:
      each entry for vr 0 overwrites it, and every other entry is ignored. */
  function ScenarioAfter(current: string, vrs: seq<ValueReference>, values: seq<Option<string>>): string
    requires |vrs| == |values|
    decreases |vrs|
  {
    if vrs == [] then current
    else
      var text := ScenarioAfter(current, vrs[..|vrs| - 1], values[..|vrs| - 1]);
      if vrs[|vrs| - 1] == VrScenarioInput then Stored(values[|vrs| - 1]) else text
  }

  /** The last entry for vr 0 wins. */
  lemma {:induction false} LastScenarioWriteWins(current: string, vrs: seq<ValueReference>, values: seq<Option<string>>, i: nat)
    requires |vrs| == |values| && i < |vrs| && vrs[i] == VrScenarioInput
    requires forall j :: i < j < |vrs| ==> vrs[j] != VrScenarioInput
    ensures ScenarioAfter(current, vrs, values) == Stored(values[i])
    decreases |vrs|
  {
    var n := |vrs| - 1;
    if i < n {
      var front, frontValues := vrs[..n], values[..n];
      assert front[i] == vrs[i] && frontValues[i] == values[i];
      LastScenarioWriteWins(current, front, frontValues, i);
    }
  }

  /** Without an entry for vr 0 the scenario text is unchanged. */
  lemma {:induction false} ScenarioKeptWithoutWrite(current: string, vrs: seq<ValueReference>, values: seq<Option<string>>)
    requires |vrs| == |values| && forall i :: 0 <= i < |vrs| ==> vrs[i] != VrScenarioInput
    ensures ScenarioAfter(current, vrs, values) == current
    decreases |vrs|
  {
    if vrs != [] {
      var n := |vrs| - 1;
      assert forall i :: 0 <= i < n ==> vrs[..n][i] == vrs[i];
      ScenarioKeptWithoutWrite(current, vrs[..n], values[..n]);
    }
  }

  // ------------------------------------------------------------------
  // The instance
  // ------------------------------------------------------------------

  /** One FMU instance (the Model class with the fields of its base). */
  class Model {
    var instanceName: string
    var fmuType: FmuType
    var guid: string
    var resourceLocation: string
    var visible: bool
    var loggingOn: bool

    var scenarioInput: string
    var series: seq<SeriesData>
    var outputsCount: nat
    var currentTime: real
    var state: ModelState

    /** The output count is the series count cast to 32 bits, and every
        series is a record the parser or the evaluator can produce. */
    ghost predicate Valid()
      reads this
    {
      outputsCount == |series| % UIntModulus && AllWellFormed(series)
    }

    /** fmi2Instantiate: a new instance at time 0 with no scenario and no
        outputs; a null resource location is stored as the empty string. */
    constructor (instanceName: string, fmuType: FmuType, guid: string,
                 resourceLocation: Option<string>, visible: bool, loggingOn: bool)
      ensures Valid()
      ensures state == Instantiated && currentTime == 0.0
      ensures outputsCount == 0 && series == [] && scenarioInput == ""
      ensures this.instanceName == instanceName && this.fmuType == fmuType && this.guid == guid
      ensures this.resourceLocation == Stored(resourceLocation)
      ensures this.visible == visible && this.loggingOn == loggingOn
    {
      this.instanceName := instanceName;
      this.fmuType := fmuType;
      this.guid := guid;
      this.resourceLocation := Stored(resourceLocation);
      this.visible := visible;
      this.loggingOn := loggingOn;
      scenarioInput := "";
      series := [];
      outputsCount := 0;
      currentTime := 0.0;
      state := Instantiated;
    }

    /** fmi2EnterInitializationMode */
    method EnterInitializationMode() returns (status: Status)
      modifies this`state
      ensures status == OK && state == InitializationMode
    {
      state := InitializationMode;
      return OK;
    }

    /** fmi2ExitInitializationMode: parse the scenario text into the series
        and count the outputs. A text parse_scenario rejects (the empty one
        included) raises its error and the instance is left as it was. */
    method ExitInitializationMode() returns (r: Result<Status, ParseError>)
      requires Valid()
      modifies this`series, this`outputsCount, this`state
      ensures Valid()
      ensures scenarioInput == [] ==> r == Failure(NoScenario)
      ensures match ScenarioSpec(scenarioInput)
        case Success(parsed) =>
          r == Success(OK) && series == parsed && outputsCount == |parsed| % UIntModulus
          && state == StepComplete
        case Failure(e) =>
          r == Failure(e) && series == old(series) && outputsCount == old(outputsCount)
          && state == old(state)
    {
      var parsed := ParseScenario(scenarioInput);
      if parsed.Failure? {
        return Failure(parsed.error);
      }
      ScenarioShape(scenarioInput);
      series := parsed.value;
      outputsCount := |series| % UIntModulus;
      state := StepComplete;
      return Success(OK);
    }

    /** fmi2Terminate */
    method Terminate() returns (status: Status)
      modifies this`state
      ensures status == OK && state == Terminated
    {
      state := Terminated;
      return OK;
    }

    /** fmi2SetTime */
    method SetTime(time: real) returns (status: Status)
      modifies this`currentTime
      ensures status == OK && currentTime == time
    {
      currentTime := time;
      return OK;
    }

    /** fmi2SetString: one string (or null) per value reference. */
    method SetString(vrs: seq<ValueReference>, values: seq<Option<string>>) returns (status: Status)
      requires |vrs| == |values|
      modifies this`scenarioInput
      ensures status == OK
      ensures scenarioInput == ScenarioAfter(old(scenarioInput), vrs, values)
    {
      var i := 0;
      while i < |vrs|
        invariant 0 <= i <= |vrs|
        invariant scenarioInput == ScenarioAfter(old(scenarioInput), vrs[..i], values[..i])
      {
        var text := Stored(values[i]);
        if vrs[i] == VrScenarioInput {
          scenarioInput := text;
        }
        assert vrs[..i + 1][..i] == vrs[..i] && values[..i + 1][..i] == values[..i];
        i := i + 1;
      }
      assert vrs[..i] == vrs && values[..i] == values;
      return OK;
    }

    /** fmi2DoStep: jump to the end of the communication step. The series
        are not touched; they are evaluated lazily by fmi2GetReal. */
    method DoStep(currentCommunicationPoint: real, communicationStepSize: real,
                  noSetFMUStatePriorToCurrentPoint: bool) returns (status: Status)
      modifies this`currentTime, this`state
      ensures status == OK && state == StepComplete
      ensures currentTime == currentCommunicationPoint + communicationStepSize
    {
      currentTime := currentCommunicationPoint + communicationStepSize;
      state := StepComplete;
      return OK;
    }

    /** fmi2GetReal: value[i] is the output vrs[i] at the current time, or
        0.0 with a Warning when vrs[i] is not an output. Exactly
        value[0 .. |vrs|) is written and only the hints of the queried
        series move. */
    method GetReal(vrs: seq<ValueReference>, value: array<real>) returns (status: Status)
      requires Valid() && value.Length >= |vrs| && Readable(series, outputsCount, vrs, currentTime)
      modifies this`series, value
      ensures Valid()
      ensures var r := ReadOutputs(old(series), outputsCount, vrs, currentTime);
        && series == r.series
        && value[..|vrs|] == r.values
        && value[|vrs|..] == old(value[|vrs|..])
        && status == (if r.warned then Warning else OK)
    {
      status := OK;
      var i := 0;
      assert vrs[..0] == [];
      while i < |vrs|
        invariant 0 <= i <= |vrs|
        invariant Readable(old(series), outputsCount, vrs[..i], currentTime)
        invariant ReadOutputs(old(series), outputsCount, vrs[..i], currentTime)
          == Readout(value[..i], series, status == Warning)
        invariant status == OK || status == Warning
        invariant forall j :: i <= j < value.Length ==> value[j] == old(value[j])
      {
        ReadOutputsStep(old(series), outputsCount, vrs, currentTime, i);
        var index := OutputIndex(vrs[i]);
        if index < outputsCount {
          var v, updated := EvalValueAt(series[index], currentTime);
          value[i] := v;
          series := series[index := updated];
        } else {
          value[i] := 0.0;
          status := Warning;
        }
        assert value[..i + 1] == value[..i] + [value[i]];
        i := i + 1;
      }
      assert vrs[..i] == vrs;
    }

    /** fmi2Reset: does nothing. */
    method Reset() returns (status: Status)
      ensures status == OK
    {
      return OK;
    }
  }
}
