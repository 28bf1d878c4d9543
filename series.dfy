/** The scenario engine of series.hpp: the interpolation policies, the
    record that holds one parsed series, the parsers for the scenario text
    "[t;v1;v2][t;v1;v2]..." and the interpolation text "[tok;tok;...]", and
    the evaluator that answers "value of this series at time t".

    SeriesData is a C++ struct held by value in a std::vector. The C++
    functions that change one (eval_value_at, parse_interpolation) do so
    through a reference; here they return the updated record, or update an
    array of records in place. Doubles are modelled as reals. */
module Series {
  import opened Wrappers
  import opened Strings

  datatype Interpolation = Zoh | Linear | NearestNeighbor | Cubic

  /** The token map: exact, case-sensitive matches of "L", "ZOH", "NN" and
      "C"; every other token, the empty one included, means Linear. */
  function InterpolationFromString(tok: string): (r: Interpolation)
    ensures r == Zoh <==> tok == "ZOH"
    ensures r == NearestNeighbor <==> tok == "NN"
    ensures r == Cubic <==> tok == "C"
    ensures r == Linear <==> tok != "ZOH" && tok != "NN" && tok != "C"
  {
    if tok == "L" then Linear
    else if tok == "ZOH" then Zoh
    else if tok == "NN" then NearestNeighbor
    else if tok == "C" then Cubic
    else Linear
  }

  /** One parsed column. `accessIndex` is the search hint of the evaluator;
      `size` is kept beside the two vectors as in the C++ struct. */
  datatype SeriesData = SeriesData(
    interpolation: Interpolation,
    accessIndex: nat,
    size: nat,
    times: seq<real>,
    values: seq<real>)

  const EmptySeries := SeriesData(Linear, 0, 0, [], [])

  /** The invariant every record built by the parser and updated by the
      evaluator keeps: the vectors and `size` agree, and the hint is 0 or
      names a bracket [hint, hint + 1] inside the samples. */
  predicate WellFormed(sd: SeriesData)
  {
    |sd.times| == sd.size && |sd.values| == sd.size
    && (sd.accessIndex == 0 || sd.accessIndex + 2 <= sd.size)
  }

  datatype ParseError =
    | NoScenario                 // parse_scenario on the empty string
    | OutOfRange                 // std::string::erase past the end (a one-character input)
    | WrongFieldCount(group: string, expected: nat, got: nat)
    | MissingTime                // a group whose time field does not parse
    | SizeMismatch               // interpolation tokens and series differ in number

  // ------------------------------------------------------------------
  // parse_scenario
  // ------------------------------------------------------------------

  /** The two `erase` calls: drop the first and the last character. */
  function StripEnds(s: string): string
    requires |s| >= 2
  {
    s[1..|s| - 1]
  }

  function Fields(g: string): seq<string>
  {
    Split(g, ";")
  }

  /** The number in field v of group g, if its trimmed text parses. */
  function FieldValue(g: string, v: nat): Option<real>
    requires v < |Fields(g)|
  {
    ParseDoubleOpt(Trimmed(Fields(g)[v]))
  }

  /** A group the parser accepts: n fields, and a time in the first. */
  predicate GroupOk(g: string, n: nat)
  {
    |Fields(g)| == n && FieldValue(g, 0).Some?
  }

  predicate AllGroupsOk(groups: seq<string>, n: nat)
  {
    forall i :: 0 <= i < |groups| ==> GroupOk(groups[i], n)
  }

  function GroupTime(g: string): real
    requires FieldValue(g, 0).Some?
  {
    FieldValue(g, 0).value
  }

  /** The exception a rejected group raises: the field count is checked
      before the time. */
  function GroupError(g: string, n: nat): ParseError
  {
    if |Fields(g)| != n then WrongFieldCount(g, n, |Fields(g)|) else MissingTime
  }

  /** The exception raised by the first rejected group, if any. */
  function FirstGroupError(groups: seq<string>, n: nat): (e: Option<ParseError>)
    ensures e.None? <==> AllGroupsOk(groups, n)
    ensures e.Some? ==> exists i :: 0 <= i < |groups| && !GroupOk(groups[i], n) && e.value == GroupError(groups[i], n)
  {
    if groups == [] then None
    else if !GroupOk(groups[0], n) then Some(GroupError(groups[0], n))
    else
      var e := FirstGroupError(groups[1..], n);
      assert forall i :: 1 <= i < |groups| ==> groups[i] == groups[1..][i - 1];
      e
  }

  /** The error reported is that of the first rejected group: every group
      before it is accepted. */
  lemma {:induction false} FirstGroupErrorIsFirst(groups: seq<string>, n: nat, i: nat)
    requires i < |groups| && !GroupOk(groups[i], n)
    requires forall j :: 0 <= j < i ==> GroupOk(groups[j], n)
    ensures FirstGroupError(groups, n) == Some(GroupError(groups[i], n))
    decreases i
  {
    if i > 0 {
      var rest := groups[1..];
      assert GroupOk(groups[0], n);
      assert rest[i - 1] == groups[i];
      forall j | 0 <= j < i - 1
        ensures GroupOk(rest[j], n)
      {
        assert rest[j] == groups[j + 1];
      }
      FirstGroupErrorIsFirst(rest, n, i - 1);
      assert FirstGroupError(groups, n) == FirstGroupError(rest, n);
    }
  }

  /** Series c after group g: the sample (group time, field value) appended
      when field v of g parses, nothing otherwise. */
  function Appended(c: SeriesData, g: string, v: nat): SeriesData
    requires v < |Fields(g)| && FieldValue(g, 0).Some?
  {
    match FieldValue(g, v)
    case None => c
    case Some(x) => c.(times := c.times + [GroupTime(g)], values := c.values + [x], size := c.size + 1)
  }

  /** Series v after the given groups, appended one group at a time. */
  function Column(groups: seq<string>, v: nat, n: nat): (c: SeriesData)
    requires AllGroupsOk(groups, n) && v < n
    ensures WellFormed(c) && c.accessIndex == 0 && c.interpolation == Linear
    decreases |groups|
  {
    if groups == [] then EmptySeries
    else Appended(Column(groups[..|groups| - 1], v, n), groups[|groups| - 1], v)
  }

  /** The groups of a scenario text of at least two characters. */
  function Groups(input: string): seq<string>
    requires |input| >= 2
  {
    Split(StripEnds(input), "][")
  }

  /** What parse_scenario returns or throws for a scenario text. */
  function ScenarioSpec(input: string): Result<seq<SeriesData>, ParseError>
  {
    if input == [] then Failure(NoScenario)
    else if |input| == 1 then Failure(OutOfRange)
    else
      var groups := Groups(input);
      GroupsSpec(groups, |Fields(groups[0])|)
  }

  /** The outcome of the group loop: the first rejected group's exception,
      or one series per field when every group is accepted. */
  function GroupsSpec(groups: seq<string>, n: nat): Result<seq<SeriesData>, ParseError>
  {
    match FirstGroupError(groups, n)
    case Some(e) => Failure(e)
    case None => Success(seq(n, v requires 0 <= v < n => Column(groups, v, n)))
  }

  /** Extending the groups by one appends that group to every series. */
  lemma ColumnStep(groups: seq<string>, gi: nat, n: nat)
    requires gi < |groups| && AllGroupsOk(groups[..gi], n) && GroupOk(groups[gi], n)
    ensures AllGroupsOk(groups[..gi + 1], n)
    ensures forall v :: 0 <= v < n ==>
      Column(groups[..gi + 1], v, n) == Appended(Column(groups[..gi], v, n), groups[gi], v)
  {
    var next := groups[..gi + 1];
    assert next[..gi] == groups[..gi];
    assert forall i :: 0 <= i < gi ==> next[i] == groups[..gi][i];
  }

  /** The inner loop of parse_scenario: field v of an accepted group g, when
      it parses, becomes a sample of series v at the group's time. */
  method AppendGroup(out: seq<SeriesData>, g: string, fields: seq<string>, time: real)
    returns (out': seq<SeriesData>)
    requires fields == Fields(g) && |out| == |fields| && GroupOk(g, |fields|) && time == GroupTime(g)
    ensures |out'| == |out|
    ensures forall v :: 0 <= v < |out| ==> out'[v] == Appended(out[v], g, v)
  {
    out' := out;
    var variable := 0;
    while variable < |out|
      invariant 0 <= variable <= |out| && |out'| == |out|
      invariant forall v :: 0 <= v < variable ==> out'[v] == Appended(out[v], g, v)
      invariant forall v :: variable <= v < |out| ==> out'[v] == out[v]
    {
      var field := Trim(fields[variable]);
      var x := ParseDoubleOpt(field);
      if x.Some? {
        var c := out'[variable];
        out' := out'[variable := c.(times := c.times + [time], values := c.values + [x.value], size := c.size + 1)];
      }
      variable := variable + 1;
    }
  }

  /** parse_scenario: strip the outer brackets, split into groups and take
      the field count from the first group. */
  method ParseScenario(input: string) returns (r: Result<seq<SeriesData>, ParseError>)
    ensures r == ScenarioSpec(input)
  {
    if input == [] {
      return Failure(NoScenario);
    }
    if |input| == 1 {
      return Failure(OutOfRange);
    }
    var groups := SplitOn(input[1..|input| - 1], "][");
    var first := SplitOn(groups[0], ";");
    r := ParseGroups(groups, |first|);
  }

  /** The group loop of parse_scenario: check each group in turn, throwing
      on the first rejected one, and append its parsed fields to the series. */
  method ParseGroups(groups: seq<string>, n: nat) returns (r: Result<seq<SeriesData>, ParseError>)
    ensures r == GroupsSpec(groups, n)
  {
    var out := seq(n, _ => EmptySeries);
    var gi := 0;
    while gi < |groups|
      invariant 0 <= gi <= |groups|
      invariant AllGroupsOk(groups[..gi], n)
      invariant |out| == n
      invariant forall v :: 0 <= v < n ==> out[v] == Column(groups[..gi], v, n)
    {
      var g := groups[gi];
      var fields := SplitOn(g, ";");
      assert forall j :: 0 <= j < gi ==> groups[..gi][j] == groups[j];
      if n != |fields| {
        FirstGroupErrorIsFirst(groups, n, gi);
        return Failure(WrongFieldCount(g, n, |fields|));
      }
      var timeField := Trim(fields[0]);
      var time := ParseDoubleOpt(timeField);
      if time.None? {
        FirstGroupErrorIsFirst(groups, n, gi);
        return Failure(MissingTime);
      }
      assert GroupOk(g, n) && GroupTime(g) == time.value;
      out := AppendGroup(out, g, fields, time.value);
      ColumnStep(groups, gi, n);
      gi := gi + 1;
    }
    assert groups[..gi] == groups;
    assert FirstGroupError(groups, n) == None;
    assert out == seq(n, v requires 0 <= v < n => Column(groups, v, n));
    return Success(out);
  }

  /** Which groups have a parsable field v. */
  ghost function Parsed(groups: seq<string>, v: nat, n: nat): (flags: seq<bool>)
    requires AllGroupsOk(groups, n) && v < n
    ensures |flags| == |groups|
    ensures forall j :: 0 <= j < |groups| ==> (flags[j] <==> FieldValue(groups[j], v).Some?)
  {
    seq(|groups|, j requires 0 <= j < |groups| => FieldValue(groups[j], v).Some?)
  }

  /** The positions of the true flags, in order. */
  ghost function TrueIndices(flags: seq<bool>): seq<nat>
  {
    if flags == [] then []
    else
      var rows := TrueIndices(flags[..|flags| - 1]);
      if flags[|flags| - 1] then rows + [|flags| - 1] else rows
  }

  /** The positions of the groups whose field v parses, in group order. */
  ghost function SampleRows(groups: seq<string>, v: nat, n: nat): seq<nat>
    requires AllGroupsOk(groups, n) && v < n
  {
    TrueIndices(Parsed(groups, v, n))
  }

  /** Dropping the last group drops the last flag. */
  lemma ParsedPrefix(groups: seq<string>, v: nat, n: nat)
    requires AllGroupsOk(groups, n) && v < n && groups != []
    ensures AllGroupsOk(groups[..|groups| - 1], n)
    ensures Parsed(groups[..|groups| - 1], v, n) == Parsed(groups, v, n)[..|groups| - 1]
  {
  }

  /** Series v holds one sample per group whose field v parses, made of
      that group's time and that field's number, in group order: a blank or
      unparsable field adds nothing (it is neither zero nor the previous
      value), and the times are never reordered. */
  lemma {:induction false} ColumnSamples(groups: seq<string>, v: nat, n: nat)
    requires AllGroupsOk(groups, n) && v < n
    ensures var c := Column(groups, v, n); var rows := SampleRows(groups, v, n);
      && |rows| == c.size
      && (forall i :: 0 <= i < |rows| ==>
            rows[i] < |groups| && FieldValue(groups[rows[i]], v) == Some(c.values[i])
            && c.times[i] == GroupTime(groups[rows[i]]))
    decreases |groups|
  {
    if groups != [] {
      var prefix := groups[..|groups| - 1];
      var last := groups[|groups| - 1];
      ParsedPrefix(groups, v, n);
      ColumnSamples(prefix, v, n);
      var c', rows' := Column(prefix, v, n), SampleRows(prefix, v, n);
      var c, rows := Column(groups, v, n), SampleRows(groups, v, n);
      if FieldValue(last, v).Some? {
        assert rows == rows' + [|prefix|];
      } else {
        assert rows == rows';
      }
      forall i | 0 <= i < |rows|
        ensures rows[i] < |groups| && FieldValue(groups[rows[i]], v) == Some(c.values[i])
          && c.times[i] == GroupTime(groups[rows[i]])
      {
        if i < |rows'| {
          assert rows[i] == rows'[i] && prefix[rows'[i]] == groups[rows[i]];
          assert c.values[i] == c'.values[i] && c.times[i] == c'.times[i];
        }
      }
    }
  }

  /** The true positions are positions of the flags, in increasing order. */
  lemma {:induction false} TrueIndicesOrdered(flags: seq<bool>)
    ensures forall i :: 0 <= i < |TrueIndices(flags)| ==> TrueIndices(flags)[i] < |flags|
    ensures forall i, j :: 0 <= i < j < |TrueIndices(flags)| ==> TrueIndices(flags)[i] < TrueIndices(flags)[j]
  {
    if flags != [] {
      var prefix := flags[..|flags| - 1];
      TrueIndicesOrdered(prefix);
      if flags[|flags| - 1] {
        assert TrueIndices(flags) == TrueIndices(prefix) + [|prefix|];
      } else {
        assert TrueIndices(flags) == TrueIndices(prefix);
      }
    }
  }

  /** A position is listed exactly when its flag is true. */
  lemma {:induction false} TrueIndicesComplete(flags: seq<bool>)
    ensures forall j :: 0 <= j < |flags| ==> (flags[j] <==> j in TrueIndices(flags))
  {
    if flags != [] {
      var prefix := flags[..|flags| - 1];
      TrueIndicesComplete(prefix);
      TrueIndicesOrdered(prefix);
      var rows' := TrueIndices(prefix);
      var rows := TrueIndices(flags);
      assert rows == if flags[|prefix|] then rows' + [|prefix|] else rows';
      forall j | 0 <= j < |flags|
        ensures flags[j] <==> j in rows
      {
        if j < |prefix| {
          assert prefix[j] == flags[j];
          assert j in rows <==> j in rows';
        } else {
          forall i | 0 <= i < |rows'|
            ensures rows'[i] != |prefix|
          {
          }
        }
      }
    }
  }

  /** The sampled groups come in input order, and a group is sampled
      exactly when its field v parses. */
  lemma SampleRowsOrdered(groups: seq<string>, v: nat, n: nat)
    requires AllGroupsOk(groups, n) && v < n
    ensures var rows := SampleRows(groups, v, n);
      && (forall i :: 0 <= i < |rows| ==> rows[i] < |groups|)
      && (forall i, j :: 0 <= i < j < |rows| ==> rows[i] < rows[j])
      && (forall j :: 0 <= j < |groups| ==> (FieldValue(groups[j], v).Some? <==> j in rows))
  {
    var flags := Parsed(groups, v, n);
    TrueIndicesOrdered(flags);
    TrueIndicesComplete(flags);
    assert |flags| == |groups|;
    assert SampleRows(groups, v, n) == TrueIndices(flags);
  }

  /** Series 0 is the time column: its values are its own times. */
  lemma {:induction false} TimeColumnIsTimeAxis(groups: seq<string>, n: nat)
    requires AllGroupsOk(groups, n) && 0 < n
    ensures Column(groups, 0, n).values == Column(groups, 0, n).times
    decreases |groups|
  {
    if groups != [] {
      var prefix := groups[..|groups| - 1];
      assert AllGroupsOk(prefix, n);
      TimeColumnIsTimeAxis(prefix, n);
    }
  }

  /** A parsed scenario has one series per field of the first group, every
      series is well formed with a fresh hint and the Linear default, and
      series 0 repeats the time axis. */
  lemma ScenarioShape(input: string)
    requires ScenarioSpec(input).Success?
    ensures |input| >= 2
    ensures var out := ScenarioSpec(input).value;
      && |out| == |Fields(Groups(input)[0])|
      && (forall v :: 0 <= v < |out| ==>
            WellFormed(out[v]) && out[v].accessIndex == 0 && out[v].interpolation == Linear)
      && out[0].values == out[0].times
  {
    var groups := Groups(input);
    var n := |Fields(groups[0])|;
    TimeColumnIsTimeAxis(groups, n);
  }

  /** parse_scenario fails exactly on the empty and the one-character text
      and when some group has the wrong field count or no time; one bad
      group fails the whole parse. */
  lemma ScenarioFailsIff(input: string)
    ensures ScenarioSpec(input).Failure? <==>
      input == [] || |input| == 1 || !AllGroupsOk(Groups(input), |Fields(Groups(input)[0])|)
    ensures input == [] ==> ScenarioSpec(input) == Failure(NoScenario)
  {
  }

  // ------------------------------------------------------------------
  // parse_interpolation
  // ------------------------------------------------------------------

  /** The policy of one field of the interpolation text: blank means Linear,
      anything else goes through the token map. */
  function TokenPolicy(field: string): Interpolation
  {
    InterpolationFromString(Trimmed(field))
  }

  /** Blank and unknown tokens, and tokens in the wrong case, give Linear. */
  lemma TokenPolicyDefaults(field: string)
    ensures AllSpace(field) ==> TokenPolicy(field) == Linear
    ensures TokenPolicy(" ZOH ") == Zoh && TokenPolicy("zoh") == Linear && TokenPolicy("l") == Linear
  {
    TrimmedIsStripped(field);
    TrimmedFixesNoEdgeSpace("zoh");
    TrimmedFixesNoEdgeSpace("l");
    assert TrimStart(" ZOH ") == "ZOH ";
    assert TrimEnd("ZOH ") == "ZOH";
  }

  function InterpolationFields(s: string): seq<string>
    requires |s| >= 2
  {
    Split(StripEnds(s), ";")
  }

  /** parse_interpolation: nothing to do for the empty text; otherwise one
      token per series, checked for count before any series is touched,
      and then only the policies change. */
  method ParseInterpolation(s: string, series: array<SeriesData>) returns (r: Outcome<ParseError>)
    modifies series
    ensures s == [] ==> r == Pass && series[..] == old(series[..])
    ensures |s| == 1 ==> r == Fail(OutOfRange) && series[..] == old(series[..])
    ensures |s| >= 2 && |InterpolationFields(s)| != series.Length ==>
      r == Fail(SizeMismatch) && series[..] == old(series[..])
    ensures |s| >= 2 && |InterpolationFields(s)| == series.Length ==>
      r == Pass
      && forall i :: 0 <= i < series.Length ==>
           series[i] == old(series[i]).(interpolation := TokenPolicy(InterpolationFields(s)[i]))
  {
    if s == [] {
      return Pass;
    }
    if |s| == 1 {
      return Fail(OutOfRange);
    }
    var fields := SplitOn(s[1..|s| - 1], ";");
    if |fields| != series.Length {
      return Fail(SizeMismatch);
    }
    var i := 0;
    while i < |fields|
      invariant 0 <= i <= |fields|
      invariant forall k :: 0 <= k < i ==> series[k] == old(series[k]).(interpolation := TokenPolicy(fields[k]))
      invariant forall k :: i <= k < series.Length ==> series[k] == old(series[k])
    {
      var tok := Trim(fields[i]);
      if tok == [] {
        series[i] := series[i].(interpolation := Linear);
      } else {
        series[i] := series[i].(interpolation := InterpolationFromString(tok));
      }
      i := i + 1;
    }
    return Pass;
  }

  // ------------------------------------------------------------------
  // eval_value_at
  // ------------------------------------------------------------------

  function Abs(x: real): real
  {
    if x < 0.0 then -x else x
  }

  predicate BeforeStart(sd: SeriesData, t: real)
  {
    sd.times == [] || t < sd.times[0]
  }

  /** The final read values[access_index + 1] stays inside the vector. It
      does not for a one-sample series queried at or after its sample,
      where the C++ reads past the end. */
  predicate Evaluable(sd: SeriesData, t: real)
    requires WellFormed(sd)
  {
    sd.size != 1 || t < sd.times[0]
  }

  /** The scan returns at index k: an exact hit on times[k], or t strictly
      inside [times[k], times[k+1]] under a policy that has a formula
      (Cubic has none, and the scan moves on). */
  predicate Stops(sd: SeriesData, k: nat, t: real)
    requires WellFormed(sd) && k + 1 < sd.size
  {
    sd.times[k] == t || (sd.times[k] < t < sd.times[k + 1] && sd.interpolation != Cubic)
  }

  /** The value returned when the scan stops at k. */
  function ValueAt(sd: SeriesData, k: nat, t: real): real
    requires WellFormed(sd) && k + 1 < sd.size && Stops(sd, k, t)
  {
    var t0, v0, t1, v1 := sd.times[k], sd.values[k], sd.times[k + 1], sd.values[k + 1];
    if t0 == t then v0
    else if sd.interpolation == Zoh then v0
    else if sd.interpolation == NearestNeighbor then (if Abs(t - t0) <= Abs(t - t1) then v0 else v1)
    else
      var dt := t1 - t0;
      if dt == 0.0 then v1 else v0 + (t - t0) / dt * (v1 - v0)
  }

  /** The forward scan from the hint: (value, new hint). */
  function ScanFrom(sd: SeriesData, t: real, hint: nat): (res: (real, nat))
    requires WellFormed(sd) && hint + 1 < sd.size
    ensures hint <= res.1 && res.1 + 2 <= sd.size
    decreases sd.size - hint
  {
    var k := hint + 1;
    if k >= sd.size - 1 then (sd.values[hint + 1], hint)
    else if Stops(sd, k, t) then (ValueAt(sd, k, t), k)
    else ScanFrom(sd, t, k)
  }

  /** The value eval_value_at returns and the record it leaves behind. */
  datatype Evaluation = Evaluation(value: real, series: SeriesData)

  /** What eval_value_at computes. Only the hint changes, it only moves
      forward, and it stays a valid bracket index. */
  function Eval(sd: SeriesData, t: real): (e: Evaluation)
    requires WellFormed(sd) && Evaluable(sd, t)
    ensures WellFormed(e.series)
    ensures e.series == sd.(accessIndex := e.series.accessIndex)
    ensures sd.accessIndex <= e.series.accessIndex
    ensures BeforeStart(sd, t) ==> e == Evaluation(0.0, sd)
  {
    if BeforeStart(sd, t) then Evaluation(0.0, sd)
    else
      var res := ScanFrom(sd, t, sd.accessIndex);
      Evaluation(res.0, sd.(accessIndex := res.1))
  }

  /** eval_value_at as series.hpp writes it: the scan starts one past the
      hint, stores each index it visits as the new hint, and falls back to
      the sample after the hint when it finds nothing. */
  method EvalValueAt(sd: SeriesData, time: real) returns (value: real, updated: SeriesData)
    requires WellFormed(sd) && Evaluable(sd, time)
    ensures Evaluation(value, updated) == Eval(sd, time)
  {
    if sd.times == [] || time < sd.times[0] {
      return 0.0, sd;
    }
    var access := sd.accessIndex;
    var index := access + 1;
    while index < sd.size - 1
      invariant index == access + 1 && access + 2 <= sd.size
      invariant ScanFrom(sd, time, access) == ScanFrom(sd, time, sd.accessIndex)
      decreases sd.size - index
    {
      var t0, v0 := sd.times[index], sd.values[index];
      var t1, v1 := sd.times[index + 1], sd.values[index + 1];
      ghost var previous := access;
      access := index;
      if t0 == time {
        return v0, sd.(accessIndex := access);
      } else if t0 < time && t1 > time {
        if sd.interpolation == Zoh {
          return v0, sd.(accessIndex := access);
        }
        if sd.interpolation == NearestNeighbor {
          var nearest := if Abs(time - t0) <= Abs(time - t1) then v0 else v1;
          return nearest, sd.(accessIndex := access);
        }
        if sd.interpolation == Linear {
          var dt := t1 - t0;
          var linear;
          if dt == 0.0 {
            linear := v1;
          } else {
            var alpha := (time - t0) / dt;
            linear := v0 + alpha * (v1 - v0);
          }
          return linear, sd.(accessIndex := access);
        }
      }
      assert ScanFrom(sd, time, previous) == ScanFrom(sd, time, access);
      index := index + 1;
    }
    return sd.values[access + 1], sd.(accessIndex := access);
  }

  predicate Between(x: real, a: real, b: real)
  {
    (a <= x <= b) || (b <= x <= a)
  }

  /** What the value at a stop means: the sample itself on an exact hit;
      inside a bracket, the left sample for ZOH, the nearer sample for NN
      (ties to the left), and for Linear the point on the line through both
      samples, which lies between them. */
  lemma StopValueMeaning(sd: SeriesData, k: nat, t: real)
    requires WellFormed(sd) && k + 1 < sd.size && Stops(sd, k, t)
    ensures var t0, v0, t1, v1 := sd.times[k], sd.values[k], sd.times[k + 1], sd.values[k + 1];
      var v := ValueAt(sd, k, t);
      && (t0 == t ==> v == v0)
      && (t0 != t ==> t0 < t < t1 && sd.interpolation != Cubic)
      && (t0 != t && sd.interpolation == Zoh ==> v == v0)
      && (t0 != t && sd.interpolation == NearestNeighbor ==>
            (t - t0 <= t1 - t && v == v0) || (t - t0 > t1 - t && v == v1))
      && (t0 != t && sd.interpolation == Linear ==>
            (v - v0) * (t1 - t0) == (t - t0) * (v1 - v0) && Between(v, v0, v1))
  {
    var t0, v0, t1, v1 := sd.times[k], sd.values[k], sd.times[k + 1], sd.values[k + 1];
    if t0 != t && sd.interpolation == Linear {
      assert t0 < t < t1;
      var dt := t1 - t0;
      var alpha := (t - t0) / dt;
      assert 0.0 < t - t0 < dt;
      FractionBounds(t - t0, dt);
      assert alpha * dt == t - t0;
      var v := ValueAt(sd, k, t);
      var step := alpha * (v1 - v0);
      assert v == v0 + step;
      assert step * dt == (alpha * dt) * (v1 - v0);
      assert (v - v0) * dt == (t - t0) * (v1 - v0);
      LinearPointBetween(v0, v1, alpha);
    }
  }

  /** A positive number divided by a larger one is strictly between 0 and 1. */
  lemma FractionBounds(a: real, b: real)
    requires 0.0 < a < b
    ensures 0.0 < a / b < 1.0
  {
    var q := a / b;
    assert q * b == a;
    assert (1.0 - q) * b == b - q * b;
    PositiveFactor(q, b);
    PositiveFactor(1.0 - q, b);
  }

  /** The point a fraction alpha of the way from v0 to v1 lies between them. */
  lemma LinearPointBetween(v0: real, v1: real, alpha: real)
    requires 0.0 < alpha < 1.0
    ensures Between(v0 + alpha * (v1 - v0), v0, v1)
  {
    var d := v1 - v0;
    var s := alpha * d;
    ScaledBetween(alpha, d);
    assert (0.0 <= s <= d) || (d <= s <= 0.0);
    assert v0 + d == v1;
  }

  /** With d positive, x * d is positive only for x positive. */
  lemma PositiveFactor(x: real, d: real)
    requires 0.0 < d
    ensures 0.0 < x * d ==> 0.0 < x
  {
    if x <= 0.0 {
      assert x * d <= 0.0;
    }
  }

  lemma ProductNonnegative(a: real, b: real)
    requires 0.0 <= a && 0.0 <= b
    ensures 0.0 <= a * b
  {
  }

  /** A fraction strictly between 0 and 1 of d lies between 0 and d. */
  lemma ScaledBetween(alpha: real, d: real)
    requires 0.0 < alpha < 1.0
    ensures Between(alpha * d, 0.0, d)
  {
    if d >= 0.0 {
      ProductNonnegative(alpha, d);
      ProductNonnegative(1.0 - alpha, d);
      assert (1.0 - alpha) * d == d - alpha * d;
    } else {
      ProductNonnegative(alpha, -d);
      ProductNonnegative(1.0 - alpha, -d);
      assert alpha * (-d) == -(alpha * d);
      assert (1.0 - alpha) * (-d) == alpha * d - d;
    }
  }

  /** The scan from a hint returns at the first stop after the hint, or,
      when there is none, ends at the last bracket and holds the last
      sample. */
  lemma {:induction false} ScanFromFindsFirstStop(sd: SeriesData, t: real, hint: nat)
    requires WellFormed(sd) && hint + 1 < sd.size
    ensures var res := ScanFrom(sd, t, hint);
      && (forall k :: hint < k < res.1 ==> !Stops(sd, k, t))
      && ((hint < res.1 && Stops(sd, res.1, t) && res.0 == ValueAt(sd, res.1, t))
          || (res.1 + 2 == sd.size && res.0 == sd.values[sd.size - 1]
              && forall k :: hint < k && k + 1 < sd.size ==> !Stops(sd, k, t)))
    decreases sd.size - hint
  {
    var k := hint + 1;
    if k >= sd.size - 1 {
    } else if Stops(sd, k, t) {
    } else {
      ScanFromFindsFirstStop(sd, t, k);
    }
  }

  /** eval_value_at, stated without the scan: 0 before the first sample;
      otherwise the new hint is the first index after the old one where the
      scan stops, and the value is the value there; when no index after the
      hint stops, the hint moves to the last bracket and the value is the
      last sample, whatever the policy. */
  lemma EvalCharacterized(sd: SeriesData, t: real)
    requires WellFormed(sd) && Evaluable(sd, t)
    ensures var e := Eval(sd, t); var h, h' := sd.accessIndex, e.series.accessIndex;
      && (BeforeStart(sd, t) ==> e.value == 0.0 && h' == h)
      && (!BeforeStart(sd, t) ==>
            && (forall k :: h < k < h' ==> !Stops(sd, k, t))
            && ((h < h' && Stops(sd, h', t) && e.value == ValueAt(sd, h', t))
                || (h' + 2 == sd.size && e.value == sd.values[sd.size - 1]
                    && forall k :: h < k && k + 1 < sd.size ==> !Stops(sd, k, t))))
  {
    if !BeforeStart(sd, t) {
      ScanFromFindsFirstStop(sd, t, sd.accessIndex);
    }
  }

  /** Under Cubic the bracket branch never returns: the result is an exact
      hit, the last sample, or 0 before the start. */
  lemma CubicHitsOrHoldsLast(sd: SeriesData, t: real)
    requires WellFormed(sd) && Evaluable(sd, t) && sd.interpolation == Cubic
    ensures var e := Eval(sd, t);
      || (BeforeStart(sd, t) && e.value == 0.0)
      || (sd.times[e.series.accessIndex] == t && e.value == sd.values[e.series.accessIndex])
      || e.value == sd.values[sd.size - 1]
  {
    EvalCharacterized(sd, t);
  }

  /** The series (0,0), (1,4), (2,3), (3,4) under Linear, hint fresh. */
  const LinearExample := SeriesData(Linear, 0, 4, [0.0, 1.0, 2.0, 3.0], [0.0, 4.0, 3.0, 4.0])

  /** 3.5 halfway between (1,4) and (2,3); 4 after the end. The first
      bracket is never examined with a fresh hint (the scan starts at index
      1), so the query at the first sample time returns the last sample. */
  lemma LinearExampleValues()
    ensures Eval(LinearExample, 1.5).value == 3.5
    ensures Eval(LinearExample, 5.5).value == 4.0
    ensures Eval(LinearExample, 0.0).value == 4.0
  {
    assert Stops(LinearExample, 1, 1.5);
    assert !Stops(LinearExample, 1, 5.5) && !Stops(LinearExample, 2, 5.5);
    assert !Stops(LinearExample, 1, 0.0) && !Stops(LinearExample, 2, 0.0);
  }

  /** The time column of "[0;..][1;..][2;..][2.5;..][3;..]": querying 2.5
      twice in a row gives 2.5 and then 3, because the first query leaves
      the hint on the exact hit and the second scan starts after it. */
  const TimeAxisExample := SeriesData(Linear, 0, 5, [0.0, 1.0, 2.0, 2.5, 3.0], [0.0, 1.0, 2.0, 2.5, 3.0])

  lemma RepeatedQueryDependsOnHint()
    ensures var first := Eval(TimeAxisExample, 2.5);
      first.value == 2.5 && Eval(first.series, 2.5).value == 3.0
  {
    assert !Stops(TimeAxisExample, 1, 2.5) && !Stops(TimeAxisExample, 2, 2.5);
    assert Stops(TimeAxisExample, 3, 2.5);
  }
}
