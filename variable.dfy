/** The text format of variable.py that the generator uses to describe
    scenario outputs: one variable per line, written
    "name;interpolation;t0,v0;t1,v1;...".

    Python's float() and the f-string rendering of a float are not part of
    this model; they come in as a NumberCodec, and the round trips below
    hold for the numbers whose rendering parses back (FaithfulFor). Python
    exceptions become the PyError values of a Result. */
module ScenarioVariables {
  import opened Wrappers
  import opened Strings

  /** float(text) (None where it raises ValueError) and f"{x}". */
  datatype NumberCodec = NumberCodec(parse: string -> Option<real>, format: real -> string)

  /** The rendering of x is read back by float(), after strip(), as x, and
      holds none of the separators of the format. */
  ghost predicate FaithfulFor(c: NumberCodec, x: real)
  {
    c.parse(Trimmed(c.format(x))) == Some(x)
      && ',' !in c.format(x) && ';' !in c.format(x) && '\n' !in c.format(x)
  }

  datatype PyError = IndexError | ValueError

  /** A variable: its name, its interpolation text and its points, each a
      list of numbers that is meant to be a (time, value) pair. */
  datatype Variable = Variable(name: string, interpolation: string, series: seq<seq<real>>)

  /** Every number of the variable's points renders faithfully. */
  ghost predicate FaithfulOn(c: NumberCodec, v: Variable)
  {
    forall i, k :: 0 <= i < |v.series| && 0 <= k < |v.series[i]| ==> FaithfulFor(c, v.series[i][k])
  }

  /** start_value: the value of the first point. */
  function StartValue(v: Variable): (r: Result<real, PyError>)
    ensures r.Success? <==> |v.series| >= 1 && |v.series[0]| >= 2
    ensures r.Failure? ==> r.error == IndexError
  {
    if |v.series| == 0 || |v.series[0]| < 2 then Failure(IndexError)
    else Success(v.series[0][1])
  }

  // ------------------------------------------------------------------
  // from_str
  // ------------------------------------------------------------------

  /** A Python list comprehension [f(x) for x in xs]: f applied left to
      right, the first exception raised ends it. */
  function MapAll<A, B>(xs: seq<A>, f: A -> Result<B, PyError>): (r: Result<seq<B>, PyError>)
    ensures r.Success? <==> forall i :: 0 <= i < |xs| ==> f(xs[i]).Success?
    ensures r.Success? ==>
      (|r.value| == |xs| && forall i :: 0 <= i < |xs| ==> Success(r.value[i]) == f(xs[i]))
    ensures r.Failure? ==>
      exists i :: 0 <= i < |xs| && f(xs[i]) == Failure(r.error) && forall j :: 0 <= j < i ==> f(xs[j]).Success?
    decreases |xs|
  {
    if xs == [] then Success([])
    else
      match f(xs[0])
      case Failure(e) => Failure(e)
      case Success(y) =>
        var rest := MapAll(xs[1..], f);
        assert forall i :: 1 <= i < |xs| ==> xs[i] == xs[1..][i - 1];
        match rest
        case Failure(e) => Failure(e)
        case Success(ys) => Success([y] + ys)
  }

  /** float(x.strip()) */
  function ParseNumber(text: string, c: NumberCodec): Result<real, PyError>
  {
    match c.parse(Trimmed(text))
    case None => Failure(ValueError)
    case Some(x) => Success(x)
  }

  /** One coordinate: its ","-separated numbers; their count is not checked. */
  function ParseCoordinate(text: string, c: NumberCodec): Result<seq<real>, PyError>
  {
    MapAll(Split(text, ","), x => ParseNumber(x, c))
  }

  /** The coordinates in order; the first that fails raises its error. */
  function ParseCoordinates(texts: seq<string>, c: NumberCodec): Result<seq<seq<real>>, PyError>
  {
    MapAll(texts, t => ParseCoordinate(t, c))
  }

  /** parts[2:]: empty when there are fewer than three parts. */
  function Coordinates(parts: seq<string>): seq<string>
  {
    if |parts| >= 2 then parts[2..] else []
  }

  /** from_str: the coordinates are converted first, so a bad number wins
      over a missing interpolation field; then parts[0] and parts[1] are
      read, which raises IndexError when there is no ";" at all. */
  function FromStr(s: string, c: NumberCodec): Result<Variable, PyError>
  {
    var parts := Split(s, ";");
    match ParseCoordinates(Coordinates(parts), c)
    case Failure(e) => Failure(e)
    case Success(series) =>
      if |parts| < 2 then Failure(IndexError)
      else Success(Variable(parts[0], parts[1], series))
  }

  /** What from_str accepts and builds: the first two ";" fields are the
      name and the interpolation, each later field is one point, and each
      point has as many numbers as its field has ","-separated pieces. */
  lemma FromStrShape(s: string, c: NumberCodec)
    ensures var parts := Split(s, ";"); var r := FromStr(s, c);
      && (r.Success? <==> |parts| >= 2 && forall i :: 2 <= i < |parts| ==> ParseCoordinate(parts[i], c).Success?)
      && (r.Success? ==>
            && r.value.name == parts[0] && r.value.interpolation == parts[1]
            && |r.value.series| == |parts| - 2
            && forall i :: 0 <= i < |r.value.series| ==> |r.value.series[i]| == |Split(parts[i + 2], ",")|)
      && (|parts| < 2 ==> r == Failure(IndexError))
  {
    var parts := Split(s, ";");
    if |parts| >= 2 {
      assert forall i :: 2 <= i < |parts| ==> parts[i] == parts[2..][i - 2];
    }
  }

  // ------------------------------------------------------------------
  // to_str
  // ------------------------------------------------------------------

  /** str.join: the empty list joins to the empty string. */
  function PyJoin(parts: seq<string>, d: string): string
  {
    if parts == [] then "" else Join(parts, d)
  }

  /** f"{x[0]},{x[1]}": IndexError on a point with fewer than two numbers;
      numbers past the second are dropped. */
  function FormatPoint(p: seq<real>, c: NumberCodec): Result<string, PyError>
  {
    if |p| < 2 then Failure(IndexError) else Success(c.format(p[0]) + "," + c.format(p[1]))
  }

  /** The points rendered in order; the first short point raises. */
  function FormatPoints(ps: seq<seq<real>>, c: NumberCodec): Result<seq<string>, PyError>
  {
    MapAll(ps, p => FormatPoint(p, c))
  }

  /** to_str: "name;interpolation;" followed by the points joined by ";". */
  function ToStr(v: Variable, c: NumberCodec): Result<string, PyError>
  {
    match FormatPoints(v.series, c)
    case Failure(e) => Failure(e)
    case Success(points) => Success(v.name + ";" + v.interpolation + ";" + PyJoin(points, ";"))
  }

  /** A variable whose text fields hold no ";" and whose points are all
      pairs, with at least one point. */
  predicate Printable(v: Variable)
  {
    ';' !in v.name && ';' !in v.interpolation && |v.series| >= 1
    && forall i :: 0 <= i < |v.series| ==> |v.series[i]| == 2
  }

  /** Joining a list with a head: the head, the delimiter, the rest joined. */
  lemma JoinCons(a: string, rest: seq<string>, d: string)
    requires |rest| >= 1
    ensures Join([a] + rest, d) == a + d + Join(rest, d)
  {
    assert ([a] + rest)[1..] == rest;
  }

  /** The text of a point splits on "," into the renderings of its two
      numbers, which parse back to the point. */
  lemma PointRoundTrip(p: seq<real>, c: NumberCodec)
    requires |p| == 2 && FaithfulFor(c, p[0]) && FaithfulFor(c, p[1])
    ensures FormatPoint(p, c).Success?
    ensures ';' !in FormatPoint(p, c).value && '\n' !in FormatPoint(p, c).value
    ensures ParseCoordinate(FormatPoint(p, c).value, c) == Success(p)
  {
    var a, b := c.format(p[0]), c.format(p[1]);
    JoinCons(a, [b], ",");
    JoinThenSplit([a, b], ",");
    var pieces := Split(a + "," + b, ",");
    assert pieces == [a, b];
    assert ParseNumber(a, c) == Success(p[0]) && ParseNumber(b, c) == Success(p[1]);
    assert ParseCoordinate(a + "," + b, c).value == [p[0], p[1]];
    assert [p[0], p[1]] == p;
  }

  /** Joining pieces free of a character with a delimiter free of it gives
      a text free of it. */
  lemma {:induction false} JoinAvoids(parts: seq<string>, d: string, ch: char)
    requires |parts| >= 1 && ch !in d && forall p :: p in parts ==> ch !in p
    ensures ch !in Join(parts, d)
    decreases |parts|
  {
    if |parts| > 1 {
      assert parts[0] in parts;
      assert forall p :: p in parts[1..] ==> p in parts;
      JoinAvoids(parts[1..], d, ch);
    }
  }

  /** The text to_str writes is the ";"-join of the name, the
      interpolation and the rendered points. */
  lemma ToStrIsJoin(v: Variable, c: NumberCodec)
    requires FormatPoints(v.series, c).Success? && |v.series| >= 1
    ensures ToStr(v, c) == Success(Join([v.name, v.interpolation] + FormatPoints(v.series, c).value, ";"))
  {
    var points := FormatPoints(v.series, c).value;
    JoinCons(v.interpolation, points, ";");
    JoinCons(v.name, [v.interpolation] + points, ";");
    assert [v.name] + ([v.interpolation] + points) == [v.name, v.interpolation] + points;
    var j := Join(points, ";");
    assert PyJoin(points, ";") == j;
    assert v.name + ";" + v.interpolation + ";" + j == v.name + ";" + (v.interpolation + ";" + j);
  }

  /** Each formatted point of a printable variable holds neither ";" nor a
      line break, and the points parse back to the series. */
  lemma PointsOfPrintable(v: Variable, c: NumberCodec)
    requires FaithfulOn(c, v) && Printable(v)
    ensures FormatPoints(v.series, c).Success?
    ensures var points := FormatPoints(v.series, c).value;
      && (forall i :: 0 <= i < |points| ==> ';' !in points[i] && '\n' !in points[i])
      && ParseCoordinates(points, c) == Success(v.series)
  {
    var points := FormatPoints(v.series, c).value;
    forall i | 0 <= i < |points|
      ensures ';' !in points[i] && '\n' !in points[i]
      ensures ParseCoordinate(points[i], c) == Success(v.series[i])
    {
      PointRoundTrip(v.series[i], c);
    }
    assert ParseCoordinates(points, c).value == v.series;
  }

  /** The pieces to_str joins hold no ";", and no line break when the name
      and the interpolation hold none. */
  lemma PiecesOfPrintable(v: Variable, c: NumberCodec)
    requires FaithfulOn(c, v) && Printable(v)
    ensures FormatPoints(v.series, c).Success?
    ensures var parts := [v.name, v.interpolation] + FormatPoints(v.series, c).value;
      && (forall p :: p in parts ==> ';' !in p)
      && ('\n' !in v.name && '\n' !in v.interpolation ==> forall p :: p in parts ==> '\n' !in p)
      && ParseCoordinates(parts[2..], c) == Success(v.series)
  {
    PointsOfPrintable(v, c);
    var points := FormatPoints(v.series, c).value;
    var parts := [v.name, v.interpolation] + points;
    assert parts[2..] == points;
    forall p | p in parts
      ensures p == v.name || p == v.interpolation || (';' !in p && '\n' !in p)
    {
      var k :| 0 <= k < |parts| && parts[k] == p;
      if k >= 2 {
        assert p == points[k - 2];
      }
    }
  }

  /** A printable variable is written without error and from_str reads
      back exactly the same variable. */
  lemma ToStrRoundTrip(v: Variable, c: NumberCodec)
    requires FaithfulOn(c, v) && Printable(v)
    ensures ToStr(v, c).Success?
    ensures '\n' !in v.name && '\n' !in v.interpolation ==> '\n' !in ToStr(v, c).value
    ensures FromStr(ToStr(v, c).value, c) == Success(v)
  {
    PiecesOfPrintable(v, c);
    ToStrIsJoin(v, c);
    var parts := [v.name, v.interpolation] + FormatPoints(v.series, c).value;
    JoinThenSplit(parts, ";");
    assert Split(ToStr(v, c).value, ";") == parts;
    assert Coordinates(parts) == parts[2..];
    if '\n' !in v.name && '\n' !in v.interpolation {
      JoinAvoids(parts, ";", '\n');
    }
  }

  /** A variable with no points prints as "name;interpolation;", whose last
      field is an empty coordinate that float() rejects: it does not come
      back. */
  lemma EmptySeriesDoesNotRoundTrip(name: string, interpolation: string, c: NumberCodec)
    requires ';' !in name && ';' !in interpolation && c.parse("") == None
    ensures ToStr(Variable(name, interpolation, []), c) == Success(name + ";" + interpolation + ";")
    ensures FromStr(name + ";" + interpolation + ";", c) == Failure(ValueError)
  {
    var parts := [name, interpolation, ""];
    JoinCons(interpolation, [""], ";");
    JoinCons(name, [interpolation, ""], ";");
    assert [name] + [interpolation, ""] == parts;
    assert name + ";" + (interpolation + ";" + "") == name + ";" + interpolation + ";";
    assert FormatPoints([], c) == Success([]);
    assert name + ";" + interpolation + ";" + "" == name + ";" + interpolation + ";";
    JoinThenSplit(parts, ";");
    assert Coordinates(parts) == [""];
    assert Split("", ",") == [""];
    assert Trimmed("") == "";
    assert ParseCoordinate("", c) == Failure(ValueError);
  }

  /** The start value survives the round trip. */
  lemma StartValueRoundTrip(v: Variable, c: NumberCodec)
    requires FaithfulOn(c, v) && Printable(v)
    ensures ToStr(v, c).Success? && FromStr(ToStr(v, c).value, c).Success?
    ensures StartValue(FromStr(ToStr(v, c).value, c).value) == Success(v.series[0][1])
  {
    ToStrRoundTrip(v, c);
  }

  /** A codec that knows only the numbers 0 and 1, rendered as "0" and
      "1"; everything else renders as "?", which does not parse. */
  const BinaryCodec: NumberCodec := NumberCodec(
    text => if text == "0" then Some(0.0) else if text == "1" then Some(1.0) else None,
    x => if x == 0.0 then "0" else if x == 1.0 then "1" else "?")

  /** 0 and 1 render faithfully under BinaryCodec; 2 does not. */
  lemma BinaryCodecFaithful()
    ensures FaithfulFor(BinaryCodec, 0.0) && FaithfulFor(BinaryCodec, 1.0)
    ensures !FaithfulFor(BinaryCodec, 2.0)
  {
    TrimmedFixesNoEdgeSpace("0");
    TrimmedFixesNoEdgeSpace("1");
    TrimmedFixesNoEdgeSpace("?");
  }

  /** to_str writes the point (0, 1) of variable y under BinaryCodec as
      "y;L;0,1". */
  lemma BinaryCodecWrites()
    ensures ToStr(Variable("y", "L", [[0.0, 1.0]]), BinaryCodec) == Success("y;L;0,1")
  {
    var v := Variable("y", "L", [[0.0, 1.0]]);
    var point := BinaryCodec.format(0.0) + "," + BinaryCodec.format(1.0);
    assert point == "0,1";
    var points := FormatPoints(v.series, BinaryCodec);
    assert FormatPoint(v.series[0], BinaryCodec) == Success(point);
    assert points.Success? && |points.value| == 1 && points.value[0] == point;
    assert points.value == [point];
    assert PyJoin([point], ";") == point;
    assert "y" + ";" + "L" + ";" + "0,1" == "y;L;0,1";
  }

  /** The hypothesis of the round trips can be met: the point (0, 1)
      renders faithfully under BinaryCodec, and "y;L;0,1" reads back as the
      variable that was written. */
  lemma BinaryCodecRoundTrip()
    ensures FaithfulOn(BinaryCodec, Variable("y", "L", [[0.0, 1.0]]))
    ensures FromStr("y;L;0,1", BinaryCodec) == Success(Variable("y", "L", [[0.0, 1.0]]))
  {
    var v := Variable("y", "L", [[0.0, 1.0]]);
    BinaryCodecFaithful();
    assert FaithfulOn(BinaryCodec, v);
    ToStrRoundTrip(v, BinaryCodec);
    BinaryCodecWrites();
  }

  // ------------------------------------------------------------------
  // Variables: one variable per line
  // ------------------------------------------------------------------

  /** from_str on each line in order; the first failure raises. */
  function FromLines(lines: seq<string>, c: NumberCodec): Result<seq<Variable>, PyError>
  {
    MapAll(lines, l => FromStr(l, c))
  }

  /** Variables.from_string */
  function FromString(s: string, c: NumberCodec): Result<seq<Variable>, PyError>
  {
    FromLines(Split(s, "\n"), c)
  }

  /** to_str on each variable in order; the first failure raises. */
  function ToLines(vs: seq<Variable>, c: NumberCodec): Result<seq<string>, PyError>
  {
    MapAll(vs, v => ToStr(v, c))
  }

  /** Variables.to_string */
  function ToString(vs: seq<Variable>, c: NumberCodec): Result<string, PyError>
  {
    match ToLines(vs, c)
    case Failure(e) => Failure(e)
    case Success(lines) => Success(PyJoin(lines, "\n"))
  }

  /** A non-empty list of printable variables whose text fields hold no
      line break is written and read back unchanged, so its length
      survives too. */
  lemma ToStringRoundTrip(vs: seq<Variable>, c: NumberCodec)
    requires |vs| >= 1
    requires forall i :: 0 <= i < |vs| ==>
      FaithfulOn(c, vs[i]) && Printable(vs[i]) && '\n' !in vs[i].name && '\n' !in vs[i].interpolation
    ensures ToString(vs, c).Success?
    ensures FromString(ToString(vs, c).value, c) == Success(vs)
  {
    LinesRoundTrip(vs, c);
    var lines := ToLines(vs, c).value;
    JoinThenSplit(lines, "\n");
    assert Split(ToString(vs, c).value, "\n") == lines;
    assert FromLines(lines, c).value == vs;
  }

  /** Each line to_string writes is free of line breaks and reads back as
      its variable. */
  lemma LinesRoundTrip(vs: seq<Variable>, c: NumberCodec)
    requires forall i :: 0 <= i < |vs| ==>
      FaithfulOn(c, vs[i]) && Printable(vs[i]) && '\n' !in vs[i].name && '\n' !in vs[i].interpolation
    ensures ToLines(vs, c).Success?
    ensures forall p :: p in ToLines(vs, c).value ==> '\n' !in p
    ensures forall i :: 0 <= i < |vs| ==> FromStr(ToLines(vs, c).value[i], c) == Success(vs[i])
  {
    forall i | 0 <= i < |vs|
      ensures ToStr(vs[i], c).Success? && '\n' !in ToStr(vs[i], c).value
      ensures FromStr(ToStr(vs[i], c).value, c) == Success(vs[i])
    {
      ToStrRoundTrip(vs[i], c);
    }
    var lines := ToLines(vs, c).value;
    forall p | p in lines
      ensures '\n' !in p
    {
      var i :| 0 <= i < |lines| && lines[i] == p;
    }
  }

  /** The empty text is one empty line, which has no ";" and so raises
      IndexError: the empty list does not come back. */
  lemma EmptyListDoesNotRoundTrip(c: NumberCodec)
    ensures ToString([], c) == Success("")
    ensures FromString("", c) == Failure(IndexError)
  {
    assert Split("", "\n") == [""];
    assert Split("", ";") == [""];
    assert Coordinates([""]) == [];
  }
}
