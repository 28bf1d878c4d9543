/** The SSP parameter-set builder of ssp_parameter_builder.py: a named list
    of typed parameters, appended to in place. A type is accepted after
    capitalisation when it is one of String, Real, Integer and Boolean;
    anything else raises ValueError (here a Fail outcome) and appends
    nothing. Characters are cased as ASCII. */
module SspParameters {
  import opened Wrappers
  import opened Strings

  datatype Parameter = Parameter(name: string, typ: string, value: Option<string>)

  /** The ValueError raised for an unsupported type, naming the type as given. */
  datatype BuildError = UnsupportedType(typ: string)

  const SupportedTypes: set<string> := {"String", "Real", "Integer", "Boolean"}

  function ToUpper(c: char): char
  {
    if 'a' <= c <= 'z' then (c as int - 32) as char else c
  }

  /** str.capitalize: the first character upper case, the rest lower case. */
  function Capitalize(s: string): (r: string)
    ensures |r| == |s|
    ensures |s| > 0 ==> r[0] == ToUpper(s[0])
    ensures forall i :: 1 <= i < |s| ==> r[i] == ToLower(s[i])
  {
    if s == [] then [] else [ToUpper(s[0])] + seq(|s| - 1, i requires 0 <= i < |s| - 1 => ToLower(s[i + 1]))
  }

  /** The type add_ stores when it accepts t. */
  predicate Accepted(t: string)
  {
    Capitalize(t) in SupportedTypes
  }

  /** Capitalising forgets the case of the input: strings that differ only
      in case capitalise alike, and the result differs from the input only
      in case. */
  lemma CapitalizeIgnoresCase(a: string, b: string)
    ensures EqualIgnoringCase(Capitalize(a), a)
    ensures EqualIgnoringCase(a, b) ==> Capitalize(a) == Capitalize(b)
  {
    if EqualIgnoringCase(a, b) && a != [] {
      assert ToLower(a[0]) == ToLower(b[0]);
      assert ToUpper(a[0]) == ToUpper(b[0]);
    }
  }

  /** A string already in capitalised form is left as it is. */
  lemma CapitalizeFixes(s: string)
    requires |s| > 0 && !('a' <= s[0] <= 'z') && forall i :: 1 <= i < |s| ==> !('A' <= s[i] <= 'Z')
    ensures Capitalize(s) == s
  {
    var r := Capitalize(s);
    forall i | 0 <= i < |s|
      ensures r[i] == s[i]
    {
    }
  }

  /** The supported names are their own capitalisation. */
  lemma SupportedAreCapitalized()
    ensures forall n :: n in SupportedTypes ==> Capitalize(n) == n
  {
    CapitalizeFixes("String");
    CapitalizeFixes("Real");
    CapitalizeFixes("Integer");
    CapitalizeFixes("Boolean");
  }

  /** A type is accepted exactly when it names a supported type in any
      mix of cases, and it is then stored under that name. */
  lemma AcceptedIff(t: string)
    ensures Accepted(t) <==> exists n :: n in SupportedTypes && EqualIgnoringCase(t, n)
    ensures forall n :: n in SupportedTypes && EqualIgnoringCase(t, n) ==> Capitalize(t) == n
  {
    SupportedAreCapitalized();
    CapitalizeIgnoresCase(t, t);
    EqualIgnoringCaseIsEquivalence(t, Capitalize(t), t);
    forall n | n in SupportedTypes && EqualIgnoringCase(t, n)
      ensures Capitalize(t) == n
    {
      CapitalizeIgnoresCase(t, n);
    }
    if Accepted(t) {
      assert Capitalize(t) in SupportedTypes && EqualIgnoringCase(t, Capitalize(t));
    }
  }

  /** "real", "REAL" and "rEaL" are all stored as "Real". */
  lemma RealInAnyCase()
    ensures Capitalize("real") == "Real" && Capitalize("REAL") == "Real" && Capitalize("rEaL") == "Real"
  {
    CapitalizeFixes("Real");
    assert EqualIgnoringCase("real", "Real") by {
      assert ToLower('r') == ToLower('R');
    }
    assert EqualIgnoringCase("REAL", "Real") by {
      assert ToLower('E') == 'e' && ToLower('A') == 'a' && ToLower('L') == 'l';
    }
    assert EqualIgnoringCase("rEaL", "Real") by {
      assert ToLower('r') == ToLower('R') && ToLower('E') == 'e' && ToLower('L') == 'l';
    }
    CapitalizeIgnoresCase("real", "Real");
    CapitalizeIgnoresCase("REAL", "Real");
    CapitalizeIgnoresCase("rEaL", "Real");
  }

  /** "Float" and the empty type are rejected. */
  lemma UnsupportedExamples()
    ensures !Accepted("Float") && !Accepted("")
  {
    assert |Capitalize("Float")| == 5;
    assert |Capitalize("")| == 0;
  }

  /** The parameter add_ appends for an accepted item. */
  function Normalised(p: Parameter): Parameter
  {
    p.(typ := Capitalize(p.typ))
  }

  /** The position of the first item whose type is rejected, or the number
      of items when all are accepted. */
  function FirstRejected(items: seq<Parameter>): (k: nat)
    ensures k <= |items|
    ensures forall i :: 0 <= i < k ==> Accepted(items[i].typ)
    ensures k < |items| ==> !Accepted(items[k].typ)
    decreases |items|
  {
    if items == [] then 0
    else if !Accepted(items[0].typ) then 0
    else 1 + FirstRejected(items[1..])
  }

  /** The first k items as add_ appends them. */
  function NormalisedPrefix(items: seq<Parameter>, k: nat): (ps: seq<Parameter>)
    requires k <= |items|
    ensures |ps| == k && forall i :: 0 <= i < k ==> ps[i] == Normalised(items[i])
  {
    if k == 0 then [] else NormalisedPrefix(items, k - 1) + [Normalised(items[k - 1])]
  }

  /** One good item, one bad and one good: only the first is applied. */
  lemma ExtendStopsAtFirstRejected()
    ensures FirstRejected([Parameter("a", "real", None), Parameter("b", "Float", None), Parameter("c", "Integer", None)]) == 1
  {
    var items := [Parameter("a", "real", None), Parameter("b", "Float", None), Parameter("c", "Integer", None)];
    RealInAnyCase();
    UnsupportedExamples();
    assert items[1..][0].typ == "Float";
  }

  class ParameterSetBuilder {
    var name: string
    var params: seq<Parameter>

    /** __init__ */
    constructor (name: string := "Default")
      ensures this.name == name && params == []
    {
      this.name := name;
      params := [];
    }

    /** add_: append one parameter under its capitalised type, or reject
        the type and leave the list as it was. */
    method Add(name: string, typ: string, value: Option<string> := None) returns (r: Outcome<BuildError>)
      modifies this`params
      ensures Accepted(typ) ==> r == Pass && params == old(params) + [Parameter(name, Capitalize(typ), value)]
      ensures !Accepted(typ) ==> r == Fail(UnsupportedType(typ)) && params == old(params)
    {
      var normalised := Capitalize(typ);
      if normalised !in SupportedTypes {
        return Fail(UnsupportedType(typ));
      }
      params := params + [Parameter(name, normalised, value)];
      return Pass;
    }

    /** add_string */
    method AddString(name: string, value: string := "") returns (r: Outcome<BuildError>)
      modifies this`params
      ensures r == Pass && params == old(params) + [Parameter(name, "String", Some(value))]
    {
      SupportedAreCapitalized();
      r := Add(name, "String", Some(value));
    }

    /** add_real */
    method AddReal(name: string, value: string := "0") returns (r: Outcome<BuildError>)
      modifies this`params
      ensures r == Pass && params == old(params) + [Parameter(name, "Real", Some(value))]
    {
      SupportedAreCapitalized();
      r := Add(name, "Real", Some(value));
    }

    /** add_integer */
    method AddInteger(name: string, value: string := "0") returns (r: Outcome<BuildError>)
      modifies this`params
      ensures r == Pass && params == old(params) + [Parameter(name, "Integer", Some(value))]
    {
      SupportedAreCapitalized();
      r := Add(name, "Integer", Some(value));
    }

    /** add_boolean */
    method AddBoolean(name: string, value: string := "false") returns (r: Outcome<BuildError>)
      modifies this`params
      ensures r == Pass && params == old(params) + [Parameter(name, "Boolean", Some(value))]
    {
      SupportedAreCapitalized();
      r := Add(name, "Boolean", Some(value));
    }

    /** extend: add the items in order. The first rejected item raises, and
        the items before it stay appended. */
    method Extend(items: seq<Parameter>) returns (r: Outcome<BuildError>)
      modifies this`params
      ensures var k := FirstRejected(items);
        && params == old(params) + NormalisedPrefix(items, k)
        && (r == Pass <==> k == |items|)
        && (k < |items| ==> r == Fail(UnsupportedType(items[k].typ)))
    {
      var i := 0;
      while i < |items|
        invariant 0 <= i <= |items| && i <= FirstRejected(items)
        invariant params == old(params) + NormalisedPrefix(items, i)
      {
        var p := items[i];
        ghost var before := params;
        var outcome := Add(p.name, p.typ, p.value);
        if outcome.Fail? {
          assert i == FirstRejected(items);
          return outcome;
        }
        assert params == before + [Normalised(p)];
        assert params == old(params) + (NormalisedPrefix(items, i) + [Normalised(items[i])]);
        i := i + 1;
      }
      return Pass;
    }
  }
}
