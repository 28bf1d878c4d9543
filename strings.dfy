/** The string helpers of the scenario engine (string.hpp): trim, iequals,
    parse_double_opt and split. Each C++ helper loops over its input without
    changing it, so each has a specification function here and, where the
    C++ works with a loop, a method that runs that loop and is proved
    against the function. */
module Strings {
  import opened Wrappers

  /** C's isspace in the "C" locale. */
  predicate IsSpace(c: char) {
    c == ' ' || c == '\t' || c == '\n' || c == '\U{000B}' || c == '\U{000C}' || c == '\r'
  }

  predicate AllSpace(s: string) {
    forall k :: 0 <= k < |s| ==> IsSpace(s[k])
  }

  /** Neither the first nor the last character is whitespace. */
  predicate NoEdgeSpace(s: string) {
    s == [] || (!IsSpace(s[0]) && !IsSpace(s[|s| - 1]))
  }

  // ------------------------------------------------------------------
  // trim
  // ------------------------------------------------------------------

  function TrimStart(s: string): string
  {
    if s != [] && IsSpace(s[0]) then TrimStart(s[1..]) else s
  }

  function TrimEnd(s: string): string
  {
    if s != [] && IsSpace(s[|s| - 1]) then TrimEnd(s[..|s| - 1]) else s
  }

  /** What trim computes: s with leading and trailing whitespace removed. */
  function Trimmed(s: string): string
  {
    TrimEnd(TrimStart(s))
  }

  /** TrimStart drops an all-whitespace prefix and stops at a non-space. */
  lemma {:induction false} TrimStartShape(s: string)
    ensures |TrimStart(s)| <= |s|
    ensures TrimStart(s) == s[|s| - |TrimStart(s)|..]
    ensures AllSpace(s[..|s| - |TrimStart(s)|])
    ensures TrimStart(s) == [] || !IsSpace(TrimStart(s)[0])
    decreases |s|
  {
    if s != [] && IsSpace(s[0]) {
      TrimStartShape(s[1..]);
      var r := TrimStart(s[1..]);
      assert s[1..][|s| - 1 - |r|..] == s[|s| - |r|..];
      forall k | 0 <= k < |s| - |r|
        ensures IsSpace(s[k])
      {
        if k > 0 {
          assert s[1..][..|s| - 1 - |r|][k - 1] == s[k];
        }
      }
    }
  }

  /** TrimEnd drops an all-whitespace suffix and stops at a non-space. */
  lemma {:induction false} TrimEndShape(s: string)
    ensures |TrimEnd(s)| <= |s|
    ensures TrimEnd(s) == s[..|TrimEnd(s)|]
    ensures AllSpace(s[|TrimEnd(s)|..])
    ensures TrimEnd(s) == [] || !IsSpace(TrimEnd(s)[|TrimEnd(s)| - 1])
    decreases |s|
  {
    if s != [] && IsSpace(s[|s| - 1]) {
      var p := s[..|s| - 1];
      TrimEndShape(p);
      var r := TrimEnd(p);
      assert p[..|r|] == s[..|r|];
      forall k | 0 <= k < |s| - |r|
        ensures IsSpace(s[|r|..][k])
      {
        if |r| + k < |s| - 1 {
          assert p[|r|..][k] == s[|r| + k];
        }
      }
    }
  }

  /** trim returns a contiguous piece of s, everything it cuts off is
      whitespace, the piece neither starts nor ends with whitespace, and the
      piece is empty exactly when s is empty or all whitespace. */
  lemma TrimmedIsStripped(s: string)
    ensures exists i, j ::
      (0 <= i <= j <= |s| && Trimmed(s) == s[i..j] && AllSpace(s[..i]) && AllSpace(s[j..]))
    ensures NoEdgeSpace(Trimmed(s))
    ensures Trimmed(s) == [] <==> AllSpace(s)
  {
    TrimStartShape(s);
    var t := TrimStart(s);
    var i := |s| - |t|;
    TrimEndShape(t);
    var r := TrimEnd(t);
    var j := i + |r|;
    assert s[i..j] == t[..|r|];
    assert s[j..] == t[|r|..];
    assert Trimmed(s) == s[i..j];
    if r != [] {
      assert r[0] == t[0];
      assert s[i] == r[0] && !IsSpace(s[i]);
    } else {
      assert t[|r|..] == t;
      assert t == [];
      assert s[..i] == s;
    }
  }

  /** A string without edge whitespace is left alone by trim. */
  lemma TrimmedFixesNoEdgeSpace(s: string)
    requires NoEdgeSpace(s)
    ensures Trimmed(s) == s
  {
    assert TrimStart(s) == s;
  }

  /** trim is idempotent. */
  lemma TrimmedIdempotent(s: string)
    ensures Trimmed(Trimmed(s)) == Trimmed(s)
  {
    TrimmedIsStripped(s);
    TrimmedFixesNoEdgeSpace(Trimmed(s));
  }

  /** A leading space of s[b..] is dropped by TrimStart. */
  lemma TrimStartStep(s: string, b: nat)
    requires b < |s| && IsSpace(s[b])
    ensures TrimStart(s[b..]) == TrimStart(s[b + 1..])
  {
    assert s[b..][1..] == s[b + 1..];
  }

  /** A trailing space of s[b..e + 1] is dropped by TrimEnd. */
  lemma TrimEndStep(s: string, b: nat, e: nat)
    requires b < e < |s| && IsSpace(s[e])
    ensures TrimEnd(s[b..e + 1]) == TrimEnd(s[b..e])
  {
    assert s[b..e + 1][..e - b] == s[b..e];
  }

  /** trim as string.hpp writes it: a forward scan for the first non-space
      and a do-while scan backwards for the last one. */
  method Trim(s: string) returns (r: string)
    ensures r == Trimmed(s)
  {
    var b := 0;
    while b < |s| && IsSpace(s[b])
      invariant 0 <= b <= |s|
      invariant TrimStart(s) == TrimStart(s[b..])
    {
      TrimStartStep(s, b);
      b := b + 1;
    }
    if b == |s| {
      assert s[b..] == [];
      return [];
    }
    assert TrimStart(s) == s[b..];
    var e := |s| - 1;
    assert s[b..] == s[b..e + 1];
    while e != b && IsSpace(s[e])
      invariant b <= e < |s|
      invariant TrimEnd(s[b..]) == TrimEnd(s[b..e + 1])
    {
      TrimEndStep(s, b, e);
      e := e - 1;
    }
    assert TrimEnd(s[b..e + 1]) == s[b..e + 1];
    r := s[b..e + 1];
  }

  // ------------------------------------------------------------------
  // iequals
  // ------------------------------------------------------------------

  /** C's tolower in the "C" locale: only ASCII letters change. */
  function ToLower(c: char): char
  {
    if 'A' <= c <= 'Z' then (c as int + 32) as char else c
  }

  /** Equal length, and equal position by position once lowered. */
  predicate EqualIgnoringCase(a: string, b: string)
  {
    |a| == |b| && forall i :: 0 <= i < |a| ==> ToLower(a[i]) == ToLower(b[i])
  }

  /** EqualIgnoringCase is an equivalence relation that contains equality. */
  lemma EqualIgnoringCaseIsEquivalence(a: string, b: string, c: string)
    ensures EqualIgnoringCase(a, a)
    ensures EqualIgnoringCase(a, b) ==> EqualIgnoringCase(b, a)
    ensures EqualIgnoringCase(a, b) && EqualIgnoringCase(b, c) ==> EqualIgnoringCase(a, c)
  {
  }

  /** iequals: a length check, then a position-by-position comparison. */
  method IEquals(a: string, b: string) returns (eq: bool)
    ensures eq <==> EqualIgnoringCase(a, b)
    ensures |a| != |b| ==> !eq
  {
    if |a| != |b| {
      return false;
    }
    var i := 0;
    while i < |a|
      invariant 0 <= i <= |a|
      invariant forall k :: 0 <= k < i ==> ToLower(a[k]) == ToLower(b[k])
    {
      if ToLower(a[i]) != ToLower(b[i]) {
        return false;
      }
      i := i + 1;
    }
    return true;
  }

  // ------------------------------------------------------------------
  // parse_double_opt, over a model of strtod
  // ------------------------------------------------------------------

  predicate IsDigit(c: char) {
    '0' <= c <= '9'
  }

  /** Length of the leading run of characters satisfying IsSpace. */
  function SpaceRun(s: string): (n: nat)
    ensures n <= |s|
    ensures AllSpace(s[..n])
    ensures n < |s| ==> !IsSpace(s[n])
  {
    if s != [] && IsSpace(s[0]) then
      var m := SpaceRun(s[1..]);
      assert forall k :: 1 <= k < 1 + m ==> s[k] == s[1..][..m][k - 1];
      1 + m
    else 0
  }

  /** Length of the run of decimal digits that starts at position i. */
  function DigitRun(s: string, i: nat): (n: nat)
    requires i <= |s|
    ensures i + n <= |s|
    ensures forall k :: i <= k < i + n ==> IsDigit(s[k])
    ensures i + n < |s| ==> !IsDigit(s[i + n])
    decreases |s| - i
  {
    if i < |s| && IsDigit(s[i]) then 1 + DigitRun(s, i + 1) else 0
  }

  /** The number the digits s[lo..hi] spell in base 10. */
  function DigitsValue(s: string, lo: nat, hi: nat): nat
    requires lo <= hi <= |s| && forall k :: lo <= k < hi ==> IsDigit(s[k])
    decreases hi
  {
    if hi == lo then 0
    else
      assert IsDigit(s[hi - 1]);
      DigitsValue(s, lo, hi - 1) * 10 + (s[hi - 1] as int - '0' as int)
  }

  function Pow10(n: nat): (p: nat)
    ensures p >= 1
  {
    if n == 0 then 1 else 10 * Pow10(n - 1)
  }

  /** The value of an optional exponent part at position m: `e`/`E`, sign,
      digits; 0 when there is no complete one (strtod then leaves it
      unread). */
  function ExponentPart(s: string, m: nat): int
    requires m <= |s|
  {
    if m < |s| && (s[m] == 'e' || s[m] == 'E') then
      var j := if m + 1 < |s| && (s[m + 1] == '+' || s[m + 1] == '-') then m + 2 else m + 1;
      var n := DigitRun(s, j);
      if n == 0 then 0
      else
        var v: int := DigitsValue(s, j, j + n);
        if j == m + 2 && s[m + 1] == '-' then -v else v
    else 0
  }

  function Scale(x: real, e: int): real
  {
    if e >= 0 then x * Pow10(e) as real else x / Pow10(-e) as real
  }

  /** The characters strtod needs to convert anything: after leading
      whitespace and an optional sign, a digit, or a point and a digit. */
  predicate HasNumericPrefix(s: string)
  {
    var i := SpaceRun(s);
    var j := if i < |s| && (s[i] == '+' || s[i] == '-') then i + 1 else i;
    (j < |s| && IsDigit(s[j])) || (j + 1 < |s| && s[j] == '.' && IsDigit(s[j + 1]))
  }

  /** The decimal subset of strtod: whitespace, sign, digits, an optional
      fraction and an optional exponent, read as a prefix. None means that
      strtod converts nothing (its end pointer stays at the start). */
  function StrtodPrefix(s: string): Option<real>
  {
    var i := SpaceRun(s);
    var neg := i < |s| && s[i] == '-';
    var j := if i < |s| && (s[i] == '+' || s[i] == '-') then i + 1 else i;
    var n := DigitRun(s, j);
    var k := j + n;
    var hasPoint := k < |s| && s[k] == '.';
    var f := if hasPoint then DigitRun(s, k + 1) else 0;
    if n == 0 && f == 0 then None
    else
      var m := if hasPoint then k + 1 + f else k;
      var whole := DigitsValue(s, j, k) as real;
      var frac := if hasPoint then DigitsValue(s, k + 1, m) as real / Pow10(f) as real else 0.0;
      var magnitude := Scale(whole + frac, ExponentPart(s, m));
      Some(if neg then -magnitude else magnitude)
  }

  /** parse_double_opt: nothing for the empty string, otherwise what strtod
      converts, or nothing when it converts nothing. */
  function ParseDoubleOpt(s: string): Option<real>
  {
    if s == [] then None else StrtodPrefix(s)
  }

  /** parse_double_opt yields no number exactly for the empty string and for
      input without a numeric prefix. */
  lemma ParseDoubleOptNone(s: string)
    ensures ParseDoubleOpt(s).None? <==> s == [] || !HasNumericPrefix(s)
  {
    if s != [] {
      var i := SpaceRun(s);
      var j := if i < |s| && (s[i] == '+' || s[i] == '-') then i + 1 else i;
      var n := DigitRun(s, j);
      assert n > 0 <==> j < |s| && IsDigit(s[j]);
      if n == 0 && j < |s| && s[j] == '.' {
        var f := DigitRun(s, j + 1);
        assert f > 0 <==> j + 1 < |s| && IsDigit(s[j + 1]);
      }
    }
  }

  lemma ParseDoubleOptExamples()
    ensures ParseDoubleOpt("").None?
    ensures ParseDoubleOpt(" ").None?
    ensures ParseDoubleOpt("x1").None?
  {
    ParseDoubleOptNone(" ");
    ParseDoubleOptNone("x1");
  }

  // ------------------------------------------------------------------
  // split, generalised from one delimiter character to a delimiter string
  // ------------------------------------------------------------------

  predicate StartsWith(s: string, p: string) {
    |p| <= |s| && s[..|p|] == p
  }

  /** d occurs somewhere inside s. */
  predicate Contains(s: string, d: string) {
    exists k :: 0 <= k <= |s| && StartsWith(s[k..], d)
  }

  /** What split computes: the pieces of s between the occurrences of d,
      found left to right without overlap. */
  function Split(s: string, d: string): (parts: seq<string>)
    requires d != []
    ensures |parts| >= 1
    decreases |s|
  {
    if s == [] then [[]]
    else if StartsWith(s, d) then [[]] + Split(s[|d|..], d)
    else
      var rest := Split(s[1..], d);
      [[s[0]] + rest[0]] + rest[1..]
  }

  /** The pieces glued back together with d between them. */
  function Join(parts: seq<string>, d: string): string
    requires |parts| >= 1
    decreases |parts|
  {
    if |parts| == 1 then parts[0] else parts[0] + d + Join(parts[1..], d)
  }

  /** Number of occurrences of d in s, counted as split finds them. */
  function Occurrences(s: string, d: string): nat
    requires d != []
    decreases |s|
  {
    if s == [] then 0
    else if StartsWith(s, d) then 1 + Occurrences(s[|d|..], d)
    else Occurrences(s[1..], d)
  }

  /** split yields one piece more than there are delimiters; the empty
      string gives one empty piece. */
  lemma {:induction false} SplitCount(s: string, d: string)
    requires d != []
    ensures |Split(s, d)| == Occurrences(s, d) + 1
    ensures s == [] ==> Split(s, d) == [[]]
    decreases |s|
  {
    if s == [] {
    } else if StartsWith(s, d) {
      SplitCount(s[|d|..], d);
    } else {
      SplitCount(s[1..], d);
    }
  }

  /** Gluing x onto the first piece glues it onto the whole join. */
  lemma JoinExtendsHead(x: string, rest: seq<string>, d: string)
    requires |rest| >= 1
    ensures Join([x + rest[0]] + rest[1..], d) == x + Join(rest, d)
  {
    var parts := [x + rest[0]] + rest[1..];
    if |rest| > 1 {
      assert parts[1..] == rest[1..];
      assert Join(parts, d) == (x + rest[0]) + d + Join(rest[1..], d);
    }
  }

  /** Joining the pieces of split with the delimiter gives back s. */
  lemma {:induction false} SplitJoin(s: string, d: string)
    requires d != []
    ensures Join(Split(s, d), d) == s
    decreases |s|
  {
    if s == [] {
    } else if StartsWith(s, d) {
      var rest := Split(s[|d|..], d);
      SplitJoin(s[|d|..], d);
      var parts := [[]] + rest;
      assert parts[0] == [] && parts[1..] == rest;
      assert Join(parts, d) == [] + d + Join(rest, d);
      assert s == d + s[|d|..];
    } else {
      SplitJoin(s[1..], d);
      JoinExtendsHead([s[0]], Split(s[1..], d), d);
      assert s == [s[0]] + s[1..];
    }
  }

  /** The first piece of split is a prefix of s. */
  lemma {:induction false} SplitHeadIsPrefix(s: string, d: string)
    requires d != []
    ensures |Split(s, d)[0]| <= |s| && Split(s, d)[0] == s[..|Split(s, d)[0]|]
    decreases |s|
  {
    if s != [] && !StartsWith(s, d) {
      SplitHeadIsPrefix(s[1..], d);
    }
  }

  /** No piece of split contains the delimiter. */
  lemma {:induction false} SplitPiecesAvoidDelimiter(s: string, d: string)
    requires d != []
    ensures forall p :: p in Split(s, d) ==> !Contains(p, d)
    decreases |s|
  {
    if s == [] {
    } else if StartsWith(s, d) {
      SplitPiecesAvoidDelimiter(s[|d|..], d);
    } else {
      var rest := Split(s[1..], d);
      SplitPiecesAvoidDelimiter(s[1..], d);
      SplitHeadIsPrefix(s[1..], d);
      var h := [s[0]] + rest[0];
      assert h == s[..|h|];
      assert h[1..] == rest[0];
      assert rest[0] in rest;
      forall k | 0 <= k <= |h|
        ensures !StartsWith(h[k..], d)
      {
        if k == 0 {
          if |d| <= |h| {
            assert h[..|d|] == s[..|d|];
          }
        } else {
          assert h[k..] == rest[0][k - 1..];
        }
      }
      forall p | p in Split(s, d)
        ensures !Contains(p, d)
      {
        if p != h {
          assert p in rest[1..];
        }
      }
    }
  }

  /** A piece free of a one-character delimiter splits to itself. */
  lemma {:induction false} SplitWithoutDelimiter(p: string, d: string)
    requires |d| == 1 && d[0] !in p
    ensures Split(p, d) == [p]
    decreases |p|
  {
    if p != [] {
      SplitWithoutDelimiter(p[1..], d);
      assert [p[0]] + p[1..] == p;
    }
  }

  /** Splitting `p + d + r` peels off p as the first piece. */
  lemma {:induction false} SplitAfterPiece(p: string, d: string, r: string)
    requires |d| == 1 && d[0] !in p
    ensures Split(p + d + r, d) == [p] + Split(r, d)
    decreases |p|
  {
    var s := p + d + r;
    if p == [] {
      assert s == d + r && StartsWith(s, d);
      assert s[|d|..] == r;
    } else {
      assert s[0] == p[0] && !StartsWith(s, d);
      assert s[1..] == p[1..] + d + r;
      SplitAfterPiece(p[1..], d, r);
      assert [p[0]] + p[1..] == p;
    }
  }

  /** For a one-character delimiter that no piece contains, split undoes
      join. */
  lemma {:induction false} JoinThenSplit(parts: seq<string>, d: string)
    requires |d| == 1 && |parts| >= 1
    requires forall p :: p in parts ==> d[0] !in p
    ensures Split(Join(parts, d), d) == parts
    decreases |parts|
  {
    if |parts| == 1 {
      SplitWithoutDelimiter(parts[0], d);
    } else {
      JoinThenSplit(parts[1..], d);
      SplitAfterPiece(parts[0], d, Join(parts[1..], d));
      assert [parts[0]] + parts[1..] == parts;
    }
  }

  /** The pieces split would return once the pieces found so far and the
      piece being collected are joined by the split of the rest. */
  ghost function Pending(parts: seq<string>, cur: string, rest: string, d: string): seq<string>
    requires d != []
  {
    parts + [cur + Split(rest, d)[0]] + Split(rest, d)[1..]
  }

  /** At a delimiter the current piece is closed. */
  lemma PendingAtDelimiter(parts: seq<string>, cur: string, rest: string, d: string)
    requires d != [] && rest != [] && StartsWith(rest, d)
    ensures Pending(parts, cur, rest, d) == Pending(parts + [cur], [], rest[|d|..], d)
  {
    var tail := Split(rest[|d|..], d);
    assert Split(rest, d) == [[]] + tail;
    assert cur + [] == cur && [] + tail[0] == tail[0];
    assert [tail[0]] + tail[1..] == tail;
  }

  /** Any other character extends the current piece. */
  lemma PendingAtChar(parts: seq<string>, cur: string, rest: string, d: string)
    requires d != [] && rest != [] && !StartsWith(rest, d)
    ensures Pending(parts, cur, rest, d) == Pending(parts, cur + [rest[0]], rest[1..], d)
  {
    var tail := Split(rest[1..], d);
    assert Split(rest, d) == [[rest[0]] + tail[0]] + tail[1..];
    assert cur + ([rest[0]] + tail[0]) == (cur + [rest[0]]) + tail[0];
  }

  /** split as string.hpp writes it: one pass that collects the current
      piece and closes it at each delimiter. */
  method SplitOn(s: string, d: string) returns (parts: seq<string>)
    requires d != []
    ensures parts == Split(s, d)
  {
    parts := [];
    var cur: string := [];
    var i := 0;
    assert s[0..] == s;
    assert Pending([], [], s, d) == Split(s, d) by {
      var all := Split(s, d);
      assert [] + all[0] == all[0];
      assert [] + [all[0]] + all[1..] == all;
    }
    while i < |s|
      invariant 0 <= i <= |s|
      invariant Pending(parts, cur, s[i..], d) == Split(s, d)
      decreases |s| - i
    {
      if StartsWith(s[i..], d) {
        PendingAtDelimiter(parts, cur, s[i..], d);
        assert s[i..][|d|..] == s[i + |d|..];
        parts := parts + [cur];
        cur := [];
        i := i + |d|;
      } else {
        PendingAtChar(parts, cur, s[i..], d);
        assert s[i..][1..] == s[i + 1..] && s[i..][0] == s[i];
        cur := cur + [s[i]];
        i := i + 1;
      }
    }
    assert s[i..] == [];
    assert cur + [] == cur;
    parts := parts + [cur];
  }
}
