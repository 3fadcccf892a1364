/** The platform probe that chooses the readiness-wait backend: select() is
    used on Mac OS X 10.6 and earlier, poll() everywhere else.  The probe reads
    the `os.name` and `os.version` properties, which are parameters here, and
    uses the host language's lower-casing, regex split and integer parsing,
    which are modelled below on ASCII text. */
module Platform {
  import opened Facade

  /** The host language's 32-bit integer range. */
  const INT_MIN := -0x8000_0000
  const INT_MAX := 0x7fff_ffff

  /** Lower-casing under the US locale, restricted to ASCII letters. */
  function LowerChar(c: char): char
  {
    if 'A' <= c <= 'Z' then (c as int + 32) as char else c
  }

  function Lower(s: string): string
  {
    seq(|s|, i requires 0 <= i < |s| => LowerChar(s[i]))
  }

  predicate StartsWith(s: string, prefix: string)
  {
    |prefix| <= |s| && s[..|prefix|] == prefix
  }

  /** Whether `s` holds a character other than the separator. */
  predicate HasNonDot(s: string)
  {
    exists i :: 0 <= i < |s| && s[i] != '.'
  }

  /** Length of the first dot-separated field of `s`. */
  function FieldEnd(s: string): (n: nat)
    ensures n <= |s| && '.' !in s[..n]
    ensures n < |s| ==> s[n] == '.'
    decreases |s|
  {
    if s == [] || s[0] == '.' then 0
    else
      var n := 1 + FieldEnd(s[1..]);
      assert s[..n] == [s[0]] + s[1..][..n - 1];
      n
  }

  /** The first dot-separated field of `s`. */
  function Field(s: string): string
  {
    s[..FieldEnd(s)]
  }

  /** Every dot-separated field of `s`, empty ones included. */
  function SplitAll(s: string): (parts: seq<string>)
    ensures |parts| >= 1 && parts[0] == Field(s)
    ensures forall i :: 0 <= i < |parts| ==> '.' !in parts[i]
    decreases |s|
  {
    var n := FieldEnd(s);
    if n == |s| then
      assert s[..n] == s;
      [s]
    else [s[..n]] + SplitAll(s[n + 1..])
  }

  /** The fields glued back together with the separator. */
  function Join(parts: seq<string>): string
    requires |parts| >= 1
  {
    if |parts| == 1 then parts[0] else parts[0] + "." + Join(parts[1..])
  }

  /** Splitting loses nothing: joining the fields gives back the string. */
  lemma {:induction false} JoinSplitAll(s: string)
    ensures Join(SplitAll(s)) == s
    decreases |s|
  {
    var n := FieldEnd(s);
    if n < |s| {
      var rest := s[n + 1..];
      var parts := SplitAll(s);
      assert parts == [s[..n]] + SplitAll(rest);
      assert parts[1..] == SplitAll(rest);
      JoinSplitAll(rest);
      assert Join(parts) == s[..n] + "." + rest;
      assert s == s[..n] + [s[n]] + rest;
    } else {
      assert s[..n] == s;
    }
  }

  /** Fields without a separator are recovered exactly by splitting their join. */
  lemma {:induction false} SplitAllJoin(parts: seq<string>)
    requires |parts| >= 1 && forall i :: 0 <= i < |parts| ==> '.' !in parts[i]
    ensures SplitAll(Join(parts)) == parts
    decreases |parts|
  {
    var s := Join(parts);
    var p := parts[0];
    if |parts| == 1 {
      FieldEndOfField(p, "");
      assert p + "" == p;
    } else {
      var rest := Join(parts[1..]);
      assert s == p + ("." + rest);
      FieldEndOfField(p, "." + rest);
      assert s[|p| + 1..] == rest;
      SplitAllJoin(parts[1..]);
    }
  }

  /** A separator-free prefix followed by nothing or by a separator is the first field. */
  lemma {:induction false} FieldEndOfField(p: string, t: string)
    requires '.' !in p && (t == [] || t[0] == '.')
    ensures FieldEnd(p + t) == |p|
    decreases |p|
  {
    if p != [] {
      assert p[0] in p;
      assert (p + t)[1..] == p[1..] + t;
      assert forall c :: c in p[1..] ==> c in p;
      FieldEndOfField(p[1..], t);
    } else {
      assert p + t == t;
    }
  }

  /** The fields with the empty ones at the end removed. */
  function DropTrailingEmpty(parts: seq<string>): (r: seq<string>)
    // a prefix of the fields ...
    ensures |r| <= |parts| && r == parts[..|r|]
    // ... that does not end in an empty field ...
    ensures r != [] ==> Last(r) != ""
    // ... and leaves out only empty fields
    ensures forall i :: |r| <= i < |parts| ==> parts[i] == ""
    decreases |parts|
  {
    if parts == [] then []
    else
      var tail := DropTrailingEmpty(parts[1..]);
      if tail == [] && parts[0] == "" then []
      else [parts[0]] + tail
  }

  /** The host language's split on a literal dot with no limit: the string
      itself when there is no dot, otherwise the fields with the trailing
      empty ones removed. */
  function JavaSplit(s: string): (r: seq<string>)
    ensures '.' !in s ==> r == [s]
    ensures '.' in s ==>
      |r| <= |SplitAll(s)| && r == SplitAll(s)[..|r|] &&
      (forall i :: |r| <= i < |SplitAll(s)| ==> SplitAll(s)[i] == "")
    // ... and exactly the trailing ones: what is kept does not end in an empty field
    ensures '.' in s && r != [] ==> Last(r) != ""
    // nothing is left exactly when the string is made of separators only
    ensures r == [] <==> '.' in s && !HasNonDot(s)
  {
    if '.' !in s then [s]
    else
      AllEmptyIffNoNonDot(s);
      DropTrailingEmpty(SplitAll(s))
  }

  predicate AllEmpty(parts: seq<string>)
  {
    forall i :: 0 <= i < |parts| ==> parts[i] == ""
  }

  /** The fields are all empty exactly when the string is made of separators. */
  lemma {:induction false} AllEmptyIffNoNonDot(s: string)
    ensures AllEmpty(SplitAll(s)) <==> !HasNonDot(s)
    decreases |s|
  {
    var parts := SplitAll(s);
    var n := FieldEnd(s);
    if n == |s| {
      if s != [] {
        assert s[0] in s[..n];
      }
    } else {
      var rest := s[n + 1..];
      AllEmptyIffNoNonDot(rest);
      assert parts == [s[..n]] + SplitAll(rest);
      if n == 0 {
        assert s[0] == '.' && rest == s[1..];
        assert HasNonDot(s) == HasNonDot(rest) by {
          if HasNonDot(rest) {
            var i :| 0 <= i < |rest| && rest[i] != '.';
            assert s[i + 1] != '.';
          }
          if HasNonDot(s) {
            var i :| 0 <= i < |s| && s[i] != '.';
            assert i > 0;
            assert rest[i - 1] != '.';
          }
        }
        assert parts[0] == "";
        assert forall i :: 1 <= i < |parts| ==> parts[i] == SplitAll(rest)[i - 1];
        if AllEmpty(SplitAll(rest)) {
          forall i | 0 <= i < |parts|
            ensures parts[i] == ""
          {
            if i > 0 {
              assert parts[i] == SplitAll(rest)[i - 1];
            }
          }
        } else {
          var j :| 0 <= j < |SplitAll(rest)| && SplitAll(rest)[j] != "";
          assert parts[j + 1] != "";
        }
      } else {
        assert s[0] != '.' by { assert s[0] in s[..n]; }
        assert parts[0] != "";
        assert HasNonDot(s);
        assert !AllEmpty(parts);
      }
    }
  }

  predicate IsDigit(c: char)
  {
    '0' <= c <= '9'
  }

  predicate AllDigits(t: string)
  {
    forall i :: 0 <= i < |t| ==> IsDigit(t[i])
  }

  /** The value of a string of decimal digits. */
  function DigitsValue(t: string): nat
    requires AllDigits(t)
  {
    if t == [] then 0
    else
      assert IsDigit(t[|t| - 1]);
      DigitsValue(t[..|t| - 1]) * 10 + (t[|t| - 1] as int - '0' as int)
  }

  /** The digits after an optional leading sign. */
  function Unsigned(t: string): string
    requires |t| >= 1
  {
    if t[0] == '-' || t[0] == '+' then t[1..] else t
  }

  /** The value of a signed digit string. */
  function SignedValue(t: string): int
    requires |t| >= 1 && AllDigits(Unsigned(t))
  {
    var magnitude: int := DigitsValue(Unsigned(t));
    if t[0] == '-' then -magnitude else magnitude
  }

  /** The host language's decimal integer parse: an optional sign, then at least
      one digit, with a value in the 32-bit range; anything else is a format
      error (None). */
  function ParseInt(t: string): (r: Option<int>)
    ensures r.Some? ==> INT_MIN <= r.value <= INT_MAX
    // a parse succeeds exactly on an optional sign followed by one or more
    // digits whose value is in range, and gives that value
    ensures r.Some? <==>
      |t| >= 1 && Unsigned(t) != [] && AllDigits(Unsigned(t)) && INT_MIN <= SignedValue(t) <= INT_MAX
    ensures r.Some? ==> r.value == SignedValue(t)
  {
    if t == [] then None
    else
      var digits := Unsigned(t);
      if digits == [] || !AllDigits(digits) then None
      else
        var v := SignedValue(t);
        if INT_MIN <= v <= INT_MAX then Some(v) else None
  }

  function DigitChar(d: nat): char
    requires d < 10
  {
    ('0' as int + d) as char
  }

  /** The shortest decimal spelling of `n`. */
  function Decimal(n: nat): string
  {
    if n < 10 then [DigitChar(n)] else Decimal(n / 10) + [DigitChar(n % 10)]
  }

  /** Decimal spellings are digit strings whose value is the number. */
  lemma {:induction false} DecimalDigits(n: nat)
    ensures |Decimal(n)| >= 1 && AllDigits(Decimal(n)) && DigitsValue(Decimal(n)) == n
  {
    var d := Decimal(n);
    if n >= 10 {
      DecimalDigits(n / 10);
      assert d[..|d| - 1] == Decimal(n / 10);
    }
  }

  /** Parsing a decimal spelling, bare or with either sign, gives back the number. */
  lemma ParseIntDecimal(n: nat)
    ensures n <= INT_MAX ==> ParseInt(Decimal(n)) == Some(n) && ParseInt("+" + Decimal(n)) == Some(n)
    ensures n <= -INT_MIN ==> ParseInt("-" + Decimal(n)) == Some(-(n as int))
    ensures n > INT_MAX ==> ParseInt(Decimal(n)) == None
  {
    DecimalDigits(n);
    var d := Decimal(n);
    assert ("+" + d)[1..] == d && ("-" + d)[1..] == d;
    assert IsDigit(d[0]);
  }

  /** The probe's outcome: an answer, or the format error the version parse
      throws (which escapes the probe). */
  datatype ProbeResult = Answer(le106: bool) | NumberFormatError

  /** Whether the platform is Mac OS X 10.6 or earlier. */
  function IsOSXLessThanOrEqualTo106(osName: string, osVersion: string): ProbeResult
  {
    if !StartsWith(Lower(osName), "mac") then Answer(false)
    else VersionAtMost106(Lower(osVersion))
  }

  /** The version test of the probe, on the lower-cased version string: its
      first field is "10" and its second a number no greater than 6. */
  function VersionAtMost106(version: string): ProbeResult
  {
    var strings := JavaSplit(version);
    if |strings| > 1 && strings[0] == "10" then
      match ParseInt(strings[1])
      case None => NumberFormatError
      case Some(minor) => Answer(minor <= 6)
    else Answer(false)
  }

  /** A split starting with the field "10" and holding a second field is a
      version string starting "10." with something other than separators
      after it; the second field is the first field after "10.". */
  lemma SplitTen(v: string)
    ensures (|JavaSplit(v)| > 1 && JavaSplit(v)[0] == "10") <==> (StartsWith(v, "10.") && HasNonDot(v[3..]))
    ensures StartsWith(v, "10.") && HasNonDot(v[3..]) ==> |JavaSplit(v)| > 1 && JavaSplit(v)[1] == Field(v[3..])
  {
    var strings := JavaSplit(v);
    if StartsWith(v, "10.") {
      var rest := v[3..];
      assert v == "10" + ("." + rest);
      FieldEndOfField("10", "." + rest);
      assert v[3..] == rest;
      var parts := SplitAll(v);
      assert parts == ["10"] + SplitAll(rest);
      assert v[2] == '.';
      var tail := DropTrailingEmpty(SplitAll(rest));
      assert parts[1..] == SplitAll(rest);
      assert strings == ["10"] + tail;
      AllEmptyIffNoNonDot(rest);
    } else if |strings| > 1 && strings[0] == "10" {
      assert false;
    }
  }

  /** What the version test decides, stated without the split: a version
      starting "10." with a second field that parses to at most 6 gives true;
      a second field that does not parse throws; everything else gives false. */
  lemma VersionCharacterization(v: string)
    ensures var second := StartsWith(v, "10.") && HasNonDot(v[3..]);
      var minor := if |v| >= 3 then ParseInt(Field(v[3..])) else None;
      (VersionAtMost106(v) == Answer(true) <==> second && minor.Some? && minor.value <= 6) &&
      (VersionAtMost106(v) == NumberFormatError <==> second && minor.None?)
  {
    SplitTen(v);
  }

  /** The probe answers true only on a Mac whose version passes the test, and
      throws only on a Mac whose version's second field is not a number. */
  lemma ProbeCharacterization(osName: string, osVersion: string)
    ensures var mac := StartsWith(Lower(osName), "mac"); var v := Lower(osVersion);
      var second := StartsWith(v, "10.") && HasNonDot(v[3..]);
      var minor := if |v| >= 3 then ParseInt(Field(v[3..])) else None;
      (IsOSXLessThanOrEqualTo106(osName, osVersion) == Answer(true) <==> mac && second && minor.Some? && minor.value <= 6) &&
      (IsOSXLessThanOrEqualTo106(osName, osVersion) == NumberFormatError <==> mac && second && minor.None?)
  {
    VersionCharacterization(Lower(osVersion));
  }

  /** A version "10.<m>" or "10.<m>.<...>" with a decimal minor number m is
      compared numerically: the answer is m <= 6 (so 10.15 is not older than
      10.6). */
  lemma MinorVersionDecides(v: string, m: nat, rest: string)
    requires m <= INT_MAX && (rest == [] || rest[0] == '.')
    requires v == "10." + Decimal(m) + rest
    ensures VersionAtMost106(v) == Answer(m <= 6)
  {
    var d := Decimal(m);
    DecimalField(m, rest);
    assert v[..3] == "10." && v[3..] == d + rest;
    ParseIntDecimal(m);
    VersionCharacterization(v);
  }

  /** A decimal spelling followed by nothing or a separator is a whole field. */
  lemma DecimalField(m: nat, rest: string)
    requires rest == [] || rest[0] == '.'
    ensures Field(Decimal(m) + rest) == Decimal(m) && HasNonDot(Decimal(m) + rest)
  {
    var d := Decimal(m);
    DecimalDigits(m);
    assert '.' !in d;
    FieldEndOfField(d, rest);
    assert (d + rest)[..|d|] == d;
    assert (d + rest)[0] == d[0] && IsDigit(d[0]);
  }

  /** A minor version that is not a number makes the probe throw. */
  lemma NonNumericMinorThrows()
    ensures IsOSXLessThanOrEqualTo106("Mac OS X", "10.x") == NumberFormatError
  {
    var name, version := "Mac OS X", "10.x";
    assert Lower(name) == "mac os x";
    assert Lower(version) == version;
    var after := version[3..];
    assert after == "x";
    FieldEndOfField("x", "");
    assert "x" + "" == after;
    assert Field(after) == "x";
    assert !IsDigit(Unsigned("x")[0]);
    ProbeCharacterization(name, version);
  }
}
