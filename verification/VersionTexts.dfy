/** Which texts stand for one version: when versions that tie are equal. */
module VersionTexts {
  import opened Numerals
  import opened Scanning
  import opened Versions
  import opened Wrappers

  // ----- The parts of a text -----

  /** Two runs of digits with a dot between them. */
  predicate IsMajor(m: string) {
    exists a :: 0 < a < |m| - 1 && MajorAt(m, a)
  }

  predicate MajorAt(m: string, a: nat)
    requires 0 < a < |m| - 1
  {
    All(IsDigit, m[..a]) && m[a] == '.' && All(IsDigit, m[a + 1..])
  }

  /** What follows the major version: its mark, and the digits behind it. */
  predicate Marked(rest: string) {
    rest != [] && (rest[0] == 'a' || rest[0] == '.')
  }

  function MinorDigits(rest: string): string {
    var after := if Marked(rest) then rest[1..] else rest;
    after[..Span(after, IsDigit)]
  }

  function FromParts(m: string, rest: string): Version {
    Version(m + rest, m, rest != [] && rest[0] == 'a', Number(MinorDigits(rest)))
  }

  /** A text is read where its runs of digits end. */
  predicate RunsAt(v: string, a: nat, b: nat) {
    && Span(v, IsDigit) == a && 0 < a < |v| && v[a] == '.'
    && Span(v[a + 1..], IsDigit) == b && b > 0
  }

  lemma RunsFit(v: string, a: nat, b: nat)
    requires RunsAt(v, a, b)
    ensures a + 1 + b <= |v|
  {
  }

  lemma ReadAtRuns(v: string, a: nat, b: nat)
    requires RunsAt(v, a, b) && a + 1 + b <= |v|
    ensures ParseVersion(v) == Some(FromParts(v[..a + 1 + b], v[a + 1 + b..]))
  {
    hide Number, Span, IsDigit;
    var end := a + 1 + b;
    assert v[..end] + v[end..] == v && (end < |v| ==> v[end..][1..] == v[end + 1..]);
  }

  lemma ReadHasRuns(v: string) returns (a: nat, b: nat)
    requires ParseVersion(v).Some?
    ensures RunsAt(v, a, b)
  {
    hide Number, Span, IsDigit;
    a := Span(v, IsDigit);
    b := Span(v[a + 1..], IsDigit);
  }

  /** The runs of a text that is put together. */
  lemma RunsOfParts(m: string, rest: string, a: nat)
    requires 0 < a < |m| - 1 && MajorAt(m, a) && (rest == [] || !IsDigit(rest[0]))
    ensures RunsAt(m + rest, a, |m| - a - 1)
  {
    hide Span, All;
    var v, minor := m + rest, m[a + 1..];
    assert v[..a] == m[..a] && v[a] == '.';
    SpanIs(v, IsDigit, a);
    assert v[a + 1..] == minor + rest && (minor + rest)[..|minor|] == minor;
    SpanIs(v[a + 1..], IsDigit, |minor|);
  }

  /** The parts of a text that is read. */
  lemma PartsOfRuns(v: string, a: nat, b: nat)
    requires RunsAt(v, a, b) && a + 1 + b <= |v|
    ensures IsMajor(v[..a + 1 + b]) && (a + 1 + b < |v| ==> !IsDigit(v[a + 1 + b]))
  {
    hide Span, All;
    var m := v[..a + 1 + b];
    assert m[..a] == v[..a] && m[a] == '.' && m[a + 1..] == v[a + 1..][..b];
    assert MajorAt(m, a);
    assert |m| < |v| ==> v[a + 1..][b] == v[|m|];
  }

  /** A text whose rest does not begin with a digit is read as its parts. */
  lemma PartsRead(m: string, rest: string)
    requires IsMajor(m) && (rest == [] || !IsDigit(rest[0]))
    ensures ParseVersion(m + rest) == Some(FromParts(m, rest))
  {
    var a :| 0 < a < |m| - 1 && MajorAt(m, a);
    hide *;
    RunsOfParts(m, rest, a);
    ReadAtRuns(m + rest, a, |m| - a - 1);
    assert (m + rest)[..|m|] == m && (m + rest)[|m|..] == rest;
  }

  /** Every version is read from such parts. */
  lemma VersionHasParts(x: Version)
    requires IsVersion(x)
    ensures IsMajor(x.major) && x.major <= x.v
    ensures var rest := x.v[|x.major|..];
      (rest == [] || !IsDigit(rest[0])) && x == FromParts(x.major, rest) && x.v == x.major + rest
  {
    assert ParseVersion(x.v) == Some(x);
    hide IsVersion, ParseVersion, RunsAt, IsMajor, MinorDigits, Marked, Number, IsDigit;
    var a, b := ReadHasRuns(x.v);
    RunsFit(x.v, a, b);
    ReadAtRuns(x.v, a, b);
    PartsOfRuns(x.v, a, b);
    assert x.v == x.v[..a + 1 + b] + x.v[a + 1 + b..];
  }

  // ----- Tidy texts -----

  /**
    Nothing behind the minor digits, no zero in front of them that could be left out, and
    no minor version where it is 0; an alpha has its number written.
  */
  predicate TidyRest(rest: string) {
    rest == [] || (Marked(rest) && Shortest(rest[1..]) && (rest[0] == '.' ==> rest[1..] != "0"))
  }

  predicate Tidy(x: Version)
    requires |x.major| <= |x.v|
  {
    TidyRest(x.v[|x.major|..])
  }

  /** The tidy text of a version. */
  function TidyText(x: Version): string {
    x.major + (if x.isAlpha then "a" + Decimal(x.minor) else if x.minor == 0 then "" else "." + Decimal(x.minor))
  }

  function Tidied(x: Version): Version {
    x.(v := TidyText(x))
  }

  lemma ShortestSpans(digits: string)
    requires Shortest(digits)
    ensures digits[..Span(digits, IsDigit)] == digits
  {
    assert digits[..|digits|] == digits;
    SpanIs(digits, IsDigit, |digits|);
  }

  /** Tidied, a version is read as itself but for its text, and its text is tidy. */
  lemma TidiedReads(x: Version)
    requires IsVersion(x)
    ensures IsVersion(Tidied(x)) && Tidy(Tidied(x)) && Ties(x, Tidied(x))
  {
    hide Span, Shortest, Number, Decimal, Before;
    VersionHasParts(x);
    TiesIff(x, Tidied(x));
    DecimalReads(x.minor);
    var digits := Decimal(x.minor);
    var t := TidyText(x);
    var rest := t[|x.major|..];
    assert rest == if x.isAlpha then "a" + digits else if x.minor == 0 then "" else "." + digits;
    assert t == x.major + rest;
    PartsRead(x.major, rest);
    if rest == [] {
      NothingSpans();
    } else {
      assert rest[1..] == digits;
      ShortestSpans(digits);
      NumberOfZero();
    }
  }

  lemma NothingSpans()
    ensures MinorDigits([]) == [] && Number([]) == 0
  {
    NoDigits();
  }

  lemma NumberOfZero()
    ensures Number("0") == 0
  {
    assert "0" == [] + ['0'];
    NumberSnoc([], '0');
    NoDigits();
  }

  /** A version has its tidy text exactly when its text is tidy. */
  lemma TidyIff(x: Version)
    requires IsVersion(x)
    ensures |x.major| <= |x.v| && (Tidy(x) <==> x.v == TidyText(x))
  {
    hide Span, Number, Decimal, Before;
    VersionHasParts(x);
    var rest := x.v[|x.major|..];
    if x.v == TidyText(x) {
      TidiedReads(x);
    } else if Tidy(x) {
      if rest == [] {
        NothingSpans();
      } else {
        ShortestSpans(rest[1..]);
        ShortestIsWritten(rest[1..]);
        assert rest == [rest[0]] + rest[1..];
        WrittenZero();
      }
    }
  }

  lemma WrittenZero()
    ensures Decimal(0) == "0"
  {
  }

  /**
    A version is tidy exactly when every tidy version that it ties with is the same; so
    among tidy versions, and among no larger set of texts, ties are equalities.
  */
  lemma TidyIffTiesAreEqual(x: Version)
    requires IsVersion(x)
    ensures |x.major| <= |x.v|
    ensures Tidy(x) <==>
      forall y :: IsVersion(y) && |y.major| <= |y.v| && Tidy(y) && Ties(x, y) ==> x.v == y.v
  {
    hide Tidy, IsVersion, Ties;
    TidyIff(x);
    if Tidy(x) {
      forall y | IsVersion(y) && |y.major| <= |y.v| && Tidy(y) && Ties(x, y)
        ensures x.v == y.v
      {
        TidyIff(y);
        TiesIff(x, y);
      }
    } else {
      TidiedReads(x);
      var y := Tidied(x);
      assert IsVersion(y) && |y.major| <= |y.v| && Tidy(y) && Ties(x, y) && x.v != y.v;
    }
  }

  /** "1.0" and "1.0.0" tie: the second is not tidy. */
  lemma UnequalVersionsCanTie()
    ensures ParseVersion("1.0").Some? && ParseVersion("1.0.0").Some?
    ensures Ties(ParseVersion("1.0").value, ParseVersion("1.0.0").value)
  {
    hide Number, Span;
    assert MajorAt("1.0", 1);
    assert IsMajor("1.0");
    assert "1.0" == "1.0" + [] && "1.0.0" == "1.0" + ".0";
    PartsRead("1.0", []);
    PartsRead("1.0", ".0");
    assert ".0"[1..] == "0";
    NothingSpans();
    NumberOfZero();
    ShortestSpans("0");
    TiesIff(ParseVersion("1.0").value, ParseVersion("1.0.0").value);
  }
}
