/** Browser versions and release tags: how they are read, and how versions are ordered. */
module Versions {
  import opened Numerals
  import opened Scanning
  import Sorting
  import opened Wrappers

  datatype Version = Version(v: string, major: string, isAlpha: bool, minor: nat)

  // ----- Reading -----

  predicate IsWord(c: char) {
    IsDigit(c) || 'a' <= c <= 'z' || 'A' <= c <= 'Z' || c == '_'
  }

  predicate IsVersionChar(c: char) {
    IsDigit(c) || c == '.' || c == 'a'
  }

  function ParseVersion(v: string): Option<Version> {
    var a := Span(v, IsDigit);
    if a == 0 || a == |v| || v[a] != '.' then None
    else
      var b := Span(v[a + 1..], IsDigit);
      var end := a + 1 + b;
      if b == 0 then None
      else
        var marked := end < |v| && (v[end] == 'a' || v[end] == '.');
        var rest := if marked then v[end + 1..] else v[end..];
        Some(Version(v, v[..end], marked && v[end] == 'a', Number(rest[..Span(rest, IsDigit)])))
  }

  predicate IsVersion(x: Version) {
    ParseVersion(x.v) == Some(x)
  }

  function Channel(x: Version): string {
    if x.isAlpha then "alpha" else "release"
  }

  datatype Tag = Tag(name: string, project: string, version: Version, build: nat)

  /** A tag such as "tbb-13.5a9-build2"; anything after the build number is ignored. */
  function ParseTag(name: string): (r: Option<Tag>)
    ensures r.Some? ==>
      r.value.name == name && IsVersion(r.value.version) && All(IsVersionChar, r.value.version.v)
  {
    var p := Span(name, IsWord);
    if p == 0 || p == |name| || name[p] != '-' then None
    else
      var rest := name[p + 1..];
      var q := Span(rest, IsVersionChar);
      if q == 0 || !("-build" <= rest[q..]) then None
      else
        var digits := rest[q + 6..];
        var d := Span(digits, IsDigit);
        if d == 0 then None
        else
          match ParseVersion(rest[..q])
          case None => None
          case Some(version) => Some(Tag(name, name[..p], version, Number(digits[..d])))
  }

  lemma TagAt(name: string, rest: string, v: string, digits: string, d: nat)
    requires var p := Span(name, IsWord); 0 < p < |name| && name[p] == '-' && name[p + 1..] == rest
    requires var q := Span(rest, IsVersionChar);
      0 < q && v == rest[..q] && "-build" <= rest[q..] && rest[q + 6..] == digits
    requires Span(digits, IsDigit) == d > 0 && ParseVersion(v).Some?
    ensures ParseTag(name)
         == Some(Tag(name, name[..Span(name, IsWord)], ParseVersion(v).value, Number(digits[..d])))
  {
    hide ParseVersion, Number, Span, IsWord, IsVersionChar, IsDigit;
  }

  /** A tag name put together from its parts is read back as those parts, whatever stands behind them. */
  lemma TagReadsBack(project: string, v: string, digits: string, more: string)
    requires project != [] && All(IsWord, project)
    requires All(IsVersionChar, v) && ParseVersion(v).Some?
    requires digits != [] && All(IsDigit, digits) && (more == [] || !IsDigit(more[0]))
    ensures var name := project + "-" + v + "-build" + (digits + more);
      ParseTag(name) == Some(Tag(name, project, ParseVersion(v).value, Number(digits)))
  {
    hide *;
    VersionNotEmpty(v);
    HyphensEndThem();
    var all := digits + more;
    var name, rest := project + "-" + v + "-build" + all, v + ("-build" + all);
    NameParts(project, v, all);
    CutAt(project, '-', rest);
    SpanIs(name, IsWord, |project|);
    CutAt(v, '-', "build" + all);
    SpanIs(rest, IsVersionChar, |v|);
    BuildPart(v, all);
    DigitsInFront(digits, more);
    SpanIs(all, IsDigit, |digits|);
    TagAt(name, rest, v, all, |digits|);
  }

  lemma HyphensEndThem()
    ensures !IsWord('-') && !IsVersionChar('-')
  {
  }

  lemma DigitsInFront(digits: string, more: string)
    ensures (digits + more)[..|digits|] == digits && (more != [] ==> (digits + more)[|digits|] == more[0])
  {
  }

  lemma NameParts(project: string, v: string, digits: string)
    ensures project + "-" + v + "-build" + digits == project + (['-'] + (v + ("-build" + digits)))
    ensures v + ("-build" + digits) == v + (['-'] + ("build" + digits))
    ensures digits[..|digits|] == digits
  {
  }

  lemma BuildPart(v: string, digits: string)
    ensures var rest := v + ("-build" + digits); "-build" <= rest[|v|..] && rest[|v| + 6..] == digits
  {
    assert (v + ("-build" + digits))[|v|..] == "-build" + digits;
  }

  lemma CutAt(front: string, c: char, rest: string)
    ensures var s := front + ([c] + rest);
      |s| > |front| && s[..|front|] == front && s[|front|] == c && s[|front| + 1..] == rest
  {
  }

  /** Every tag that is read is put together so. */
  lemma TagHasParts(name: string) returns (digits: string, more: string)
    requires ParseTag(name).Some?
    ensures var t := ParseTag(name).value;
      && name == t.project + "-" + t.version.v + "-build" + (digits + more)
      && t.project != [] && All(IsWord, t.project) && digits != [] && All(IsDigit, digits)
      && (more == [] || !IsDigit(more[0])) && t.build == Number(digits)
  {
    hide *;
    var rest, after, p, q, d := TagShape(name);
    digits, more := after[..d], after[d..];
    Reassembled(name, rest, after, p, q);
    assert after == digits + more;
    NameParts(name[..p], rest[..q], after);
  }

  lemma TagShape(name: string) returns (rest: string, after: string, p: nat, q: nat, d: nat)
    requires ParseTag(name).Some?
    ensures 0 < p < |name| && name[p] == '-' && rest == name[p + 1..] && All(IsWord, name[..p])
    ensures 0 < q <= |rest| && "-build" <= rest[q..] && after == rest[q + 6..]
    ensures 0 < d <= |after| && All(IsDigit, after[..d]) && (d < |after| ==> !IsDigit(after[d]))
    ensures var t := ParseTag(name).value;
      t.project == name[..p] && t.version.v == rest[..q] && t.build == Number(after[..d])
  {
    hide IsWord, IsVersionChar, IsDigit, Number, ParseVersion;
    p := Span(name, IsWord);
    rest := name[p + 1..];
    q := Span(rest, IsVersionChar);
    after := rest[q + 6..];
    d := Span(after, IsDigit);
    ReadVersionText(rest[..q]);
  }

  lemma Reassembled(name: string, rest: string, after: string, p: nat, q: nat)
    requires p < |name| && name[p] == '-' && rest == name[p + 1..]
    requires q <= |rest| && "-build" <= rest[q..] && after == rest[q + 6..]
    ensures name == name[..p] + (['-'] + (rest[..q] + ("-build" + after)))
  {
    assert rest[q..] == "-build" + after;
    assert rest == rest[..q] + rest[q..];
  }

  lemma ReadVersionText(v: string)
    ensures ParseVersion(v).Some? ==> ParseVersion(v).value.v == v
  {
  }

  lemma VersionNotEmpty(v: string)
    requires ParseVersion(v).Some?
    ensures v != []
  {
  }

  // ----- Order -----

  /** Python's `<` on strings. */
  predicate Less(a: string, b: string) {
    b != [] && (a == [] || a[0] < b[0] || (a[0] == b[0] && Less(a[1..], b[1..])))
  }

  lemma {:induction false} LessOrder(a: string, b: string, c: string)
    ensures !Less(a, a)
    ensures a == b || Less(a, b) || Less(b, a)
    ensures Less(a, b) && Less(b, c) ==> Less(a, c)
  {
    if a != [] {
      LessOrder(a[1..], if b == [] then [] else b[1..], if c == [] then [] else c[1..]);
      if b != [] {
        assert a == [a[0]] + a[1..] && b == [b[0]] + b[1..];
      }
    }
  }

  /** `Version.__lt__`. */
  predicate Before(x: Version, y: Version) {
    if x.major != y.major then Less(x.major, y.major)
    else if x.isAlpha != y.isAlpha then x.isAlpha
    else x.minor < y.minor
  }

  /** The order is a strict weak order: what sorting relies on. */
  lemma BeforeIsWeakOrder(x: Version, y: Version, z: Version)
    ensures !Before(x, x)
    ensures Before(x, y) && Before(y, z) ==> Before(x, z)
    ensures Before(x, z) ==> Before(x, y) || Before(y, z)
  {
    hide Less;
    LessOrder(x.major, y.major, z.major);
    LessOrder(y.major, z.major, x.major);
    LessOrder(z.major, x.major, y.major);
    LessOrder(x.major, z.major, y.major);
    LessOrder(y.major, x.major, z.major);
  }

  /** Versions of which neither precedes the other. */
  predicate Ties(x: Version, y: Version) {
    !Before(x, y) && !Before(y, x)
  }

  /** They are those that differ at most in their text. */
  lemma TiesIff(x: Version, y: Version)
    ensures Ties(x, y) <==> x.major == y.major && x.isAlpha == y.isAlpha && x.minor == y.minor
  {
    hide Less;
    LessOrder(x.major, y.major, x.major);
    LessOrder(y.major, x.major, y.major);
  }

  // ----- Sorting -----

  predicate NewestFirst(xs: seq<Version>) {
    forall i, j :: 0 <= i < j < |xs| ==> !Before(xs[i], xs[j])
  }

  predicate After(x: Version, y: Version) {
    Before(y, x)
  }

  /** `sorted(xs, reverse=True)`: versions that tie keep their order. */
  function SortDown(xs: seq<Version>): seq<Version> {
    Sorting.Sort(xs, After)
  }

  lemma AfterIsWeakOrder(x: Version, y: Version, z: Version)
    ensures Sorting.Weak(x, y, z, After)
  {
    hide Before;
    BeforeIsWeakOrder(z, y, x);
    BeforeIsWeakOrder(x, y, z);
  }

  lemma SortDownSorts(xs: seq<Version>)
    ensures NewestFirst(SortDown(xs)) && multiset(SortDown(xs)) == multiset(xs)
  {
    hide Before, Sorting.Sort, Sorting.Weak;
    forall i, j, k | 0 <= i < |xs| && 0 <= j < |xs| && 0 <= k < |xs|
      ensures Sorting.Weak(xs[i], xs[j], xs[k], After)
    {
      AfterIsWeakOrder(xs[i], xs[j], xs[k]);
    }
    Sorting.SortOrders(xs, After);
    Sorting.SortKeeps(xs, After);
    var ss := SortDown(xs);
    assert forall i, j :: 0 <= i < j < |ss| ==> !After(ss[j], ss[i]);
  }
}
