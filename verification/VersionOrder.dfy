/** Which of two versions is the newer one, and which list a release tag belongs to. */
module VersionOrder {
  import opened ByteStrings
  import opened Numerals
  import opened Releases
  import opened Scanning
  import opened Versions

  // ----- Major versions -----

  /** Of two texts that have gone the same way so far: `s` ends first, or goes on with a smaller character. */
  predicate Ahead(s: string, t: string) {
    t != [] && (s == [] || s[0] < t[0])
  }

  lemma {:induction false} AheadIsLess(c: string, s: string, t: string)
    requires Ahead(s, t)
    ensures Less(c + s, c + t) && !Less(c + t, c + s)
  {
    if c == [] {
      assert c + t == t && c + s == s;
    } else {
      assert (c + t)[0] == (c + s)[0] == c[0];
      assert (c + t)[1..] == c[1..] + t && (c + s)[1..] == c[1..] + s;
      AheadIsLess(c[1..], s, t);
    }
  }

  /** A version of one major version: releases are newer than alphas, and higher minor numbers newer than lower. */
  predicate NewerWithin(x: Version, y: Version) {
    x.major == y.major && if x.isAlpha == y.isAlpha then x.minor > y.minor else y.isAlpha
  }

  lemma NotInFront(xs: seq<Version>, j: nat, i: nat)
    requires NewestFirst(xs) && j <= i < |xs|
    ensures !Before(xs[j], xs[i])
  {
    hide Before;
    BeforeIsWeakOrder(xs[i], xs[i], xs[i]);
  }

  /** In a list of the newest first, a version stands in front of those of its major version that it is newer than. */
  lemma NewerInFront(xs: seq<Version>, i: nat, j: nat)
    requires NewestFirst(xs) && i < |xs| && j < |xs| && NewerWithin(xs[i], xs[j])
    ensures i < j
  {
    hide Less;
    if j <= i {
      NotInFront(xs, j, i);
    }
  }

  /** A major version stands in front of those that it comes behind in the order of texts. */
  lemma MajorInFront(xs: seq<Version>, i: nat, j: nat, c: string, s: string, t: string)
    requires NewestFirst(xs) && i < |xs| && j < |xs|
    requires xs[j].major == c + s && xs[i].major == c + t && Ahead(s, t)
    ensures i < j
  {
    AheadIsLess(c, s, t);
    hide Less;
    LessOrder(xs[j].major, xs[i].major, xs[j].major);
    if j <= i {
      NotInFront(xs, j, i);
    }
  }

  // ----- Texts and numbers -----

  lemma {:induction false} LessSplit(a: string, s: string, b: string, t: string)
    requires |a| == |b|
    ensures Less(a + s, b + t) <==> Less(a, b) || (a == b && Less(s, t))
  {
    if a == [] {
      assert a + s == s && b + t == t;
    } else {
      assert (a + s)[1..] == a[1..] + s && (b + t)[1..] == b[1..] + t;
      assert a == [a[0]] + a[1..] && b == [b[0]] + b[1..];
      LessSplit(a[1..], s, b[1..], t);
    }
  }

  lemma LessOne(x: char, y: char)
    ensures Less([x], [y]) <==> x < y
  {
    assert [x][1..] == [] && [y][1..] == [];
  }

  /** Numerals of one length are in order as texts exactly when they are as numbers. */
  lemma {:induction false} SameLengthNumbers(a: string, b: string)
    requires |a| == |b| && All(IsDigit, a) && All(IsDigit, b)
    ensures (Less(a, b) <==> Number(a) < Number(b)) && (a == b <==> Number(a) == Number(b))
  {
    hide Number;
    if a != [] {
      var n := |a| - 1;
      var c, d, x, y := a[..n], b[..n], a[n], b[n];
      assert a == c + [x] && b == d + [y];
      SameLengthNumbers(c, d);
      hide Less;
      LessSplit(c, [x], d, [y]);
      LessOne(x, y);
      LessOrder(c, d, c);
      NumberSnoc(c, x);
      NumberSnoc(d, y);
    }
  }

  /** Major versions whose numbers have as many digits are ordered by their numbers. */
  lemma MajorsInOrder(a: string, b: string, c: string, d: string)
    requires |a| == |c| && |b| == |d|
    requires All(IsDigit, a) && All(IsDigit, b) && All(IsDigit, c) && All(IsDigit, d)
    ensures Less(a + ("." + b), c + ("." + d))
       <==> Number(a) < Number(c) || (Number(a) == Number(c) && Number(b) < Number(d))
  {
    SameLengthNumbers(a, c);
    SameLengthNumbers(b, d);
    hide Less, Number;
    LessSplit(a, "." + b, c, "." + d);
    LessSplit(".", b, ".", d);
    DotIsDot();
  }

  lemma DotIsDot()
    ensures !Less(".", ".")
  {
  }

  /** The order is that of texts all the same: version 100.0 would come before 99.0. */
  lemma HundredComesFirst()
    ensures Less("100.0", "99.0") && Number("100") > Number("99")
  {
    AheadIsLess("", "100.0", "99.0");
    assert "" + "100.0" == "100.0" && "" + "99.0" == "99.0";
    NumberSnoc("10", '0');
    NumberSnoc("1", '0');
    NumberSnoc("", '1');
    NumberSnoc("9", '9');
    NumberSnoc("", '9');
    NoDigits();
    assert "10" + ['0'] == "100" && "1" + ['0'] == "10" && "" + ['1'] == "1";
    assert "9" + ['9'] == "99" && "" + ['9'] == "9";
  }

  // ----- Lists of releases -----

  /** A tag is listed for a project and a channel, named after whether its version is an alpha. */
  predicate ListedFor(t: Tag, project: string, alpha: bool, cur: Version) {
    t.project == project && t.version.isAlpha == alpha && t.version.v != cur.v
  }

  /** The tag at `i` is the first of its project, channel and version. */
  predicate FirstListed(ts: seq<Tag>, i: nat, project: string, alpha: bool, cur: Version)
    requires i < |ts|
  {
    && ListedFor(ts[i], project, alpha, cur)
    && forall j :: 0 <= j < i ==> !(ListedFor(ts[j], project, alpha, cur) && ts[j].version.v == ts[i].version.v)
  }

  lemma FirstListedIff(ts: seq<Tag>, i: nat, project: string, alpha: bool, cur: Version)
    requires i < |ts|
    ensures FirstListed(ts, i, project, alpha, cur)
       <==> FirstOfVersion(ts, cur, (project, if alpha then "alpha" else "release"), i)
  {
  }

  /**
    The list of a project and channel: tags at ascending positions, each the first of its version;
    of those, the first ones, up to the number that is asked for.
  */
  lemma ListIs(ts: seq<Tag>, cur: Version, n: nat, project: string, alpha: bool) returns (at: seq<nat>)
    ensures forall k :: 0 <= k < |at| ==> at[k] < |ts| && FirstListed(ts, at[k], project, alpha, cur)
    ensures forall k, l :: 0 <= k < l < |at| ==> at[k] < at[l]
    ensures forall i :: 0 <= i < |ts| && FirstListed(ts, i, project, alpha, cur) ==> i in at
    ensures var list := Wanted(ts, cur, n, (project, if alpha then "alpha" else "release"));
      |list| == Min(|at|, n) && forall k :: 0 <= k < |list| ==> list[k] == ts[at[k]]
  {
    var key := (project, if alpha then "alpha" else "release");
    at := Firsts(ts, cur, key);
    WantedAreFirsts(ts, cur, n, key);
    hide Wanted, Firsts, FirstListed, FirstOfVersion;
    forall i | 0 <= i < |ts|
      ensures FirstListed(ts, i, project, alpha, cur) <==> FirstOfVersion(ts, cur, key, i)
    {
      FirstListedIff(ts, i, project, alpha, cur);
    }
  }
}
