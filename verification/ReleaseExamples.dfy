/** Scans over real tag names that end too early. */
module ReleaseExamples {
  import opened Numerals
  import opened Releases
  import opened Scanning
  import opened VersionTexts
  import opened Versions

  function TagName(project: string, v: string, build: string): string {
    project + "-" + v + "-build" + build
  }

  predicate ExampleProject(p: string) {
    p == "tbb" || p == "mb" || p == "bb"
  }

  predicate ExampleVersion(v: string) {
    v == "2.0" || v == "3.0" || v == "2.0a" || v == "3.0a"
  }

  lemma ExampleVersionReads(v: string)
    requires ExampleVersion(v)
    ensures All(IsVersionChar, v) && ParseVersion(v).Some? && ParseVersion(v).value.v == v
    ensures Channel(ParseVersion(v).value) == if |v| == 3 then "release" else "alpha"
  {
    hide Number, Span, ParseVersion;
    var m := v[..3];
    assert MajorAt(m, 1);
    if |v| == 3 {
      assert v == m + [];
      PartsRead(m, []);
    } else {
      assert v == m + "a";
      PartsRead(m, "a");
    }
  }

  /** A tag of another version, of a given project and channel. */
  predicate OtherTag(name: string, cur: Version, key: Key) {
    var t := ParseTag(name);
    t.Some? && t.value.version.v != cur.v && KeyOf(t.value) == key
  }

  predicate OtherTags(names: seq<string>, cur: Version, keys: seq<Key>) {
    |names| == |keys| && forall i :: 0 <= i < |names| ==> OtherTag(names[i], cur, keys[i])
  }

  predicate Different(keys: seq<Key>) {
    forall i, j :: 0 <= i < j < |keys| ==> keys[i] != keys[j]
  }

  lemma ExampleReads(project: string, v: string, cur: Version)
    requires ExampleProject(project) && ExampleVersion(v) && v != cur.v
    ensures OtherTag(TagName(project, v, "1"), cur, (project, if |v| == 3 then "release" else "alpha"))
  {
    hide Number, ParseTag, Channel, ParseVersion;
    ExampleVersionReads(v);
    assert "1" + "" == "1";
    TagReadsBack(project, v, "1", "");
  }

  /** What such names are read as. */
  lemma OthersAreRead(names: seq<string>, cur: Version, keys: seq<Key>)
    requires OtherTags(names, cur, keys) && Different(keys)
    ensures Readable(names) && Others(Tags(names), cur)
  {
    hide ParseTag, KeyOf;
    forall i | 0 <= i < |names|
      ensures ParseTag(names[i]).Some? && ParseTag(names[i]).value.version.v != cur.v
      ensures KeyOf(ParseTag(names[i]).value) == keys[i]
    {
      assert OtherTag(names[i], cur, keys[i]);
    }
  }

  /** Tags of other versions, each of its own project and channel. */
  predicate Others(ts: seq<Tag>, cur: Version) {
    && (forall i :: 0 <= i < |ts| ==> ts[i].version.v != cur.v)
    && (forall i, j :: 0 <= i < j < |ts| ==> KeyOf(ts[i]) != KeyOf(ts[j]))
  }

  lemma ReadOne()
    ensures Number("1") == 1 && Number("2") == 2
  {
    hide Number;
    assert "1" == [] + ['1'] && "2" == [] + ['2'];
    NumberSnoc([], '1');
    NumberSnoc([], '2');
    NoDigits();
  }

  // ----- A third project -----

  /** Versions other than the current one. */
  function OtherRelease(cur: Version): string {
    if cur.v == "2.0" then "3.0" else "2.0"
  }

  function OtherAlpha(cur: Version): string {
    if cur.v == "2.0a" then "3.0a" else "2.0a"
  }

  /** The tags of three projects. */
  function ThreeProjects(cur: Version): (names: seq<string>)
    ensures |names| == 5
  {
    var v, a := OtherRelease(cur), OtherAlpha(cur);
    [TagName("tbb", v, "1"), TagName("tbb", a, "1"), TagName("mb", v, "1"), TagName("mb", a, "1"),
     TagName("bb", v, "1")]
  }

  lemma OthersDiffer(cur: Version)
    ensures ExampleVersion(OtherRelease(cur)) && |OtherRelease(cur)| == 3 && OtherRelease(cur) != cur.v
    ensures ExampleVersion(OtherAlpha(cur)) && |OtherAlpha(cur)| == 4 && OtherAlpha(cur) != cur.v
  {
    assert "2.0"[0] != "3.0"[0] && "2.0a"[0] != "3.0a"[0];
  }

  function FiveKeys(): (keys: seq<Key>)
    ensures |keys| == 5
  {
    [("tbb", "release"), ("tbb", "alpha"), ("mb", "release"), ("mb", "alpha"), ("bb", "release")]
  }

  lemma FiveKeysDiffer()
    ensures Different(FiveKeys()) && Different(FiveKeys()[..4])
  {
    assert "tbb"[0] != "mb"[0] && "mb"[0] != "bb"[0] && "tbb"[0] != "bb"[0] && "release"[0] != "alpha"[0];
  }

  lemma FourAreOthers(cur: Version)
    ensures OtherTags(ThreeProjects(cur)[..4], cur, FiveKeys()[..4])
  {
    hide OtherTag, TagName, OtherRelease, OtherAlpha;
    OthersDiffer(cur);
    var v, a := OtherRelease(cur), OtherAlpha(cur);
    ExampleReads("tbb", v, cur);
    ExampleReads("tbb", a, cur);
    ExampleReads("mb", v, cur);
    ExampleReads("mb", a, cur);
  }

  lemma FiveAreOthers(cur: Version)
    ensures OtherTags(ThreeProjects(cur), cur, FiveKeys())
  {
    hide OtherTag, TagName, OtherRelease, OtherAlpha;
    OthersDiffer(cur);
    ExampleReads("bb", OtherRelease(cur), cur);
    FourAreOthers(cur);
    var names, keys := ThreeProjects(cur), FiveKeys();
    forall i | 0 <= i < 5
      ensures OtherTag(names[i], cur, keys[i])
    {
      if i < 4 {
        assert OtherTag(names[..4][i], cur, keys[..4][i]);
      }
    }
  }

  /** Whatever the current version, a third project can lose a release, even when one is wanted of each key. */
  lemma ThirdProjectCanBeLost(cur: Version)
    ensures var names := ThreeProjects(cur);
      && Readable(names) && Found(Tags(names)[..4], cur, 1) == 4
      && Selected(Tags(names)[..4], cur, 1) != Selected(Tags(names), cur, 1)
  {
    hide Others, Different, OtherTags, ThreeProjects, FiveKeys, Found, Selected, Readable, Tags;
    var names := ThreeProjects(cur);
    FiveAreOthers(cur);
    FiveKeysDiffer();
    OthersAreRead(names, cur, FiveKeys());
    TagsOfFive(cur);
    LosesTheFifth(Tags(names), cur);
  }

  lemma TagsOfFive(cur: Version)
    requires Readable(ThreeProjects(cur))
    ensures |Tags(ThreeProjects(cur))| == 5
  {
  }

  lemma LosesTheFifth(ts: seq<Tag>, cur: Version)
    requires |ts| == 5 && Others(ts, cur)
    ensures Found(ts[..4], cur, 1) == 4 && Selected(ts[..4], cur, 1) != Selected(ts, cur, 1)
  {
    hide Selected, KeyOf;
    FirstFour(ts, cur);
    hide Keys, Found;
    assert ts == ts[..4] + [ts[4]];
    NewKeyAdds(ts[..4], ts[4], cur);
    StoppingLosesNothingIff(ts, 4, cur, 1);
  }

  lemma FirstFour(ts: seq<Tag>, cur: Version)
    requires |ts| >= 4 && Others(ts[..4], cur)
    ensures Found(ts[..4], cur, 1) == 4
    ensures Keys(ts[..4], cur) == {KeyOf(ts[0]), KeyOf(ts[1]), KeyOf(ts[2]), KeyOf(ts[3])}
  {
    hide Keys, Found, KeyOf;
    assert forall i :: 0 <= i < 4 ==> ts[..4][i] == ts[i];
    NoKeys(cur);
    assert ts[..0] == [] && ts[..1] == ts[..0] + [ts[0]] && ts[..2] == ts[..1] + [ts[1]];
    assert ts[..3] == ts[..2] + [ts[2]] && ts[..4] == ts[..3] + [ts[3]];
    NewKeyAdds(ts[..0], ts[0], cur);
    NewKeyAdds(ts[..1], ts[1], cur);
    NewKeyAdds(ts[..2], ts[2], cur);
    NewKeyAdds(ts[..3], ts[3], cur);
  }

  // ----- The current version behind the others -----

  /** Four newer releases, and then an earlier build of the version being prepared. */
  function CurrentIsOld(cur: Version): seq<string> {
    ThreeProjects(cur)[..4] + [TagName("tbb", cur.v, "2")]
  }

  /** For any version, the scan can end before it sees the version's last build, which it would then build again. */
  lemma LastBuildCanBeMissed(cur: Version)
    requires IsVersion(cur) && All(IsVersionChar, cur.v)
    ensures var names := CurrentIsOld(cur);
      && Readable(names) && Found(Tags(names)[..4], cur, 1) == 4
      && BuildNumber(Tags(names)[..4], cur) == 1 && BuildNumber(Tags(names), cur) == 3
  {
    hide Others, Different, OtherTags, ThreeProjects, FiveKeys, Found, BuildNumber, ParseTag, TagName;
    var names := CurrentIsOld(cur);
    FourAreOthers(cur);
    FiveKeysDiffer();
    OthersAreRead(ThreeProjects(cur)[..4], cur, FiveKeys()[..4]);
    CurrentReads(cur);
    FourAndLast(ThreeProjects(cur)[..4], TagName("tbb", cur.v, "2"), cur);
  }

  lemma FourAndLast(four: seq<string>, last: string, cur: Version)
    requires |four| == 4 && Readable(four) && Others(Tags(four), cur)
    requires ParseTag(last).Some? && ParseTag(last).value.version == cur && ParseTag(last).value.build == 2
    ensures Readable(four + [last])
    ensures var ts := Tags(four + [last]);
      |ts| == 5 && Found(ts[..4], cur, 1) == 4 && BuildNumber(ts[..4], cur) == 1 && BuildNumber(ts, cur) == 3
  {
    var t := ParseTag(last).value;
    LastRead(four, last);
    hide ParseTag, Others, Found, BuildNumber, Readable, Tags;
    FirstFour(Tags(four + [last]), cur);
    OthersDoNotBuild(Tags(four), cur);
    BuildSnoc(Tags(four), t, cur);
  }

  lemma LastRead(four: seq<string>, last: string)
    requires |four| == 4 && Readable(four) && ParseTag(last).Some?
    ensures Readable(four + [last]) && Tags(four + [last]) == Tags(four) + [ParseTag(last).value]
    ensures |Tags(four)| == 4 && Tags(four + [last])[..4] == Tags(four)
  {
    hide ParseTag;
  }

  lemma OthersDoNotBuild(ts: seq<Tag>, cur: Version)
    requires Others(ts, cur)
    ensures BuildNumber(ts, cur) == 1
  {
    hide KeyOf;
    BuildFollowsNewest(ts, cur, |ts|);
  }

  lemma CurrentReads(cur: Version)
    requires IsVersion(cur) && All(IsVersionChar, cur.v)
    ensures var t := ParseTag(TagName("tbb", cur.v, "2")); t.Some? && t.value.version == cur && t.value.build == 2
  {
    hide Number, ParseTag, ParseVersion;
    assert "2" + "" == "2";
    TagReadsBack("tbb", cur.v, "2", "");
    ReadOne();
  }
}
