/** Building a changelog: entries are collected in two lists, sorted, and printed. */
module ChangelogBuilder {
  import opened ByteStrings
  import opened ChangelogEntries
  import opened ChangelogText
  import opened Wrappers

  // ----- Linked issues, a dictionary by reference -----

  /** `d[j.ref] = j`: a known reference keeps its place. */
  function Enter(d: seq<IssueData>, j: IssueData): seq<IssueData> {
    if d == [] then [j]
    else if d[0].ref == j.ref then [j] + d[1..]
    else [d[0]] + Enter(d[1..], j)
  }

  function EnterAll(d: seq<IssueData>, js: seq<IssueData>): seq<IssueData> {
    if js == [] then d else Enter(EnterAll(d, js[..|js| - 1]), js[|js| - 1])
  }

  function Refs(d: seq<IssueData>): set<string> {
    set j | j in d :: j.ref
  }

  /** The issues linked from any of the given ones. */
  function Included(ids: seq<nat>, links: nat -> seq<IssueData>): seq<IssueData> {
    if ids == [] then [] else EnterAll(Included(ids[..|ids| - 1], links), links(ids[|ids| - 1]))
  }

  function Excluded(ids: seq<nat>, links: nat -> seq<IssueData>): set<string> {
    if ids == [] then {} else Excluded(ids[..|ids| - 1], links) + Refs(links(ids[|ids| - 1]))
  }

  function Without(d: seq<IssueData>, refs: set<string>): seq<IssueData> {
    if d == [] then [] else (if d[0].ref in refs then [] else [d[0]]) + Without(d[1..], refs)
  }

  /** The release preparation issue itself is always among those whose links are included. */
  function ToInclude(self: nat, includeFrom: Option<seq<nat>>): seq<nat> {
    match includeFrom
    case None => [self]
    case Some(ids) => if self in ids then ids else ids + [self]
  }

  function ToExclude(excludeFrom: Option<seq<nat>>): seq<nat> {
    if excludeFrom.None? then [] else excludeFrom.value
  }

  function Linked(self: nat, includeFrom: Option<seq<nat>>, excludeFrom: Option<seq<nat>>,
                  links: nat -> seq<IssueData>): seq<IssueData>
  {
    Without(Included(ToInclude(self, includeFrom), links), Excluded(ToExclude(excludeFrom), links))
  }

  predicate DistinctRefs(d: seq<IssueData>) {
    forall i, j :: 0 <= i < j < |d| ==> d[i].ref != d[j].ref
  }

  lemma {:induction false} EnterKeeps(d: seq<IssueData>, j: IssueData)
    requires DistinctRefs(d)
    ensures DistinctRefs(Enter(d, j)) && Refs(Enter(d, j)) == Refs(d) + {j.ref}
  {
    if d == [] {
      assert Refs([j]) == {j.ref};
    } else {
      RefsCons(d[0], d[1..]);
      assert d == [d[0]] + d[1..];
      if d[0].ref == j.ref {
        RefsCons(j, d[1..]);
      } else {
        EnterKeeps(d[1..], j);
        RefsCons(d[0], Enter(d[1..], j));
        assert d[0].ref !in Refs(d[1..]);
      }
    }
  }

  lemma RefsOfCons(x: IssueData, rest: seq<IssueData>)
    ensures Refs([x] + rest) == {x.ref} + Refs(rest)
  {
    var all := [x] + rest;
    assert forall j :: j in all <==> j == x || j in rest;
  }

  lemma TailDistinct(x: IssueData, rest: seq<IssueData>)
    requires DistinctRefs([x] + rest)
    ensures DistinctRefs(rest) && forall j :: j in rest ==> j.ref != x.ref
  {
    var all := [x] + rest;
    assert all[0] == x && forall i :: 0 <= i < |rest| ==> all[i + 1] == rest[i];
  }

  lemma MoreDistinct(x: IssueData, rest: seq<IssueData>)
    requires DistinctRefs(rest) && forall j :: j in rest ==> j.ref != x.ref
    ensures DistinctRefs([x] + rest)
  {
    var all := [x] + rest;
    forall i, j | 0 <= i < j < |all|
      ensures all[i].ref != all[j].ref
    {
      assert all[j] == rest[j - 1] && rest[j - 1] in rest;
      assert i > 0 ==> all[i] == rest[i - 1];
    }
  }

  lemma NotAmongRefs(x: IssueData, rest: seq<IssueData>)
    ensures x.ref !in Refs(rest) <==> forall j :: j in rest ==> j.ref != x.ref
  {
  }

  lemma DistinctCons(x: IssueData, rest: seq<IssueData>)
    ensures DistinctRefs([x] + rest) <==> DistinctRefs(rest) && x.ref !in Refs(rest)
  {
    hide DistinctRefs, Refs;
    NotAmongRefs(x, rest);
    if DistinctRefs([x] + rest) {
      TailDistinct(x, rest);
    }
    if DistinctRefs(rest) && x.ref !in Refs(rest) {
      MoreDistinct(x, rest);
    }
  }

  lemma RefsCons(x: IssueData, rest: seq<IssueData>)
    ensures Refs([x] + rest) == {x.ref} + Refs(rest)
    ensures DistinctRefs([x] + rest) <==> DistinctRefs(rest) && x.ref !in Refs(rest)
  {
    hide Refs, DistinctRefs;
    RefsOfCons(x, rest);
    DistinctCons(x, rest);
  }

  lemma RefsSnoc(rest: seq<IssueData>, x: IssueData)
    ensures Refs(rest + [x]) == Refs(rest) + {x.ref}
  {
    var all := rest + [x];
    assert forall j :: j in all <==> j == x || j in rest;
  }

  lemma {:induction false} EnterAllKeeps(d: seq<IssueData>, js: seq<IssueData>)
    requires DistinctRefs(d)
    ensures DistinctRefs(EnterAll(d, js)) && Refs(EnterAll(d, js)) == Refs(d) + Refs(js)
  {
    if js != [] {
      var init, j := js[..|js| - 1], js[|js| - 1];
      assert EnterAll(d, js) == Enter(EnterAll(d, init), j);
      hide *;
      EnterAllKeeps(d, init);
      EnterKeeps(EnterAll(d, init), j);
      assert js == init + [j];
      RefsSnoc(init, j);
      UnionAssoc(Refs(d), Refs(init), {j.ref});
    }
  }

  lemma UnionAssoc(a: set<string>, b: set<string>, c: set<string>)
    ensures a + (b + c) == (a + b) + c
  {
  }

  lemma {:induction false} IncludedIs(ids: seq<nat>, links: nat -> seq<IssueData>)
    ensures DistinctRefs(Included(ids, links)) && Refs(Included(ids, links)) == Excluded(ids, links)
  {
    hide EnterAll;
    if ids != [] {
      var n := |ids| - 1;
      IncludedIs(ids[..n], links);
      EnterAllKeeps(Included(ids[..n], links), links(ids[n]));
    }
  }

  lemma {:induction false} WithoutIs(d: seq<IssueData>, refs: set<string>)
    requires DistinctRefs(d)
    ensures DistinctRefs(Without(d, refs)) && Refs(Without(d, refs)) == Refs(d) - refs
  {
    if d != [] {
      assert d == [d[0]] + d[1..];
      RefsCons(d[0], d[1..]);
      WithoutIs(d[1..], refs);
      RefsCons(d[0], Without(d[1..], refs));
      assert [] + Without(d[1..], refs) == Without(d[1..], refs);
    }
  }

  /** Each reference is entered once: those linked from an included issue and from no excluded one. */
  lemma LinkedIs(self: nat, includeFrom: Option<seq<nat>>, excludeFrom: Option<seq<nat>>, links: nat -> seq<IssueData>)
    ensures var d := Linked(self, includeFrom, excludeFrom, links);
      && DistinctRefs(d)
      && Refs(d) == Excluded(ToInclude(self, includeFrom), links) - Excluded(ToExclude(excludeFrom), links)
  {
    IncludedIs(ToInclude(self, includeFrom), links);
    WithoutIs(Included(ToInclude(self, includeFrom), links), Excluded(ToExclude(excludeFrom), links));
  }

  // ----- What is collected -----

  /** The names of updated components, each with the key its version is given under. */
  function UpdateNames(isMb: bool): seq<(string, string)> {
    [("Firefox", "firefox"), ("NoScript", "noscript")]
    + (if isMb then [("Mullvad Browser Extension", "mb_extension"), ("uBlock Origin", "ublock")]
       else [("GeckoView", "firefox"), ("Tor", "tor"), ("OpenSSL", "openssl"), ("zlib", "zlib"),
             ("Zstandard", "zstd"), ("Go", "go")])
  }

  predicate Given(updates: map<string, string>, key: string) {
    key in updates && updates[key] != ""
  }

  function UpdateEntries(names: seq<(string, string)>, updates: map<string, string>, isMb: bool): seq<Entry> {
    if names == [] then []
    else
      var (name, key) := names[|names| - 1];
      UpdateEntries(names[..|names| - 1], updates, isMb)
      + (if Given(updates, key) then [NewUpdate(name, updates[key], isMb)] else [])
  }

  function IssueEntries(linked: seq<IssueData>, isMb: bool): Option<seq<Entry>> {
    if linked == [] then Some([])
    else
      match IssueEntries(linked[..|linked| - 1], isMb)
      case None => None
      case Some(before) =>
        match IssueOf(linked[|linked| - 1], isMb)
        case None => None
        case Some(x) => Some(before + [x])
  }

  /** The entries for the build list, or those for the other. */
  function Part(xs: seq<Entry>, isBuild: bool): seq<Entry> {
    if xs == [] then []
    else Part(xs[..|xs| - 1], isBuild) + (if xs[|xs| - 1].isBuild == isBuild then [xs[|xs| - 1]] else [])
  }

  lemma PartSnoc(xs: seq<Entry>, x: Entry, isBuild: bool)
    ensures Part(xs + [x], isBuild) == Part(xs, isBuild) + (if x.isBuild == isBuild then [x] else [])
  {
    assert (xs + [x])[..|xs|] == xs;
  }

  // ----- The text -----

  function Title(isMb: bool, version: string, date: string): string {
    (if isMb then "Mullvad" else "Tor") + " Browser " + version + " - " + date + "\n"
  }

  /** The changelog of two sorted lists. */
  function Printed(main: seq<Entry>, build: seq<Entry>, isMb: bool, version: string, date: string): string {
    Title(isMb, version, date) + TextOf(Grouped(main), "")
    + (if build == [] then "" else " * Build System\n" + TextOf(Grouped(build), "  "))
  }

  datatype Failure = OtherBrowser | UnknownProject

  /** The changelog of a list of entries, or the error of sorting them. */
  function Changelog(all: seq<Entry>, isMb: bool, version: string, date: string): Result<string, Failure> {
    match (TrySort(Part(all, false), isMb), TrySort(Part(all, true), isMb))
    case (Some(main), Some(build)) => Ok(Printed(main, build, isMb, version, date))
    case _ => Err(UnknownProject)
  }

  class Builder {
    const isMullvad: bool
    const version: string
    const relprepIssue: nat
    var issues: seq<Entry>
    var issuesBuild: seq<Entry>

    constructor (isMullvad: bool, version: string, relprepIssue: nat)
      ensures this.isMullvad == isMullvad && this.version == version && this.relprepIssue == relprepIssue
    {
      this.isMullvad, this.version, this.relprepIssue := isMullvad, version, relprepIssue;
      issues, issuesBuild := [], [];
    }

    /** The lists hold the entries added so far. */
    ghost predicate Holds(all: seq<Entry>)
      reads this
    {
      issues == Part(all, false) && issuesBuild == Part(all, true)
    }

    method AddEntry(x: Entry, ghost all: seq<Entry>)
      requires Holds(all)
      modifies this
      ensures Holds(all + [x])
    {
      PartSnoc(all, x, false);
      PartSnoc(all, x, true);
      if x.isBuild {
        issuesBuild := issuesBuild + [x];
      } else {
        issues := issues + [x];
      }
    }

    /** The dictionary of the issues to take, with `links` for what the server answers. */
    method Collect(includeFrom: Option<seq<nat>>, excludeFrom: Option<seq<nat>>, links: nat -> seq<IssueData>)
      returns (included: seq<IssueData>)
      ensures included == Linked(relprepIssue, includeFrom, excludeFrom, links)
    {
      var includes := if includeFrom.None? then [relprepIssue] else includeFrom.value;
      if includeFrom.Some? && relprepIssue !in includes {
        includes := includes + [relprepIssue];
      }
      var excludes := if excludeFrom.None? then [] else excludeFrom.value;
      included := [];
      assert includes[..0] == [];
      for i := 0 to |includes|
        invariant included == Included(includes[..i], links)
      {
        assert includes[..i + 1][..i] == includes[..i];
        included := Enlarge(included, links(includes[i]));
      }
      assert includes[..|includes|] == includes;
      var excluded: set<string> := {};
      assert excludes[..0] == [];
      for i := 0 to |excludes|
        invariant excluded == Excluded(excludes[..i], links)
      {
        assert excludes[..i + 1][..i] == excludes[..i];
        excluded := excluded + Refs(links(excludes[i]));
      }
      assert excludes[..|excludes|] == excludes;
      included := Without(included, excluded);
    }

    method Enlarge(d: seq<IssueData>, js: seq<IssueData>) returns (r: seq<IssueData>)
      ensures r == EnterAll(d, js)
    {
      r := d;
      assert js[..0] == [];
      for i := 0 to |js|
        invariant r == EnterAll(d, js[..i])
      {
        assert js[..i + 1][..i] == js[..i];
        r := Enter(r, js[i]);
      }
      assert js[..|js|] == js;
    }

    /** `_find_linked`: the lists hold the entries of the linked issues. */
    method FindLinked(includeFrom: Option<seq<nat>>, excludeFrom: Option<seq<nat>>, links: nat -> seq<IssueData>)
      returns (ok: bool, ghost all: seq<Entry>)
      modifies this
      ensures match IssueEntries(Linked(relprepIssue, includeFrom, excludeFrom, links), isMullvad)
        case None => !ok
        case Some(xs) => ok && all == xs && Holds(all)
    {
      hide IssueOf, Linked;
      issues, issuesBuild, all := [], [], [];
      var linked := Collect(includeFrom, excludeFrom, links);
      assert linked[..0] == [];
      for i := 0 to |linked|
        invariant IssueEntries(linked[..i], isMullvad) == Some(all) && Holds(all)
      {
        assert linked[..i + 1][..i] == linked[..i];
        var x := NewIssue(linked[i], isMullvad);
        if x.None? {
          FailureStays(linked, i + 1, isMullvad);
          return false, all;
        }
        AddEntry(x.value, all);
        all := all + [x.value];
      }
      assert linked[..|linked|] == linked;
      return true, all;
    }

    method AddUpdates(updates: map<string, string>, ghost all0: seq<Entry>) returns (ghost all: seq<Entry>)
      requires Holds(all0)
      modifies this
      ensures all == all0 + UpdateEntries(UpdateNames(isMullvad), updates, isMullvad) && Holds(all)
    {
      hide NewUpdate, Part;
      var names := UpdateNames(isMullvad);
      all := all0;
      assert names[..0] == [] && all0 + [] == all0;
      for i := 0 to |names|
        invariant all == all0 + UpdateEntries(names[..i], updates, isMullvad) && Holds(all)
      {
        assert names[..i + 1][..i] == names[..i];
        var (name, key) := names[i];
        if key in updates && updates[key] != "" {
          var x := NewUpdate(name, updates[key], isMullvad);
          AddEntry(x, all);
          Assoc(all0, UpdateEntries(names[..i], updates, isMullvad), [x]);
          all := all + [x];
        } else {
          assert UpdateEntries(names[..i], updates, isMullvad) + [] == UpdateEntries(names[..i], updates, isMullvad);
        }
      }
      assert names[..|names|] == names;
    }

    /** One loop of `create`: a heading is printed when it differs from the one before. */
    method PrintList(xs: seq<Entry>, indent: string) returns (text: string)
      ensures text == TextOf(Grouped(xs), indent)
    {
      hide Heading, LineText, TextOf, Grouped, LastHeading;
      NothingPrinted(indent);
      text := "";
      var prevPlatform := "";
      assert xs[..0] == [];
      for i := 0 to |xs|
        invariant text == TextOf(Grouped(xs[..i]), indent) && prevPlatform == LastHeading(xs[..i])
      {
        assert xs[..i + 1] == xs[..i] + [xs[i]];
        var platform := Heading(xs[i].platform);
        PrintedNext(xs[..i], xs[i], indent);
        if platform != prevPlatform {
          text := text + LineText(Head(platform), indent);
          prevPlatform := platform;
        }
        text := text + LineText(Item(xs[i]), indent);
      }
      assert xs[..|xs|] == xs;
    }

    /** `create`, which fails for an issue that can not be of this browser, or that can not be sorted. */
    method Create(includeFrom: Option<seq<nat>>, excludeFrom: Option<seq<nat>>, links: nat -> seq<IssueData>,
                  updates: map<string, string>, date: string)
      returns (r: Result<string, Failure>)
      modifies this
      ensures r == match IssueEntries(Linked(relprepIssue, includeFrom, excludeFrom, links), isMullvad)
        case None => Err(OtherBrowser)
        case Some(xs) =>
          Changelog(xs + UpdateEntries(UpdateNames(isMullvad), updates, isMullvad), isMullvad, version, date)
    {
      hide IssueEntries, UpdateEntries, Part, Sort, Grouped, AllComparable, Linked;
      var ok, all := FindLinked(includeFrom, excludeFrom, links);
      if !ok {
        return Err(OtherBrowser);
      }
      all := AddUpdates(updates, all);
      var main := TrySort(issues, isMullvad);
      if main.None? {
        return Err(UnknownProject);
      }
      issues := main.value;
      var build := TrySort(issuesBuild, isMullvad);
      if build.None? {
        return Err(UnknownProject);
      }
      issuesBuild := build.value;
      var text := Title(isMullvad, version, date);
      var list := PrintList(issues, "");
      text := text + list;
      if issuesBuild != [] {
        var buildList := PrintList(issuesBuild, "  ");
        text := text + (" * Build System\n" + buildList);
      } else {
        assert text + "" == text;
      }
      return Ok(text);
    }
  }

  lemma {:induction false} FailureStays(linked: seq<IssueData>, n: nat, isMb: bool)
    requires n <= |linked| && IssueEntries(linked[..n], isMb).None?
    ensures IssueEntries(linked, isMb).None?
    decreases |linked|
  {
    hide IssueOf;
    if n < |linked| {
      assert linked[..|linked| - 1][..n] == linked[..n];
      FailureStays(linked[..|linked| - 1], n, isMb);
    } else {
      assert linked[..n] == linked;
    }
  }

  lemma TextSnoc(lines: seq<Line>, l: Line, indent: string)
    ensures TextOf(lines + [l], indent) == TextOf(lines, indent) + LineText(l, indent)
  {
    assert (lines + [l])[..|lines|] == lines;
  }

  lemma NothingPrinted(indent: string)
    ensures TextOf(Grouped([]), indent) == "" && LastHeading([]) == ""
  {
  }

  lemma PrintedNext(xs: seq<Entry>, x: Entry, indent: string)
    ensures TextOf(Grouped(xs + [x]), indent) ==
      if Heading(x.platform) != LastHeading(xs)
      then TextOf(Grouped(xs), indent) + LineText(Head(Heading(x.platform)), indent) + LineText(Item(x), indent)
      else TextOf(Grouped(xs), indent) + LineText(Item(x), indent)
    ensures LastHeading(xs + [x]) == Heading(x.platform)
  {
    hide Heading, LineText, TextOf, Grouped;
    GroupedSnoc(xs, x);
    var lines := Grouped(xs);
    if Heading(x.platform) != LastHeading(xs) {
      TextSnoc(lines, Head(Heading(x.platform)), indent);
      TextSnoc(lines + [Head(Heading(x.platform))], Item(x), indent);
    } else {
      assert lines + [] == lines;
      TextSnoc(lines, Item(x), indent);
    }
  }

  // ----- What the lists are like -----

  /** Of real platforms, and counted unless it is a build entry. */
  predicate Proper(x: Entry) {
    1 <= x.platform <= 15 && (Counted(x) || x.isBuild)
  }

  predicate AllProper(xs: seq<Entry>) {
    forall i :: 0 <= i < |xs| ==> Proper(xs[i])
  }

  lemma {:induction false} IssuesAreProper(linked: seq<IssueData>, isMb: bool)
    requires IssueEntries(linked, isMb).Some?
    ensures AllProper(IssueEntries(linked, isMb).value)
  {
    hide IssueOf, Counted;
    if linked != [] {
      var n := |linked| - 1;
      IssuesAreProper(linked[..n], isMb);
      EntriesAreCounted(linked[n], "", "", isMb);
    }
  }

  lemma {:induction false} UpdatesAreProper(names: seq<(string, string)>, updates: map<string, string>, isMb: bool)
    ensures AllProper(UpdateEntries(names, updates, isMb))
  {
    hide NewUpdate, Counted;
    if names != [] {
      var n := |names| - 1;
      UpdatesAreProper(names[..n], updates, isMb);
      var (name, key) := names[n];
      if Given(updates, key) {
        EntriesAreCounted(IssueData("", "", 0, "", {}), name, updates[key], isMb);
      }
    }
  }

  lemma {:induction false} PartIsProper(xs: seq<Entry>, isBuild: bool)
    requires AllProper(xs)
    ensures AllProper(Part(xs, isBuild)) && Real(Part(xs, isBuild))
    ensures forall i :: 0 <= i < |Part(xs, isBuild)| ==> Part(xs, isBuild)[i].isBuild == isBuild
  {
    hide Counted;
    if xs != [] {
      PartIsProper(xs[..|xs| - 1], isBuild);
    }
  }

  lemma CollectedAreProper(linked: seq<IssueData>, updates: map<string, string>, isMb: bool)
    requires IssueEntries(linked, isMb).Some?
    ensures AllProper(IssueEntries(linked, isMb).value + UpdateEntries(UpdateNames(isMb), updates, isMb))
  {
    hide IssueEntries, UpdateEntries, UpdateNames, Proper;
    IssuesAreProper(linked, isMb);
    UpdatesAreProper(UpdateNames(isMb), updates, isMb);
  }

  /**
    In the part of a changelog that is not about the build, every heading is printed once,
    with exactly the entries of its platforms under it.
  */
  lemma MainListIsWellHeaded(linked: seq<IssueData>, updates: map<string, string>, isMb: bool)
    requires IssueEntries(linked, isMb).Some?
    ensures var all := IssueEntries(linked, isMb).value + UpdateEntries(UpdateNames(isMb), updates, isMb);
      match TrySort(Part(all, false), isMb)
      case None => true
      case Some(main) =>
        && AllDistinct(Heads(Grouped(main))) && Under(Grouped(main)) == WithHeadings(main)
        && multiset(main) == multiset(Part(all, false))
  {
    hide IssueEntries, UpdateEntries, UpdateNames, Heads, Grouped, AllDistinct, Sort, Under, Interrupted, HeadingOf;
    CollectedAreProper(linked, updates, isMb);
    var all := IssueEntries(linked, isMb).value + UpdateEntries(UpdateNames(isMb), updates, isMb);
    var list := Part(all, false);
    PartIsProper(all, false);
    assert forall i :: 0 <= i < |list| ==> Proper(list[i]) && !list[i].isBuild;
    CountedAreTogether(list, isMb);
    if AllComparable(list) {
      HeadingsOnceIff(list, isMb);
      SortKeeps(list, isMb);
      ItemsStandUnderTheirHeading(Sort(list, isMb));
    }
  }
}
