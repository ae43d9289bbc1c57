/** The order in which a changelog prints its entries, and where each of them stands. */
module ChangelogOrder {
  import opened ByteStrings
  import opened ChangelogBuilder
  import opened ChangelogEntries
  import opened ChangelogText
  import opened Numerals
  import Sorting
  import opened Wrappers

  // ----- Which entry stands first -----

  /** Of two sets of platforms, the first platform in this order that only one has is the first set's. */
  predicate HasFirst(p: nat, q: nat) {
    if Has(p, WINDOWS) != Has(q, WINDOWS) then Has(p, WINDOWS)
    else if Has(p, MACOS) != Has(q, MACOS) then Has(p, MACOS)
    else if Has(p, LINUX) != Has(q, LINUX) then Has(p, LINUX)
    else Has(p, ANDROID) && !Has(q, ANDROID)
  }

  lemma HasFirstIff(p: nat, q: nat)
    requires p <= 15 && q <= 15
    ensures HasFirst(p, q) <==> p > q
  {
    FlagsAdd(p);
    FlagsAdd(q);
    hide Has;
  }

  lemma FlagsAdd(p: nat)
    requires p <= 15
    ensures p == 8 * Bit(p, WINDOWS) + 4 * Bit(p, MACOS) + 2 * Bit(p, LINUX) + Bit(p, ANDROID)
  {
  }

  /** The projects in their order: the browser's own ones stand right behind the specifications. */
  function Ranking(isMb: bool): seq<string> {
    ["tor-browser-spec"] + (if isMb then ["mullvad-browser", "tor-browser", "tor-browser-build"]
                            else ["tor-browser", "tor-browser-build", "mullvad-browser"])
    + ["tor-browser-bundle-testsuite", "rbm"]
  }

  predicate RanksFirst(p: string, q: string, isMb: bool) {
    exists i, j :: 0 <= i < j < |Ranking(isMb)| && Ranking(isMb)[i] == p && Ranking(isMb)[j] == q
  }

  lemma RankingIs(isMb: bool)
    ensures |Ranking(isMb)| == 6
    ensures forall i :: 0 <= i < 6 ==> Ranking(isMb)[i] in PROJECTS
    ensures forall i, j :: 0 <= i < j < 6 ==>
      ProjectOrder(Ranking(isMb)[i], isMb) < ProjectOrder(Ranking(isMb)[j], isMb)
  {
  }

  /**
    More platforms first; of as many the ones that have the first platform; of the same an
    update; of issues the lower number in one project, and otherwise the project's rank.
  */
  predicate StandsFirst(x: Entry, y: Entry, isMb: bool) {
    || x.count > y.count
    || (x.count == y.count && HasFirst(x.platform, y.platform))
    || (x.count == y.count && x.platform == y.platform && x.Update? && y.Issue?)
    || (x.count == y.count && x.platform == y.platform && x.Issue? && y.Issue?
        && if x.project == y.project then x.number < y.number else RanksFirst(x.project, y.project, isMb))
  }

  lemma StandsFirstIsBefore(x: Entry, y: Entry, isMb: bool)
    requires x.platform <= 15 && y.platform <= 15 && StandsFirst(x, y, isMb)
    ensures Before(x, y, isMb)
  {
    HasFirstIff(x.platform, y.platform);
    RankingIs(isMb);
    hide Ranking, ProjectOrder, HasFirst;
  }

  /** A sorted list has every entry in front of those that it stands first of. */
  lemma SortedInOrder(xs: seq<Entry>, isMb: bool, i: nat, j: nat)
    requires AllComparable(xs) && i < |Sort(xs, isMb)| && j < |Sort(xs, isMb)|
    requires var ss := Sort(xs, isMb);
      ss[i].platform <= 15 && ss[j].platform <= 15 && StandsFirst(ss[i], ss[j], isMb)
    ensures i < j
  {
    hide StandsFirst, Before, Sort, AllComparable;
    var ss := Sort(xs, isMb);
    StandsFirstIsBefore(ss[i], ss[j], isMb);
    SortSorts(xs, isMb);
    SortedBefore(ss, i, j, isMb);
  }

  // ----- What is printed -----

  /** Each line of a list is printed as this text, behind those of the lines in front of it. */
  lemma LinesArePrinted(lines: seq<Line>, k: nat, indent: string) returns (after: string)
    requires k < |lines|
    ensures var line := match lines[k]
      case Head(text) => " * " + text
      case Item(Update(_, _, _, name, version)) => "   * " + ("Updated " + name + " to " + version)
      case Item(Issue(_, _, _, project, number, title)) =>
        "   * " + ("Bug " + Decimal(number) + ": " + title + " [" + project + "]");
      TextOf(lines, indent) == TextOf(lines[..k], indent) + (indent + line + "\n") + after
  {
    hide TextOf;
    after := LineStands(lines, k, indent);
    LineIs(lines[k], indent);
  }

  lemma LineIs(l: Line, indent: string)
    ensures var line := match l
      case Head(text) => " * " + text
      case Item(Update(_, _, _, name, version)) => "   * " + ("Updated " + name + " to " + version)
      case Item(Issue(_, _, _, project, number, title)) =>
        "   * " + ("Bug " + Decimal(number) + ": " + title + " [" + project + "]");
      LineText(l, indent) == indent + line + "\n"
  {
    hide Decimal;
    if l.Head? {
      InFrontOfBoth(indent, " * ", l.text);
    } else {
      hide Str;
      InFrontOfBoth(indent, "   * ", Str(l.entry));
      StrIs(l.entry);
    }
  }

  lemma InFrontOfBoth(a: string, b: string, c: string)
    ensures a + (b + c) == a + b + c
  {
  }

  lemma StrIs(x: Entry)
    ensures Str(x) == match x
      case Update(_, _, _, name, version) => "Updated " + name + " to " + version
      case Issue(_, _, _, project, number, title) => "Bug " + Decimal(number) + ": " + title + " [" + project + "]"
  {
  }

  lemma {:induction false} LineStands(lines: seq<Line>, k: nat, indent: string) returns (after: string)
    requires k < |lines|
    ensures TextOf(lines, indent) == TextOf(lines[..k], indent) + LineText(lines[k], indent) + after
  {
    hide LineText;
    var n := |lines| - 1;
    if k == n {
      after := "";
    } else {
      var init := lines[..n];
      assert init[..k] == lines[..k];
      after := LineStands(init, k, indent);
      after := after + LineText(lines[n], indent);
    }
  }

  lemma {:induction false} PartsAdd(xs: seq<Entry>)
    ensures multiset(Part(xs, false)) + multiset(Part(xs, true)) == multiset(xs)
    ensures forall x :: x in Part(xs, true) ==> x.isBuild
    ensures forall x :: x in Part(xs, false) ==> !x.isBuild
  {
    if xs != [] {
      PartsAdd(xs[..|xs| - 1]);
      assert xs == xs[..|xs| - 1] + [xs[|xs| - 1]];
    }
  }

  /** No entry stands behind one that it stands first of. */
  ghost predicate InOrder(xs: seq<Entry>, isMb: bool) {
    forall i, j :: 0 <= i <= j < |xs| ==> !StandsFirst(xs[j], xs[i], isMb)
  }

  lemma SortIsInOrder(xs: seq<Entry>, isMb: bool)
    requires AllComparable(xs) && Real(xs)
    ensures InOrder(Sort(xs, isMb), isMb) && multiset(Sort(xs, isMb)) == multiset(xs)
  {
    hide StandsFirst, Sort, AllComparable;
    SortKeeps(xs, isMb);
    Sorting.SortedElements(Sort(xs, isMb), xs);
    var ss := Sort(xs, isMb);
    assert forall i :: 0 <= i < |ss| ==> ss[i] in xs;
    forall i, j | 0 <= i <= j < |ss|
      ensures !StandsFirst(ss[j], ss[i], isMb)
    {
      if StandsFirst(ss[j], ss[i], isMb) {
        SortedInOrder(xs, isMb, j, i);
      }
    }
  }

  /** Every entry is printed once, in the list that it belongs to and in its place. */
  lemma EveryEntryIsPrinted(all: seq<Entry>, isMb: bool, version: string, date: string)
    returns (main: seq<Entry>, build: seq<Entry>)
    requires Real(all) && Changelog(all, isMb, version, date).Ok?
    ensures multiset(main) + multiset(build) == multiset(all) && InOrder(main, isMb) && InOrder(build, isMb)
    ensures (forall x :: x in main ==> !x.isBuild) && (forall x :: x in build ==> x.isBuild)
    ensures Changelog(all, isMb, version, date).value
         == (if isMb then "Mullvad Browser " else "Tor Browser ") + version + " - " + date + "\n"
            + TextOf(Grouped(main), "")
            + (if build == [] then "" else " * Build System\n" + TextOf(Grouped(build), "  "))
  {
    main, build := Sort(Part(all, false), isMb), Sort(Part(all, true), isMb);
    TextIs(all, isMb, version, date);
    PartsAdd(all);
    hide *;
    PartsAreReal(all);
    SortIsInOrder(Part(all, false), isMb);
    SortIsInOrder(Part(all, true), isMb);
    Sorting.SortedElements(main, Part(all, false));
    Sorting.SortedElements(build, Part(all, true));
  }

  lemma TextIs(all: seq<Entry>, isMb: bool, version: string, date: string)
    requires Changelog(all, isMb, version, date).Ok?
    ensures AllComparable(Part(all, false)) && AllComparable(Part(all, true))
    ensures var main, build := Sort(Part(all, false), isMb), Sort(Part(all, true), isMb);
      Changelog(all, isMb, version, date).value
        == (if isMb then "Mullvad Browser " else "Tor Browser ") + version + " - " + date + "\n"
           + TextOf(Grouped(main), "")
           + (if build == [] then "" else " * Build System\n" + TextOf(Grouped(build), "  "))
  {
    hide Sort, AllComparable, Grouped, TextOf, Part;
    assert "Mullvad" + " Browser " == "Mullvad Browser " && "Tor" + " Browser " == "Tor Browser ";
  }

  lemma {:induction false} PartsAreReal(all: seq<Entry>)
    requires Real(all)
    ensures Real(Part(all, false)) && Real(Part(all, true))
  {
    if all != [] {
      PartsAreReal(all[..|all| - 1]);
    }
  }

  // ----- Issues and updates -----

  /** The platforms of an issue are those its labels name, or all. */
  lemma LabelsDecide(j: IssueData, isMb: bool)
    ensures var windows, macos, linux :=
        On(j.labels, "Windows"), On(j.labels, "MacOS"), On(j.labels, "Linux");
      var android := "Android" in j.labels;
      match IssueOf(j, isMb)
      case None => isMb && android && !windows && !macos && !linux
      case Some(x) =>
        && !(isMb && android && !windows && !macos && !linux)
        && x.Issue? && x.project == j.project && x.number == j.number && x.title == j.title
        && (x.isBuild <==> "Build System" in j.labels)
        && if windows && macos && linux && (android || isMb) then Heading(x.platform) == "All Platforms"
           else if !windows && !macos && !linux && !android then Heading(x.platform) == "All Platforms"
           else
             && (Has(x.platform, WINDOWS) <==> windows) && (Has(x.platform, MACOS) <==> macos)
             && (Has(x.platform, LINUX) <==> linux) && (Has(x.platform, ANDROID) <==> android && !isMb)
  {
  }

  /** The components of a browser: the name, the key of its version, and the heading that it stands under. */
  function Components(isMb: bool): seq<(string, string, string)> {
    if isMb then
      [("Firefox", "firefox", "All Platforms"), ("NoScript", "noscript", "All Platforms"),
       ("Mullvad Browser Extension", "mb_extension", "All Platforms"), ("uBlock Origin", "ublock", "All Platforms")]
    else
      [("Firefox", "firefox", "Windows + macOS + Linux"), ("NoScript", "noscript", "All Platforms"),
       ("GeckoView", "firefox", "Android"), ("Tor", "tor", "All Platforms"), ("OpenSSL", "openssl", "All Platforms"),
       ("zlib", "zlib", "All Platforms"), ("Zstandard", "zstd", "Android"), ("Go", "go", "Windows + Linux + Android")]
  }

  lemma ComponentIs(isMb: bool, k: nat, version: string)
    requires k < |Components(isMb)|
    ensures |Components(isMb)| == |UpdateNames(isMb)|
    ensures var (name, key, heading) := Components(isMb)[k];
      && UpdateNames(isMb)[k] == (name, key)
      && Heading(NewUpdate(name, version, isMb).platform) == heading
  {
    SomeHeadings();
    hide Heading;
    if isMb {
      if k == 0 {
      } else if k == 1 {
      } else if k == 2 {
      }
    } else {
      if k < 4 {
      } else if k < 6 {
      }
    }
  }

  lemma SomeHeadings()
    ensures Heading(14) == "Windows + macOS + Linux" && Heading(11) == "Windows + Linux + Android"
    ensures Heading(1) == "Android" && Heading(15) == "All Platforms"
  {
    NamesOfThree();
    JoinThree("Windows", "macOS", "Linux");
    JoinThree("Windows", "Linux", "Android");
    hide Names, JoinNames;
    ThreeJoined();
  }

  lemma NamesOfThree()
    ensures Names(14) == ["Windows", "macOS", "Linux"] && Names(11) == ["Windows", "Linux", "Android"]
    ensures Names(1) == ["Android"]
  {
  }

  lemma ThreeJoined()
    ensures "Windows" + " + " + "macOS" + " + " + "Linux" == "Windows + macOS + Linux"
    ensures "Windows" + " + " + "Linux" + " + " + "Android" == "Windows + Linux + Android"
  {
  }

  lemma JoinThree(a: string, b: string, c: string)
    ensures JoinNames([a, b, c]) == a + " + " + b + " + " + c && JoinNames([c]) == c
  {
    assert [a, b, c][1..] == [b, c] && [b, c][1..] == [c];
    assert JoinNames([b, c]) == b + (" + " + c);
  }

  /** Updates are added component by component, in their order. */
  lemma {:induction false} UpdatesInOrder(names: seq<(string, string)>, more: seq<(string, string)>,
                                          updates: map<string, string>, isMb: bool)
    ensures UpdateEntries(names + more, updates, isMb)
         == UpdateEntries(names, updates, isMb) + UpdateEntries(more, updates, isMb)
  {
    hide NewUpdate, Given;
    if more == [] {
      assert names + [] == names;
    } else {
      var n := |more| - 1;
      UpdatesInOrder(names, more[..n], updates, isMb);
      assert (names + more)[..|names + more| - 1] == names + more[..n];
    }
  }

  /** A component is added when a version is given for it. */
  lemma UpdateOfOne(name: string, key: string, updates: map<string, string>, isMb: bool)
    ensures UpdateEntries([(name, key)], updates, isMb)
         == (if key in updates && updates[key] != "" then [NewUpdate(name, updates[key], isMb)] else [])
  {
    hide NewUpdate;
    var names := [(name, key)];
    assert names[..0] == [] && UpdateEntries(names[..0], updates, isMb) == [];
  }

  // ----- Linked issues -----

  lemma EnterNext(x: IssueData, rest: seq<IssueData>, j: IssueData)
    ensures Enter([x] + rest, j) == if x.ref == j.ref then [j] + rest else [x] + Enter(rest, j)
  {
    assert ([x] + rest)[1..] == rest;
  }

  /** A reference that is known keeps its place and gets the new data; any other goes to the end. */
  lemma {:induction false} EnterIs(front: seq<IssueData>, x: IssueData, back: seq<IssueData>, j: IssueData)
    requires (forall k :: 0 <= k < |front| ==> front[k].ref != j.ref) && x.ref == j.ref
    ensures Enter(front, j) == front + [j]
    ensures Enter(front + ([x] + back), j) == front + ([j] + back)
  {
    if front == [] {
      assert [] + ([x] + back) == [x] + back && [] + ([j] + back) == [j] + back;
      EnterNext(x, back, j);
    } else {
      var first, rest := front[0], front[1..];
      EnterIs(rest, x, back, j);
      assert front == [first] + rest;
      hide Enter;
      EnterNext(first, rest, j);
      EnterNext(first, rest + ([x] + back), j);
      Assoc([first], rest, [x] + back);
      Assoc([first], rest, [j] + back);
      Assoc([first], rest, [j]);
    }
  }

  lemma WithoutNext(x: IssueData, rest: seq<IssueData>, refs: set<string>)
    ensures Without([x] + rest, refs) == (if x.ref in refs then [] else [x]) + Without(rest, refs)
  {
    assert ([x] + rest)[1..] == rest;
  }

  /** Issues that are linked from an excluded one are left out, and the others keep their order. */
  lemma {:induction false} WithoutInOrder(d: seq<IssueData>, more: seq<IssueData>, refs: set<string>)
    ensures Without(d + more, refs) == Without(d, refs) + Without(more, refs)
  {
    if d == [] {
      assert [] + more == more && [] + Without(more, refs) == Without(more, refs);
    } else {
      var first, rest := d[0], d[1..];
      WithoutInOrder(rest, more, refs);
      assert d == [first] + rest;
      hide Without;
      WithoutNext(first, rest, refs);
      WithoutNext(first, rest + more, refs);
      Assoc([first], rest, more);
      Assoc(if first.ref in refs then [] else [first], Without(rest, refs), Without(more, refs));
    }
  }

  lemma WithoutOne(j: IssueData, refs: set<string>)
    ensures Without([j], refs) == if j.ref in refs then [] else [j]
  {
    WithoutNext(j, [], refs);
    assert [j] + [] == [j];
  }

  lemma {:induction false} LinkedFrom(ids: seq<nat>, links: nat -> seq<IssueData>, ref: string)
    ensures ref in Excluded(ids, links) <==> exists id :: id in ids && ref in Refs(links(id))
  {
    hide Refs;
    if ids != [] {
      var n := |ids| - 1;
      LinkedFrom(ids[..n], links, ref);
      assert forall id :: id in ids <==> id in ids[..n] || id == ids[n];
    }
  }

  /**
    The issues taken are those linked from the issue of the release or another that is asked
    for, and from none that is to be left out.
  */
  lemma LinkedIff(self: nat, includeFrom: Option<seq<nat>>, excludeFrom: Option<seq<nat>>,
                  links: nat -> seq<IssueData>, ref: string)
    ensures ref in Refs(Linked(self, includeFrom, excludeFrom, links))
       <==> && (exists id ::
                  (id == self || (includeFrom.Some? && id in includeFrom.value)) && ref in Refs(links(id)))
            && !(excludeFrom.Some? && exists id :: id in excludeFrom.value && ref in Refs(links(id)))
  {
    LinkedIs(self, includeFrom, excludeFrom, links);
    LinkedFrom(ToInclude(self, includeFrom), links, ref);
    LinkedFrom(ToExclude(excludeFrom), links, ref);
    hide Refs, Excluded, Linked;
    assert forall id :: id in ToInclude(self, includeFrom)
                   <==> id == self || (includeFrom.Some? && id in includeFrom.value);
  }

  /** Every linked issue has its entry, in their order, unless one of them is refused. */
  lemma {:induction false} IssuesInOrder(linked: seq<IssueData>, isMb: bool)
    ensures match IssueEntries(linked, isMb)
      case None => exists i :: 0 <= i < |linked| && IssueOf(linked[i], isMb) == None
      case Some(xs) => |xs| == |linked| && forall i :: 0 <= i < |linked| ==> IssueOf(linked[i], isMb) == Some(xs[i])
  {
    hide IssueOf;
    if linked != [] {
      var n := |linked| - 1;
      IssuesInOrder(linked[..n], isMb);
      assert IssueEntries(linked[..n], isMb).None? ==>
        exists i :: 0 <= i < n && IssueOf(linked[..n][i], isMb) == None && linked[..n][i] == linked[i];
    }
  }
}
