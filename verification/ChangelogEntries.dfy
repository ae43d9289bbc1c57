/** The entries of a changelog: how they are made, ordered and named. */
module ChangelogEntries {
  import Sorting
  import opened Wrappers

  // ----- Platforms, a set of flags -----

  const WINDOWS: nat := 8
  const MACOS: nat := 4
  const LINUX: nat := 2
  const ANDROID: nat := 1
  const DESKTOP: nat := 14
  const ALL_PLATFORMS: nat := 15

  predicate Has(platform: nat, flag: nat)
    requires flag > 0
  {
    platform / flag % 2 == 1
  }

  function Bit(platform: nat, flag: nat): nat
    requires flag > 0
  {
    if Has(platform, flag) then 1 else 0
  }

  /** The number of platforms in the set. */
  function Bits(platform: nat): nat {
    Bit(platform, WINDOWS) + Bit(platform, MACOS) + Bit(platform, LINUX) + Bit(platform, ANDROID)
  }

  // ----- Entries -----

  datatype Entry =
    | Update(platform: nat, count: nat, isBuild: bool, name: string, version: string)
    | Issue(platform: nat, count: nat, isBuild: bool, project: string, number: nat, title: string)

  /** What is known of an issue: its full reference, with the project and number in it, its title and labels. */
  datatype IssueData = IssueData(ref: string, project: string, number: nat, title: string, labels: set<string>)

  function NewUpdate(name: string, version: string, isMb: bool): Entry {
    var (platform, count) :=
      if name == "Firefox" && !isMb then (DESKTOP, 3)
      else if name == "GeckoView" || name == "Zstandard" then (ANDROID, 1)
      else if name == "Go" then (ALL_PLATFORMS - MACOS, 1)
      else (ALL_PLATFORMS, 4);
    Update(platform, count, name == "Go", name, version)
  }

  /** `Issue.__init__`: nothing for an issue of Android only, for a browser that is not on it. */
  method NewIssue(j: IssueData, isMb: bool) returns (r: Option<Entry>)
    ensures r == IssueOf(j, isMb)
  {
    var platform, count := 0, 0;
    if "Desktop" in j.labels {
      platform, count := DESKTOP, count + 3;
    } else {
      if "Windows" in j.labels {
        platform, count := platform + WINDOWS, count + 1;
      }
      if "MacOS" in j.labels {
        platform, count := platform + MACOS, count + 1;
      }
      if "Linux" in j.labels {
        platform, count := platform + LINUX, count + 1;
      }
    }
    if "Android" in j.labels {
      if isMb && count == 0 {
        return None;
      } else if !isMb {
        platform, count := platform + ANDROID, count + 1;
      }
    }
    if platform == 0 || (isMb && platform == DESKTOP) {
      platform, count := ALL_PLATFORMS, 4;
    }
    return Some(Issue(platform, count, "Build System" in j.labels, j.project, j.number, j.title));
  }

  /** Whether an issue's labels put it on a platform other than Android. */
  predicate On(labels: set<string>, name: string) {
    "Desktop" in labels || name in labels
  }

  /** The platforms the labels name; all of them when that is none, or all that the browser has. */
  function PlatformOf(labels: set<string>, isMb: bool): nat {
    var p := (if On(labels, "Windows") then WINDOWS else 0) + (if On(labels, "MacOS") then MACOS else 0)
           + (if On(labels, "Linux") then LINUX else 0) + (if "Android" in labels && !isMb then ANDROID else 0);
    if p == 0 || (isMb && p == DESKTOP) then ALL_PLATFORMS else p
  }

  function IssueOf(j: IssueData, isMb: bool): Option<Entry> {
    var onDesktop := On(j.labels, "Windows") || On(j.labels, "MacOS") || On(j.labels, "Linux");
    if isMb && "Android" in j.labels && !onDesktop then None
    else
      var p := PlatformOf(j.labels, isMb);
      Some(Issue(p, Bits(p), "Build System" in j.labels, j.project, j.number, j.title))
  }

  /** An entry of a real set of platforms whose count is the size of the set. */
  predicate Counted(x: Entry) {
    1 <= x.platform <= 15 && x.count == Bits(x.platform)
  }

  /** Every entry is counted, except the update of Go, which is always a build entry. */
  lemma EntriesAreCounted(j: IssueData, name: string, version: string, isMb: bool)
    ensures IssueOf(j, isMb).Some? ==> Counted(IssueOf(j, isMb).value)
    ensures Counted(NewUpdate(name, version, isMb)) <==> name != "Go"
    ensures NewUpdate(name, version, isMb).isBuild <==> name == "Go"
    ensures 1 <= NewUpdate(name, version, isMb).platform <= 15
  {
  }

  // ----- Order -----

  const PROJECTS: set<string> :=
    {"tor-browser-spec", "tor-browser", "tor-browser-build", "mullvad-browser", "tor-browser-bundle-testsuite", "rbm"}

  /** The rank of a project; that of an unknown one is never used. */
  function ProjectOrder(project: string, isMb: bool): nat {
    if project == "tor-browser-spec" then 0
    else if project == "tor-browser" then 2
    else if project == "tor-browser-build" then 3
    else if project == "mullvad-browser" then (if isMb then 1 else 4)
    else if project == "tor-browser-bundle-testsuite" then 5
    else 6
  }

  /** Comparing two issues raises an error when it takes the rank of a project that has none. */
  predicate Comparable(x: Entry, y: Entry) {
    x.Issue? && y.Issue? && x.count == y.count && x.platform == y.platform && x.project != y.project ==>
      x.project in PROJECTS && y.project in PROJECTS
  }

  /** `__lt__`, where it raises no error. */
  predicate Before(x: Entry, y: Entry, isMb: bool) {
    if x.count != y.count then x.count > y.count
    else if x.platform != y.platform then x.platform > y.platform
    else if x.Update? != y.Update? then x.Update?
    else if x.Update? then false
    else if x.project == y.project then x.number < y.number
    else ProjectOrder(x.project, isMb) < ProjectOrder(y.project, isMb)
  }

  lemma OrderSeparates(p: string, q: string, isMb: bool)
    requires p in PROJECTS && q in PROJECTS
    ensures ProjectOrder(p, isMb) == ProjectOrder(q, isMb) <==> p == q
  {
  }

  /** On entries that can be compared the order is a strict weak order: what sorting relies on. */
  lemma BeforeIsWeakOrder(x: Entry, y: Entry, z: Entry, isMb: bool)
    requires Comparable(x, y) && Comparable(y, z) && Comparable(x, z)
    ensures !Before(x, x, isMb)
    ensures Before(x, y, isMb) && Before(y, z, isMb) ==> Before(x, z, isMb)
    ensures Before(x, z, isMb) ==> Before(x, y, isMb) || Before(y, z, isMb)
  {
    hide ProjectOrder;
    KnownSeparate(x, y, isMb);
    KnownSeparate(y, z, isMb);
    KnownSeparate(x, z, isMb);
  }

  lemma KnownSeparate(x: Entry, y: Entry, isMb: bool)
    ensures x.Issue? && y.Issue? && x.project in PROJECTS && y.project in PROJECTS ==>
      (ProjectOrder(x.project, isMb) == ProjectOrder(y.project, isMb) <==> x.project == y.project)
  {
    hide ProjectOrder;
    if x.Issue? && y.Issue? && x.project in PROJECTS && y.project in PROJECTS {
      OrderSeparates(x.project, y.project, isMb);
    }
  }

  predicate AllComparable(xs: seq<Entry>) {
    forall i, j :: 0 <= i < |xs| && 0 <= j < |xs| ==> Comparable(xs[i], xs[j])
  }

  function Order(isMb: bool): (Entry, Entry) -> bool {
    (x, y) => Before(x, y, isMb)
  }

  predicate Sorted(xs: seq<Entry>, isMb: bool) {
    forall i, j :: 0 <= i < j < |xs| ==> !Before(xs[j], xs[i], isMb)
  }

  /** `list.sort()`: entries that tie keep their order. */
  function Sort(xs: seq<Entry>, isMb: bool): seq<Entry> {
    Sorting.Sort(xs, Order(isMb))
  }

  /**
    The whole call: two issues that cannot be compared would have to be, however the
    sorting goes about it, since nothing else tells their order.
  */
  function TrySort(xs: seq<Entry>, isMb: bool): Option<seq<Entry>> {
    if AllComparable(xs) then Some(Sort(xs, isMb)) else None
  }

  lemma SortKeeps(xs: seq<Entry>, isMb: bool)
    ensures multiset(Sort(xs, isMb)) == multiset(xs) && |Sort(xs, isMb)| == |xs|
  {
    hide Sorting.Sort;
    Sorting.SortKeeps(xs, Order(isMb));
  }

  lemma SortSorts(xs: seq<Entry>, isMb: bool)
    requires AllComparable(xs)
    ensures Sorted(Sort(xs, isMb), isMb)
  {
    hide Before, Sorting.Sort;
    var before := Order(isMb);
    forall i, j, k | 0 <= i < |xs| && 0 <= j < |xs| && 0 <= k < |xs|
      ensures Sorting.Weak(xs[i], xs[j], xs[k], before)
    {
      BeforeIsWeakOrder(xs[i], xs[j], xs[k], isMb);
      BeforeIsWeakOrder(xs[i], xs[i], xs[i], isMb);
    }
    hide Sorting.Weak;
    Sorting.SortOrders(xs, before);
    var ss := Sort(xs, isMb);
    assert forall i, j :: 0 <= i < j < |ss| ==> !before(ss[j], ss[i]);
  }

  function UpdatesOf(platform: nat, count: nat): Entry -> bool {
    (x: Entry) => x.Update? && x.platform == platform && x.count == count
  }

  /** The updates of a platform stay in the order in which they were added. */
  lemma SortIsStable(xs: seq<Entry>, isMb: bool, platform: nat, count: nat)
    ensures Sorting.Those(Sort(xs, isMb), UpdatesOf(platform, count)) == Sorting.Those(xs, UpdatesOf(platform, count))
  {
    hide Sorting.Sort, Sorting.Those;
    Sorting.SortIsStable(xs, Order(isMb), UpdatesOf(platform, count));
  }

  // ----- Headings -----

  function Names(platform: nat): seq<string> {
    (if Has(platform, WINDOWS) then ["Windows"] else []) + (if Has(platform, MACOS) then ["macOS"] else [])
    + (if Has(platform, LINUX) then ["Linux"] else []) + (if Has(platform, ANDROID) then ["Android"] else [])
  }

  function JoinNames(names: seq<string>): string {
    if names == [] then ""
    else if |names| == 1 then names[0]
    else names[0] + (" + " + JoinNames(names[1..]))
  }

  /** `get_platforms`. */
  function Heading(platform: nat): string {
    if platform == ALL_PLATFORMS then "All Platforms" else JoinNames(Names(platform))
  }

  predicate AreNames(names: seq<string>) {
    forall i :: 0 <= i < |names| ==> names[i] in {"Windows", "macOS", "Linux", "Android"}
  }

  lemma FirstName(names: seq<string>)
    requires AreNames(names) && names != []
    ensures names[0] <= JoinNames(names) && |names[0]| > 0
    ensures JoinNames(names)[|names[0]|..] == if |names| == 1 then "" else " + " + JoinNames(names[1..])
  {
  }

  lemma {:induction false} JoinSeparates(a: seq<string>, b: seq<string>)
    requires AreNames(a) && AreNames(b) && JoinNames(a) == JoinNames(b)
    ensures a == b
  {
    if a != [] && b != [] {
      FirstName(a);
      FirstName(b);
      var j := JoinNames(a);
      assert a[0][0] == j[0] && b[0][0] == j[0];
      assert a[0] == b[0];
      if |a| > 1 && |b| > 1 {
        assert (" + " + JoinNames(a[1..]))[3..] == JoinNames(a[1..]);
        assert (" + " + JoinNames(b[1..]))[3..] == JoinNames(b[1..]);
        JoinSeparates(a[1..], b[1..]);
        assert a == [a[0]] + a[1..] && b == [b[0]] + b[1..];
      }
    } else if a != [] {
      FirstName(a);
    } else if b != [] {
      FirstName(b);
    }
  }

  lemma NamesTell(p: nat)
    requires 1 <= p <= 15
    ensures AreNames(Names(p)) && Names(p) != []
    ensures (Has(p, WINDOWS) <==> "Windows" in Names(p)) && (Has(p, MACOS) <==> "macOS" in Names(p))
    ensures (Has(p, LINUX) <==> "Linux" in Names(p)) && (Has(p, ANDROID) <==> "Android" in Names(p))
  {
    assert "Windows"[0] != "macOS"[0] && "Linux"[0] != "Android"[0];
    FlagsDecide(p, 0);
    hide Has;
  }

  lemma FlagsDecide(p: nat, q: nat)
    requires p <= 15 && q <= 15
    requires p != q
    ensures Has(p, WINDOWS) != Has(q, WINDOWS) || Has(p, MACOS) != Has(q, MACOS)
         || Has(p, LINUX) != Has(q, LINUX) || Has(p, ANDROID) != Has(q, ANDROID)
    ensures q == 0 ==> !Has(q, WINDOWS) && !Has(q, MACOS) && !Has(q, LINUX) && !Has(q, ANDROID)
  {
  }

  lemma NamesSeparate(p: nat, q: nat)
    requires 1 <= p <= 15 && 1 <= q <= 15
    ensures AreNames(Names(p)) && Names(p) != [] && (Names(p) == Names(q) <==> p == q)
  {
    hide Has, Names;
    NamesTell(p);
    NamesTell(q);
    if p != q {
      FlagsDecide(p, q);
    }
  }

  lemma NotAll(names: seq<string>)
    requires AreNames(names)
    ensures JoinNames(names) != "All Platforms"
  {
    if names != [] {
      FirstName(names);
      assert "All Platforms"[0] == 'A' && "All Platforms"[1] == 'l';
    }
  }

  /** Different sets of platforms have different headings, none of them empty. */
  lemma HeadingsSeparate(p: nat, q: nat)
    requires 1 <= p <= 15 && 1 <= q <= 15
    ensures Heading(p) != "" && (Heading(p) == Heading(q) <==> p == q)
  {
    hide JoinNames, Names;
    NamesSeparate(p, q);
    NamesSeparate(q, p);
    NotAll(Names(p));
    NotAll(Names(q));
    FirstName(Names(p));
    if p != ALL_PLATFORMS && q != ALL_PLATFORMS && Heading(p) == Heading(q) {
      JoinSeparates(Names(p), Names(q));
    }
  }
}
