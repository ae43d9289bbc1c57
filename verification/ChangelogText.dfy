/** The text of a changelog: entries under platform headings. */
module ChangelogText {
  import opened ByteStrings
  import opened ChangelogEntries
  import opened Numerals
  import opened Wrappers

  // ----- Lines -----

  datatype Line = Head(text: string) | Item(entry: Entry)

  function HeadingOf(x: Entry): string {
    Heading(x.platform)
  }

  function LastHeading(xs: seq<Entry>): string {
    if xs == [] then "" else HeadingOf(xs[|xs| - 1])
  }

  /** The lines of a list: a heading wherever it differs from the one before. */
  function Grouped(xs: seq<Entry>): seq<Line> {
    if xs == [] then []
    else
      var init, x := xs[..|xs| - 1], xs[|xs| - 1];
      Grouped(init) + (if HeadingOf(x) != LastHeading(init) then [Head(HeadingOf(x))] else []) + [Item(x)]
  }

  function Str(x: Entry): string {
    match x
    case Update(_, _, _, name, version) => "Updated " + name + " to " + version
    case Issue(_, _, _, project, number, title) => "Bug " + Decimal(number) + ": " + title + " [" + project + "]"
  }

  function LineText(l: Line, indent: string): string {
    match l
    case Head(text) => indent + " * " + text + "\n"
    case Item(x) => indent + "   * " + Str(x) + "\n"
  }

  function TextOf(lines: seq<Line>, indent: string): string {
    if lines == [] then "" else TextOf(lines[..|lines| - 1], indent) + LineText(lines[|lines| - 1], indent)
  }

  // ----- Reading the lines -----

  function Current(lines: seq<Line>): string {
    if lines == [] then ""
    else if lines[|lines| - 1].Head? then lines[|lines| - 1].text
    else Current(lines[..|lines| - 1])
  }

  /** Each entry with the heading that it stands under. */
  function Under(lines: seq<Line>): seq<(string, Entry)> {
    if lines == [] then []
    else
      var init, l := lines[..|lines| - 1], lines[|lines| - 1];
      Under(init) + (if l.Item? then [(Current(init), l.entry)] else [])
  }

  function Heads(lines: seq<Line>): seq<string> {
    if lines == [] then []
    else
      var l := lines[|lines| - 1];
      Heads(lines[..|lines| - 1]) + (if l.Head? then [l.text] else [])
  }

  lemma ReadSnoc(lines: seq<Line>, l: Line)
    ensures Current(lines + [l]) == if l.Head? then l.text else Current(lines)
    ensures Under(lines + [l]) == Under(lines) + (if l.Item? then [(Current(lines), l.entry)] else [])
    ensures Heads(lines + [l]) == Heads(lines) + (if l.Head? then [l.text] else [])
  {
    assert (lines + [l])[..|lines|] == lines;
  }

  lemma GroupedSnoc(xs: seq<Entry>, x: Entry)
    ensures Grouped(xs + [x])
         == Grouped(xs) + (if HeadingOf(x) != LastHeading(xs) then [Head(HeadingOf(x))] else []) + [Item(x)]
  {
    assert (xs + [x])[..|xs|] == xs;
  }

  function WithHeadings(xs: seq<Entry>): seq<(string, Entry)> {
    seq(|xs|, i requires 0 <= i < |xs| => (HeadingOf(xs[i]), xs[i]))
  }

  /** Whatever its order, a list is printed entry by entry, each under the heading of its platforms. */
  lemma {:induction false} ItemsStandUnderTheirHeading(xs: seq<Entry>)
    ensures Under(Grouped(xs)) == WithHeadings(xs)
    ensures Current(Grouped(xs)) == LastHeading(xs)
  {
    hide HeadingOf, Grouped, Under, Current;
    if xs == [] {
      NothingUnder();
    } else {
      var init, x := xs[..|xs| - 1], xs[|xs| - 1];
      assert xs == init + [x];
      ItemsStandUnderTheirHeading(init);
      GroupedSnoc(init, x);
      var lines := Grouped(init);
      if HeadingOf(x) != LastHeading(init) {
        ReadSnoc(lines, Head(HeadingOf(x)));
        ReadSnoc(lines + [Head(HeadingOf(x))], Item(x));
      } else {
        assert lines + [] == lines;
        ReadSnoc(lines, Item(x));
      }
    }
  }

  lemma NothingUnder()
    ensures Under(Grouped([])) == [] && Current(Grouped([])) == ""
  {
  }

  // ----- When a heading is printed once -----

  predicate Real(xs: seq<Entry>) {
    forall i :: 0 <= i < |xs| ==> 1 <= xs[i].platform <= 15
  }

  predicate Occurs(xs: seq<Entry>, p: nat) {
    exists i :: 0 <= i < |xs| && xs[i].platform == p
  }

  /** Entries of the same platforms are next to one another. */
  predicate Contiguous(xs: seq<Entry>) {
    forall i, j, k :: 0 <= i < j < k < |xs| && xs[i].platform == xs[k].platform ==> xs[j].platform == xs[i].platform
  }

  lemma HeadsSnoc(xs: seq<Entry>, x: Entry)
    ensures Heads(Grouped(xs + [x])) ==
      if HeadingOf(x) != LastHeading(xs) then Heads(Grouped(xs)) + [HeadingOf(x)] else Heads(Grouped(xs))
  {
    hide HeadingOf, Heads;
    GroupedSnoc(xs, x);
    var lines, h := Grouped(xs), HeadingOf(x);
    if h != LastHeading(xs) {
      ReadSnoc(lines, Head(h));
      ReadSnoc(lines + [Head(h)], Item(x));
    } else {
      assert lines + [] == lines;
      ReadSnoc(lines, Item(x));
    }
  }

  lemma {:induction false} HeadsAreHeadings(xs: seq<Entry>, p: nat)
    requires Real(xs) && 1 <= p <= 15
    ensures Heading(p) in Heads(Grouped(xs)) <==> Occurs(xs, p)
  {
    hide Heading, Heads, Grouped;
    if xs == [] {
      NoHeads();
    } else {
      var n := |xs| - 1;
      var init, x := xs[..n], xs[n];
      assert xs == init + [x];
      HeadsAreHeadings(init, p);
      HeadsSnoc(init, x);
      HeadingsSeparate(x.platform, p);
      if n > 0 {
        HeadingsSeparate(init[n - 1].platform, p);
      } else {
        HeadingsSeparate(p, p);
      }
      assert forall i :: 0 <= i < n ==> init[i] == xs[i];
    }
  }

  lemma NoHeads()
    ensures Heads(Grouped([])) == []
  {
  }

  lemma DistinctSnoc(hs: seq<string>, h: string)
    ensures AllDistinct(hs + [h]) <==> AllDistinct(hs) && h !in hs
  {
    if AllDistinct(hs + [h]) {
      assert forall i :: 0 <= i < |hs| ==> (hs + [h])[i] == hs[i] && hs[i] != (hs + [h])[|hs|];
    }
  }

  lemma ContiguousSnoc(xs: seq<Entry>, x: Entry)
    requires xs != []
    ensures Contiguous(xs + [x])
       <==> Contiguous(xs) && (x.platform == xs[|xs| - 1].platform || !Occurs(xs, x.platform))
  {
    var all, n := xs + [x], |xs|;
    assert forall i :: 0 <= i < n ==> all[i] == xs[i];
    if Contiguous(all) {
      forall i, j, k | 0 <= i < j < k < n && xs[i].platform == xs[k].platform
        ensures xs[j].platform == xs[i].platform
      {
        assert all[i].platform == all[k].platform;
        assert all[j].platform == all[i].platform;
      }
      forall i | 0 <= i < n - 1 && all[i].platform == all[n].platform
        ensures all[n - 1].platform == all[i].platform
      {
      }
    }
  }

  /** Each heading is printed once exactly when entries of the same platforms are together. */
  lemma {:induction false} HeadsDistinctIffContiguous(xs: seq<Entry>)
    requires Real(xs)
    ensures AllDistinct(Heads(Grouped(xs))) <==> Contiguous(xs)
  {
    hide Heading, Heads, Grouped, Contiguous, AllDistinct;
    if |xs| <= 1 {
      AtMostOne(xs);
    } else {
      var n := |xs| - 1;
      var init, x := xs[..n], xs[n];
      assert xs == init + [x];
      HeadsDistinctIffContiguous(init);
      HeadsSnoc(init, x);
      ContiguousSnoc(init, x);
      HeadingsSeparate(x.platform, init[n - 1].platform);
      HeadsAreHeadings(init, x.platform);
      DistinctSnoc(Heads(Grouped(init)), HeadingOf(x));
    }
  }

  lemma AtMostOne(xs: seq<Entry>)
    requires |xs| <= 1
    ensures AllDistinct(Heads(Grouped(xs))) && Contiguous(xs)
  {
    hide HeadingOf, Heads, Grouped, LastHeading;
    NoHeads();
    if xs != [] {
      assert xs == [] + [xs[0]];
      HeadsSnoc([], xs[0]);
      assert |Heads(Grouped(xs))| <= 1;
    }
  }

  /** An entry of other platforms that sorts between two of the same platforms. */
  predicate Between(a: Entry, b: Entry, c: Entry, isMb: bool) {
    a.platform == c.platform && b.platform != a.platform && Before(a, b, isMb) && Before(b, c, isMb)
  }

  predicate Interrupted(xs: seq<Entry>, isMb: bool) {
    exists i, j, k :: 0 <= i < |xs| && 0 <= j < |xs| && 0 <= k < |xs| && Between(xs[i], xs[j], xs[k], isMb)
  }

  lemma DifferentPlatformsDoNotTie(x: Entry, y: Entry, isMb: bool)
    requires x.platform != y.platform
    ensures Before(x, y, isMb) || Before(y, x, isMb)
  {
  }

  lemma SplitIsBetween(xs: seq<Entry>, i: nat, j: nat, k: nat, isMb: bool)
    requires Sorted(xs, isMb) && i < j < k < |xs|
    requires xs[i].platform == xs[k].platform && xs[j].platform != xs[i].platform
    ensures Between(xs[i], xs[j], xs[k], isMb)
  {
    hide Before;
    DifferentPlatformsDoNotTie(xs[i], xs[j], isMb);
    DifferentPlatformsDoNotTie(xs[j], xs[k], isMb);
  }

  lemma SortedBefore(xs: seq<Entry>, i: nat, j: nat, isMb: bool)
    requires Sorted(xs, isMb) && i < |xs| && j < |xs| && Before(xs[i], xs[j], isMb)
    ensures i < j
  {
    hide Before;
    BeforeIsWeakOrder(xs[i], xs[i], xs[i], isMb);
  }

  lemma SplitInterrupts(xs: seq<Entry>, isMb: bool)
    requires Sorted(xs, isMb) && !Contiguous(xs)
    ensures Interrupted(xs, isMb)
  {
    hide Between, Sorted;
    var i, j, k :| 0 <= i < j < k < |xs| && xs[i].platform == xs[k].platform && xs[j].platform != xs[i].platform;
    SplitIsBetween(xs, i, j, k, isMb);
  }

  lemma InterruptionSplits(xs: seq<Entry>, i: nat, j: nat, k: nat, isMb: bool)
    requires Sorted(xs, isMb) && i < |xs| && j < |xs| && k < |xs|
    requires Between(xs[i], xs[j], xs[k], isMb)
    ensures !Contiguous(xs)
  {
    hide Before, Sorted;
    SortedBefore(xs, i, j, isMb);
    SortedBefore(xs, j, k, isMb);
  }

  lemma SortedContiguousIff(xs: seq<Entry>, isMb: bool)
    requires Sorted(xs, isMb)
    ensures Contiguous(xs) <==> !Interrupted(xs, isMb)
  {
    hide Contiguous, Between, Sorted;
    if Interrupted(xs, isMb) {
      var i, j, k :| 0 <= i < |xs| && 0 <= j < |xs| && 0 <= k < |xs| && Between(xs[i], xs[j], xs[k], isMb);
      InterruptionSplits(xs, i, j, k, isMb);
    } else if !Contiguous(xs) {
      SplitInterrupts(xs, isMb);
    }
  }

  lemma SameInterrupted(xs: seq<Entry>, ys: seq<Entry>, isMb: bool)
    requires multiset(xs) == multiset(ys) && Interrupted(xs, isMb)
    ensures Interrupted(ys, isMb)
  {
    hide Between;
    var i, j, k :| 0 <= i < |xs| && 0 <= j < |xs| && 0 <= k < |xs| && Between(xs[i], xs[j], xs[k], isMb);
    assert xs[i] in multiset(ys) && xs[j] in multiset(ys) && xs[k] in multiset(ys);
    var i' :| 0 <= i' < |ys| && ys[i'] == xs[i];
    var j' :| 0 <= j' < |ys| && ys[j'] == xs[j];
    var k' :| 0 <= k' < |ys| && ys[k'] == xs[k];
    assert Between(ys[i'], ys[j'], ys[k'], isMb);
  }

  /** The headings of a sorted list are distinct exactly when no entry comes between two of the same platforms. */
  lemma HeadingsOnceIff(xs: seq<Entry>, isMb: bool)
    requires AllComparable(xs) && Real(xs)
    ensures AllDistinct(Heads(Grouped(Sort(xs, isMb)))) <==> !Interrupted(xs, isMb)
  {
    hide Before, Sort, AllDistinct, Heads, Grouped, Interrupted, Contiguous;
    var ys := Sort(xs, isMb);
    SortSorts(xs, isMb);
    SortKeeps(xs, isMb);
    forall i | 0 <= i < |ys|
      ensures 1 <= ys[i].platform <= 15
    {
      assert ys[i] in multiset(ys);
    }
    HeadsDistinctIffContiguous(ys);
    SortedContiguousIff(ys, isMb);
    if Interrupted(xs, isMb) {
      SameInterrupted(xs, ys, isMb);
    }
    if Interrupted(ys, isMb) {
      SameInterrupted(ys, xs, isMb);
    }
  }

  /** Counted entries are never interrupted: their platforms decide their count. */
  lemma CountedAreTogether(xs: seq<Entry>, isMb: bool)
    requires forall i :: 0 <= i < |xs| ==> Counted(xs[i])
    ensures Real(xs) && !Interrupted(xs, isMb)
  {
  }

  /** Two build issues and an update of Go. */
  function GoExample(): seq<Entry> {
    [Issue(11, 3, true, "rbm", 1, "x"), Issue(3, 2, true, "rbm", 2, "y"), NewUpdate("Go", "1.2", false)]
  }

  lemma GoExampleIsReal()
    ensures IssueOf(IssueData("rbm#1", "rbm", 1, "x", {"Build System", "Windows", "Linux", "Android"}), false)
         == Some(GoExample()[0])
    ensures IssueOf(IssueData("rbm#2", "rbm", 2, "y", {"Build System", "Linux", "Android"}), false)
         == Some(GoExample()[1])
    ensures Real(GoExample()) && forall i :: 0 <= i < |GoExample()| ==> GoExample()[i].isBuild
  {
    assert !On({"Build System", "Windows", "Linux", "Android"}, "MacOS");
    assert !On({"Build System", "Linux", "Android"}, "MacOS") && !On({"Build System", "Linux", "Android"}, "Windows");
  }

  /** Among the build entries the update of Go can stand apart from an issue of the same platforms. */
  lemma GoCanSplitAHeading()
    ensures AllComparable(GoExample()) && !AllDistinct(Heads(Grouped(Sort(GoExample(), false))))
  {
    hide Sort, AllDistinct, Heads, Grouped;
    GoExampleIsReal();
    GoExampleIsInterrupted();
    HeadingsOnceIff(GoExample(), false);
  }

  lemma GoExampleIsInterrupted()
    ensures Interrupted(GoExample(), false)
  {
    hide Before;
    var xs := GoExample();
    BeforeByCount(xs[0], xs[1], false);
    BeforeByCount(xs[1], xs[2], false);
    assert Between(xs[0], xs[1], xs[2], false);
  }

  lemma BeforeByCount(x: Entry, y: Entry, isMb: bool)
    requires x.count > y.count
    ensures Before(x, y, isMb)
  {
  }
}
