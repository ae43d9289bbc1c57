/** The list of versions to build incremental updates from, shared by two browsers. */
module RbmConf {
  import opened ByteStrings
  import opened Scanning
  import opened Versions

  const TBB: string := "tbb"
  const MB: string := "mb"

  const IF_TBB: string := "[% IF c(\"var/tor-browser\") %]"
  const IF_MB: string := "[% IF c(\"var/mullvad-browser\") %]"
  const END: string := "[% END %]"

  /** A version that only one browser has. */
  function Only(b: string, v: string): string {
    (if b == TBB then IF_TBB else IF_MB) + v + END
  }

  // ----- Rendering, for the build of one browser -----

  /** What an item of the list comes to in a build of `b`; an item for the other browser is empty. */
  function Render(item: string, b: string): string {
    var tor, mullvad, end := "[% IF c(\"var/tor-browser\") %]", "[% IF c(\"var/mullvad-browser\") %]", "[% END %]";
    if tor <= item && EndsWith(item[|tor|..], end) then
      (if b == "tbb" then item[|tor|..|item| - |end|] else "")
    else if mullvad <= item && EndsWith(item[|mullvad|..], end) then
      (if b == "mb" then item[|mullvad|..|item| - |end|] else "")
    else item
  }

  /** The versions a build of `b` uses: what is rendered to nothing is left out. */
  function Offered(items: seq<string>, b: string): seq<string> {
    if items == [] then []
    else
      var first := Render(items[0], b);
      (if first == "" then [] else [first]) + Offered(items[1..], b)
  }

  // ----- The merged list -----

  function VersionsOf(list: seq<Tag>): seq<Version> {
    seq(|list|, i requires 0 <= i < |list| => list[i].version)
  }

  /** Each element once, in order of first occurrence: the keys of a dictionary. */
  function Dedup(xs: seq<Version>): seq<Version> {
    if xs == [] then []
    else
      var rest, x := Dedup(xs[..|xs| - 1]), xs[|xs| - 1];
      if x in rest then rest else rest + [x]
  }

  function ItemsOf(x: Version, tbb: seq<Version>, mb: seq<Version>): seq<string> {
    if x in tbb && x in mb then [x.v]
    else (if x in tbb then [Only(TBB, x.v)] else []) + (if x in mb then [Only(MB, x.v)] else [])
  }

  function Items(xs: seq<Version>, tbb: seq<Version>, mb: seq<Version>): seq<string> {
    if xs == [] then [] else Items(xs[..|xs| - 1], tbb, mb) + ItemsOf(xs[|xs| - 1], tbb, mb)
  }

  function Merge(tbb: seq<Version>, mb: seq<Version>): seq<string> {
    Items(SortDown(Dedup(tbb + mb)), tbb, mb)
  }

  // ----- What each browser gets -----

  function Keep(xs: seq<Version>, mine: seq<Version>): seq<Version> {
    if xs == [] then []
    else Keep(xs[..|xs| - 1], mine) + (if xs[|xs| - 1] in mine then [xs[|xs| - 1]] else [])
  }

  function Texts(xs: seq<Version>): seq<string> {
    seq(|xs|, i requires 0 <= i < |xs| => xs[i].v)
  }

  /** A version text can not be taken for a template. */
  predicate Plain(v: string) {
    v != [] && All(IsVersionChar, v)
  }

  predicate AllPlain(xs: seq<Version>) {
    forall i :: 0 <= i < |xs| ==> Plain(xs[i].v)
  }

  lemma RenderPlain(v: string, b: string)
    requires Plain(v)
    ensures Render(v, b) == v
  {
    assert IF_TBB[0] == '[' && IF_MB[0] == '[' && v[0] != '[';
  }

  lemma RenderOnly(v: string, c: string, b: string)
    requires c in {TBB, MB} && b in {TBB, MB}
    ensures Render(Only(c, v), b) == if b == c then v else ""
  {
    var open := if c == TBB then IF_TBB else IF_MB;
    OnlyParts(open, v, END);
    hide EndsWith;
    if c == TBB {
      assert IF_TBB <= Only(c, v);
    } else {
      assert Only(c, v)[13] == 'm' && IF_TBB[13] == 't';
    }
  }

  lemma OnlyParts(open: string, v: string, end: string)
    ensures var item := open + v + end;
      open <= item && item[|open|..] == v + end && EndsWith(item[|open|..], end) && item[|open|..|item| - |end|] == v
  {
    assert (open + v + end)[|open|..] == v + end;
  }

  lemma {:induction false} OfferedSplit(a: seq<string>, c: seq<string>, b: string)
    ensures Offered(a + c, b) == Offered(a, b) + Offered(c, b)
  {
    hide Render;
    if a == [] {
      assert a + c == c;
    } else {
      assert (a + c)[1..] == a[1..] + c;
      OfferedSplit(a[1..], c, b);
    }
  }

  lemma OfferedOne(item: string, b: string)
    ensures Offered([item], b) == if Render(item, b) == "" then [] else [Render(item, b)]
  {
    hide Render;
    assert [item][1..] == [];
  }

  /** A version is offered to the browsers that have it. */
  lemma OfferedOf(x: Version, tbb: seq<Version>, mb: seq<Version>, b: string)
    requires Plain(x.v) && b in {TBB, MB}
    ensures Offered(ItemsOf(x, tbb, mb), b) == if x in (if b == TBB then tbb else mb) then [x.v] else []
  {
    hide Render, Only, Plain, Offered;
    NotEmpty(x.v);
    assert TBB[0] != MB[0];
    NothingOffered(b);
    RenderPlain(x.v, b);
    RenderOnly(x.v, TBB, b);
    RenderOnly(x.v, MB, b);
    OfferedOne(x.v, b);
    OfferedOne(Only(TBB, x.v), b);
    OfferedOne(Only(MB, x.v), b);
    assert [Only(TBB, x.v)] + [] == [Only(TBB, x.v)] && [] + [Only(MB, x.v)] == [Only(MB, x.v)];
    assert ItemsOf(x, tbb, mb) ==
      if x in tbb then (if x in mb then [x.v] else [Only(TBB, x.v)]) else (if x in mb then [Only(MB, x.v)] else []);
  }

  lemma NotEmpty(v: string)
    requires Plain(v)
    ensures v != ""
  {
  }

  lemma NothingOffered(b: string)
    ensures Offered([], b) == []
  {
  }

  lemma {:induction false} OfferedItems(xs: seq<Version>, tbb: seq<Version>, mb: seq<Version>, b: string)
    requires AllPlain(xs) && b in {TBB, MB}
    ensures Offered(Items(xs, tbb, mb), b) == Texts(Keep(xs, if b == TBB then tbb else mb))
  {
    hide Offered, ItemsOf, Plain;
    if xs == [] {
      NothingOffered(b);
    } else {
      var n := |xs| - 1;
      OfferedItems(xs[..n], tbb, mb, b);
      OfferedSplit(Items(xs[..n], tbb, mb), ItemsOf(xs[n], tbb, mb), b);
      OfferedOf(xs[n], tbb, mb, b);
    }
  }

  lemma {:induction false} DedupKeeps(xs: seq<Version>)
    ensures AllDistinct(Dedup(xs)) && forall x :: x in Dedup(xs) <==> x in xs
  {
    if xs != [] {
      DedupKeeps(xs[..|xs| - 1]);
      assert xs == xs[..|xs| - 1] + [xs[|xs| - 1]];
    }
  }

  lemma DistinctIffMultiset(xs: seq<Version>)
    ensures AllDistinct(xs) <==> forall x :: multiset(xs)[x] <= 1
  {
    DistinctGivesOnce(xs);
    OnceGivesDistinct(xs);
  }

  lemma {:induction false} DistinctGivesOnce(xs: seq<Version>)
    ensures AllDistinct(xs) ==> forall x :: multiset(xs)[x] <= 1
  {
    if xs != [] {
      DistinctGivesOnce(xs[1..]);
      assert xs == [xs[0]] + xs[1..];
      assert xs[0] in xs[1..] ==> exists j :: 0 <= j < |xs| - 1 && xs[1..][j] == xs[0];
    }
  }

  lemma OnceGivesDistinct(xs: seq<Version>)
    ensures (forall x :: multiset(xs)[x] <= 1) ==> AllDistinct(xs)
  {
    forall i, j | 0 <= i < j < |xs| && xs[i] == xs[j]
      ensures multiset(xs)[xs[i]] > 1
    {
      assert xs == xs[..j] + xs[j..];
      assert xs[..j][i] == xs[i] && xs[j..][0] == xs[j];
      assert xs[i] in multiset(xs[..j]) && xs[j] in multiset(xs[j..]);
    }
  }

  lemma {:induction false} KeepIsSorted(xs: seq<Version>, mine: seq<Version>)
    requires NewestFirst(xs) && AllDistinct(xs)
    ensures NewestFirst(Keep(xs, mine)) && AllDistinct(Keep(xs, mine))
    ensures forall x :: x in Keep(xs, mine) <==> x in xs && x in mine
  {
    hide Before;
    if xs != [] {
      var n := |xs| - 1;
      assert xs == xs[..n] + [xs[n]];
      KeepIsSorted(xs[..n], mine);
      var kept := Keep(xs[..n], mine);
      forall i | 0 <= i < |kept|
        ensures kept[i] != xs[n] && !Before(kept[i], xs[n])
      {
        assert kept[i] in xs[..n];
      }
    }
  }

  /**
    The merged list, rendered for either browser, is exactly that browser's versions, each
    once and the newest first, whatever the other browser's are.
  */
  lemma EachBrowserGetsItsOwn(tbb: seq<Version>, mb: seq<Version>, b: string)
    requires AllPlain(tbb) && AllPlain(mb) && b in {TBB, MB}
    ensures var mine := if b == TBB then tbb else mb;
      var got := Keep(SortDown(Dedup(tbb + mb)), mine);
      && Offered(Merge(tbb, mb), b) == Texts(got)
      && NewestFirst(got) && AllDistinct(got) && (forall x :: x in got <==> x in mine)
  {
    hide SortDown, Before, Items, Offered, Keep, NewestFirst, AllDistinct;
    var all := Dedup(tbb + mb);
    var sorted := SortDown(all);
    DedupKeeps(tbb + mb);
    SortDownSorts(all);
    DistinctIffMultiset(all);
    DistinctIffMultiset(sorted);
    forall x
      ensures x in sorted <==> x in tbb || x in mb
    {
      assert x in sorted <==> x in multiset(sorted);
      assert x in all <==> x in multiset(all);
      assert x in all <==> x in tbb + mb;
    }
    forall i | 0 <= i < |sorted|
      ensures Plain(sorted[i].v)
    {
      assert sorted[i] in sorted;
    }
    OfferedItems(sorted, tbb, mb, b);
    KeepIsSorted(sorted, if b == TBB then tbb else mb);
  }

  lemma {:induction false} OneItemEach(xs: seq<Version>, tbb: seq<Version>, mb: seq<Version>)
    requires forall x :: x in xs ==> x in tbb || x in mb
    ensures |Items(xs, tbb, mb)| == |xs|
  {
    if xs != [] {
      var n := |xs| - 1;
      assert xs[n] in xs && forall x :: x in xs[..n] ==> x in xs;
      OneItemEach(xs[..n], tbb, mb);
    }
  }

  /** The list has one item for each version: one that both browsers have is not written twice. */
  lemma MergeIsShort(tbb: seq<Version>, mb: seq<Version>)
    ensures |Merge(tbb, mb)| == |Dedup(tbb + mb)|
    ensures AllDistinct(Dedup(tbb + mb)) && forall x :: x in Dedup(tbb + mb) <==> x in tbb || x in mb
  {
    hide Items, SortDown, Dedup, AllDistinct;
    var all := Dedup(tbb + mb);
    DedupKeeps(tbb + mb);
    SortDownSorts(all);
    assert |multiset(SortDown(all))| == |multiset(all)|;
    forall x | x in SortDown(all)
      ensures x in tbb || x in mb
    {
      assert x in multiset(SortDown(all));
      assert x in all;
    }
    OneItemEach(SortDown(all), tbb, mb);
  }

  /** What the list should come to: the versions of one browser, each once, the newest first. */
  ghost predicate Serves(items: seq<string>, b: string, mine: seq<Version>) {
    exists got :: Offered(items, b) == Texts(got) && NewestFirst(got) && AllDistinct(got)
      && forall x :: x in got <==> x in mine
  }

  lemma MergeServes(tbb: seq<Version>, mb: seq<Version>)
    requires AllPlain(tbb) && AllPlain(mb)
    ensures Serves(Merge(tbb, mb), TBB, tbb) && Serves(Merge(tbb, mb), MB, mb)
  {
    hide Merge, NewestFirst, AllDistinct, Offered;
    assert TBB[0] != MB[0];
    EachBrowserGetsItsOwn(tbb, mb, TBB);
    EachBrowserGetsItsOwn(tbb, mb, MB);
  }

  // ----- The dictionary the list is built from -----

  /** The inner dictionary of a version: its text, under each browser that has it. */
  function Holders(x: Version, tbb: seq<Version>, mb: seq<Version>): map<string, string> {
    (if x in tbb then map[TBB := x.v] else map[]) + (if x in mb then map[MB := x.v] else map[])
  }

  ghost predicate Gathered(order: seq<Version>, holders: map<Version, map<string, string>>, tbb: seq<Version>,
                           mb: seq<Version>) {
    && order == Dedup(tbb + mb)
    && (forall x :: x in holders <==> x in tbb || x in mb)
    && (forall x :: x in holders ==> holders[x] == Holders(x, tbb, mb))
  }

  lemma DedupSnoc(xs: seq<Version>, x: Version)
    ensures Dedup(xs + [x]) == if x in xs then Dedup(xs) else Dedup(xs) + [x]
  {
    assert (xs + [x])[..|xs|] == xs;
    DedupKeeps(xs);
  }

  lemma BothHold(x: Version, tbb: seq<Version>, mb: seq<Version>)
    ensures var h := Holders(x, tbb, mb);
      && (|h| == 2 <==> x in tbb && x in mb)
      && (TBB in h <==> x in tbb) && (MB in h <==> x in mb)
      && (TBB in h ==> h[TBB] == x.v) && (MB in h ==> h[MB] == x.v)
  {
    assert TBB[0] != MB[0];
    var h := Holders(x, tbb, mb);
    assert h.Keys == (if x in tbb then {TBB} else {}) + (if x in mb then {MB} else {});
    assert |h| == |h.Keys|;
    if x in tbb && x in mb {
      assert h.Keys == {TBB, MB};
    } else if x in tbb {
      assert h.Keys == {TBB};
    } else if x in mb {
      assert h.Keys == {MB};
    }
  }

  lemma HoldersSnoc(x: Version, tbb: seq<Version>, mb: seq<Version>, b: string)
    requires b == MB || (b == TBB && mb == [])
    ensures Holders(x, if b == TBB then tbb + [x] else tbb, if b == TBB then mb else mb + [x])
         == Holders(x, tbb, mb)[b := x.v]
    ensures x !in tbb && x !in mb ==> Holders(x, tbb, mb) == map[]
  {
    assert TBB[0] != MB[0];
  }

  lemma OtherHolders(x: Version, tbb: seq<Version>, mb: seq<Version>, b: string)
    ensures forall y :: y != x ==>
      Holders(y, if b == TBB then tbb + [x] else tbb, if b == TBB then mb else mb + [x]) == Holders(y, tbb, mb)
  {
  }

  lemma AddHolder(order: seq<Version>, holders: map<Version, map<string, string>>, tbb: seq<Version>, mb: seq<Version>,
                  b: string, x: Version)
    requires Gathered(order, holders, tbb, mb) && (b == MB || (b == TBB && mb == []))
    ensures var tbb', mb' := if b == TBB then tbb + [x] else tbb, if b == TBB then mb else mb + [x];
      var order' := if x in holders then order else order + [x];
      var h := (if x in holders then holders[x] else map[])[b := x.v];
      Gathered(order', holders[x := h], tbb', mb')
  {
    hide Dedup, Holders;
    assert TBB[0] != MB[0];
    DedupSnoc(tbb + mb, x);
    HoldersSnoc(x, tbb, mb, b);
    OtherHolders(x, tbb, mb, b);
    if b == TBB {
      assert tbb + [x] + mb == tbb + mb + [x];
    } else {
      assert tbb + (mb + [x]) == tbb + mb + [x];
    }
  }
}
