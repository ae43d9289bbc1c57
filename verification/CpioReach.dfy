/** Which streams give a consumer the archive: exactly those with the archive in their first stretch. */
module CpioReach {
  import opened ByteStrings
  import opened Cpio
  import opened CpioStream
  import opened Streams
  import opened Wrappers

  // ----- Windows in reach -----

  lemma {:induction false} ViewAllInside(w: Window, requests: seq<Option<nat>>, slack: nat)
    requires w.Valid() && Inside(w, slack)
    ensures var v := ViewAll(w, requests);
      && Inside(v.w, slack) && v.w.Behind() == w.Behind() && v.data + v.w.Whole() == w.Whole()
      && (None in requests ==> v.data == w.Whole())
  {
    hide View, Inside, Window.Behind, Window.Whole;
    if requests == [] {
      assert [] + w.Whole() == w.Whole();
    } else {
      var n := |requests| - 1;
      ViewAllInside(w, requests[..n], slack);
      var before := ViewAll(w, requests[..n]);
      ViewInside(before.w, requests[n], slack);
      var v := View(before.w, requests[n]);
      Assoc(before.data, v.data, v.w.Whole());
      assert None in requests ==> None in requests[..n] || requests[n] == None;
      NothingMore(before.data, v.data, v.w.Whole());
    }
  }

  lemma NothingMore(a: Bytes, b: Bytes, c: Bytes)
    ensures a + (b + c) == a ==> a + b == a
    ensures b + c == b ==> a + b == a + (b + c)
  {
    assert |a + (b + c)| == |a| + |b| + |c|;
  }

  /** Reading until nothing comes gives the whole window and ends where it ends. */
  lemma {:induction false} ExhaustInside(w: Window, size: nat, slack: nat)
    requires w.Valid() && Inside(w, slack) && size > 0
    ensures var v := Exhaust(w, size);
      && v.data == w.Whole() && Concat(v.w.ss) == w.Behind() && Inside(v.w, slack)
      && v.w.Behind() == w.Behind()
    decreases w.limit
  {
    hide View, Inside, Concat;
    var first := View(w, Some(size));
    ViewInside(w, Some(size), slack);
    if first.data == [] {
      assert w.Whole() == [];
      FrontBack(Concat(first.w.ss), first.w.limit);
      assert [] + Concat(first.w.ss) == Concat(first.w.ss);
      assert first.w.Whole() == [] by { assert [] + first.w.Whole() == first.w.Whole(); }
    } else {
      ExhaustInside(first.w, size, slack);
    }
  }

  // ----- Items in reach -----

  /** Where the needed bytes go: the header, the name, the contents, and the rest of the archive. */
  lemma NeededSplit(s: Bytes)
    requires ParseArchive(s).end.Ok?
    ensures ParseHead(s).Ok? && |s| >= 6 + HEADER_SIZE
    ensures var n := ParseHead(s).value.namesize;
      match ParseItem(s)
      case Ok(Trailer(rest)) => Needed(s) == Min(6 + HEADER_SIZE + n, |s|)
      case Ok(Member(_, _, size, rest)) =>
        && |rest| == |s| - 6 - HEADER_SIZE - n && size < |rest|
        && ParseArchive(Back(rest, size)).end.Ok?
        && Needed(s) == 6 + HEADER_SIZE + n + size + Needed(Back(rest, size))
  {
    EndedStarts(s);
    ItemParts(s);
    hide ParseItem, ParseHead;
    match ParseItem(s) {
      case Ok(Trailer(rest)) => TrailerEnds(s);
      case Ok(Member(name, info, size, rest)) =>
        hide ParseArchive;
        UnfoldMember(s, name, info, size, rest);
    }
  }

  lemma EndedStarts(s: Bytes)
    requires ParseArchive(s).end.Ok?
    ensures ParseItem(s).Ok?
  {
    hide ParseItem;
  }

  lemma TrailerEnds(s: Bytes)
    requires ParseItem(s).Ok? && ParseItem(s).value.Trailer?
    ensures ParseArchive(s).end == Ok(ParseItem(s).value.rest)
  {
    hide ParseItem;
  }

  lemma ItemParts(s: Bytes)
    requires ParseItem(s).Ok?
    ensures ParseHead(s).Ok? && |s| >= 6 + HEADER_SIZE
    ensures |ParseItem(s).value.rest| == |s| - Min(6 + HEADER_SIZE + ParseHead(s).value.namesize, |s|)
  {
    hide ParseHeader, HasParent, CleanName;
  }

  /** The name and the header of the next item are in reach. */
  lemma HeadInReach(ss: seq<Bytes>)
    requires ss != [] && ArchiveInReach(ss)
    ensures match ParseHead(Concat(ss))
      case Err(e) => HeadAt(ss) == Err(e)
      case Ok(h) =>
        && HeadAt(ss).Ok? && HeadAt(ss).value.0 == h
        && var left := HeadAt(ss).value.1;
        && Concat(left) == Back(Concat(ss), 6 + HEADER_SIZE)
        && (AllInReach(ss) ==> AllInReach(left))
        && (!AllInReach(ss) ==> |left[0]| == |ss[0]| - 6 - HEADER_SIZE)
  {
    hide ParseHeader, ReadFrom, Concat, ParseArchive;
    var s := Concat(ss);
    if !AllInReach(ss) {
      NeededSplit(s);
      NeededCovers(s);
    }
    ReadInReach(ss, 6);
    var magic := ReadFrom(ss, Some(6));
    assert MAGIC[..4] <= magic.data <==> MAGIC[..4] <= s;
    if magic.data == MAGIC {
      ReadInReach(magic.left, HEADER_SIZE);
      assert |s| >= 6 + HEADER_SIZE ==> Front(Back(s, 6), HEADER_SIZE) == s[6..6 + HEADER_SIZE];
      assert Back(Back(s, 6), HEADER_SIZE) == Back(s, 6 + HEADER_SIZE);
    }
  }

  lemma NeededCovers(s: Bytes)
    requires ParseArchive(s).end.Ok?
    ensures Needed(s) >= 6 + HEADER_SIZE && Needed(s) <= |s|
  {
    NeededSplit(s);
  }

  lemma ItemInReach(ss: seq<Bytes>)
    requires ss != [] && ArchiveInReach(ss)
    ensures match ParseItem(Concat(ss))
      case Err(e) => ItemAt(ss) == Err(e)
      case Ok(Trailer(_)) => ItemAt(ss) == Ok(EndOfArchive)
      case Ok(Member(name, info, size, rest)) =>
        && ItemAt(ss).Ok? && ItemAt(ss).value.MemberAt?
        && var m := ItemAt(ss).value;
        && m.name == name && m.info == info && m.contents.limit == size && Concat(m.contents.ss) == rest
        && (AllInReach(m.contents.ss)
            || (ParseArchive(Back(rest, size)).end.Ok? && Inside(m.contents, Needed(Back(rest, size)))))
  {
    hide ParseHead, HeadAt, ReadFrom, Concat, ParseArchive, HasParent, CleanName, AllInReach;
    var s := Concat(ss);
    HeadInReach(ss);
    if ParseHead(s).Ok? {
      var h, left := ParseHead(s).value, HeadAt(ss).value.1;
      if !AllInReach(ss) {
        NeededSplit(s);
        FirstIsShorter(ss);
      }
      ReadInReach(left, h.namesize);
    }
  }

  lemma FirstIsShorter(ss: seq<Bytes>)
    requires ss != [] && !AllInReach(ss)
    ensures |ss[0]| < |Concat(ss)|
  {
  }

  // ----- The archive in reach -----

  ghost predicate Partial(got: Entry, whole: Entry, requests: seq<Option<nat>>) {
    && got.name == whole.name && got.info == whole.info
    && got.data <= whole.data
    && (None in requests ==> got == whole)
  }

  /** Of each member the consumer has what it asked for; member `i` is number `k + i`. */
  ghost predicate Partials(got: seq<Entry>, whole: seq<Entry>, requests: nat -> seq<Option<nat>>, k: nat) {
    && |got| == |whole|
    && forall i :: 0 <= i < |got| ==> Partial(got[i], whole[i], requests(k + i))
  }

  lemma PartialsCons(e: Entry, w: Entry, got: seq<Entry>, whole: seq<Entry>, requests: nat -> seq<Option<nat>>, k: nat)
    requires Partial(e, w, requests(k)) && Partials(got, whole, requests, k + 1)
    ensures Partials([e] + got, [w] + whole, requests, k)
  {
    hide Partial;
    forall i | 0 <= i < |got| + 1
      ensures Partial(([e] + got)[i], ([w] + whole)[i], requests(k + i))
    {
      if i > 0 {
        assert Partial(got[i - 1], whole[i - 1], requests(k + 1 + (i - 1)));
      }
    }
  }

  /** Contents in reach: the consumer gets a part, and the stream goes on behind them in reach. */
  lemma ContentsInReach(w: Window, requests: seq<Option<nat>>)
    requires w.Valid()
    requires AllInReach(w.ss) || (ParseArchive(w.Behind()).end.Ok? && Inside(w, Needed(w.Behind())))
    ensures var v := ViewAll(w, requests);
      && v.data <= w.Whole() && (None in requests ==> v.data == w.Whole())
      && Concat(Drained(v.w)) == w.Behind() && ArchiveInReach(Drained(v.w))
  {
    hide ParseArchive, ViewAll, Exhaust, Concat;
    var slack := if AllInReach(w.ss) then 0 else Needed(w.Behind());
    ViewAllInside(w, requests, slack);
    ExhaustInside(ViewAll(w, requests).w, DRAIN_SIZE, slack);
    if AllInReach(w.ss) {
      StaysInReach(w, requests);
    }
  }

  lemma {:induction false} StaysInReach(w: Window, requests: seq<Option<nat>>)
    requires w.Valid() && AllInReach(w.ss)
    ensures AllInReach(ViewAll(w, requests).w.ss) && AllInReach(Drained(ViewAll(w, requests).w))
  {
    ViewsStayInReach(w, requests);
    ExhaustStaysInReach(ViewAll(w, requests).w, DRAIN_SIZE);
  }

  lemma {:induction false} ViewsStayInReach(w: Window, requests: seq<Option<nat>>)
    requires w.Valid() && AllInReach(w.ss)
    ensures AllInReach(ViewAll(w, requests).w.ss)
  {
    hide AllInReach, ReadFrom;
    if requests != [] {
      ViewsStayInReach(w, requests[..|requests| - 1]);
      ViewStaysInReach(ViewAll(w, requests[..|requests| - 1]).w, requests[|requests| - 1]);
    }
  }

  lemma ViewStaysInReach(w: Window, length: Option<nat>)
    requires w.Valid() && AllInReach(w.ss)
    ensures AllInReach(View(w, length).w.ss)
  {
    hide AllInReach, ReadFrom;
    ExactReads(w.ss, Some(if length.None? then w.limit else Min(length.value, w.limit)));
  }

  lemma {:induction false} ExhaustStaysInReach(w: Window, size: nat)
    requires w.Valid() && AllInReach(w.ss) && size > 0
    ensures AllInReach(Exhaust(w, size).w.ss)
    decreases w.limit
  {
    hide AllInReach, View;
    ViewStaysInReach(w, Some(size));
    if View(w, Some(size)).data != [] {
      ExhaustStaysInReach(View(w, Some(size)).w, size);
    }
  }

  /**
    Whatever a consumer reads of each member, from a stream with the archive in its first
    stretch it gets the members in order, up to the trailer or the first error; a read
    without a length gives the whole contents.
  */
  lemma {:induction false} SightInReach(ss: seq<Bytes>, requests: nat -> seq<Option<nat>>, k: nat)
    requires ss != [] && ArchiveInReach(ss)
    ensures var seen, archive := Sight(ss, requests, k), ParseArchive(Concat(ss));
      && Partials(seen.entries, archive.entries, requests, k)
      && seen.end == (if archive.end.Ok? then None else Some(archive.end.error))
    decreases |Concat(ss)|
  {
    hide ItemAt, ParseItem, Concat, ViewAll, Drained, ArchiveInReach, Inside;
    var s := Concat(ss);
    ItemInReach(ss);
    match ParseItem(s) {
      case Err(_) =>
      case Ok(Trailer(_)) =>
      case Ok(Member(name, info, size, rest)) =>
        ItemShrinks(s);
        var w := ItemAt(ss).value.contents;
        ContentsInReach(w, requests(k));
        var v := ViewAll(w, requests(k));
        DrainedShrinks(ss, requests(k));
        SightInReach(Drained(v.w), requests, k + 1);
        var tail, more := Sight(Drained(v.w), requests, k + 1), ParseArchive(Back(rest, size));
        PartialsCons(Entry(name, info, v.data), Entry(name, info, Front(rest, size)), tail.entries, more.entries,
                     requests, k);
    }
  }

  // ----- The archive out of reach -----

  /** The consumer that reads each member's contents in one go. */
  function EachWhole(): nat -> seq<Option<nat>> {
    (k: nat) => [None]
  }

  lemma WholeView(w: Window, k: nat)
    requires w.Valid()
    ensures ViewAll(w, EachWhole()(k)) == View(w, None)
  {
    hide View;
    var requests := EachWhole()(k);
    assert requests == [None] && requests[..0] == [];
    var v := View(w, None);
    assert [] + v.data == v.data;
  }

  /** Two names, the first cut short at a NUL inside the second, are not the same once cleaned. */
  lemma CutNamesDiffer(short: Bytes, name: Bytes)
    requires short + [0] <= name
    ensures CleanName(short) != CleanName(name)
  {
    assert name[|short|] == 0 && name[..|short|] == short;
    assert |name| > |short|;
    if short == [] {
      assert name[0] == 0;
    } else {
      assert name[0] == short[0];
      if |short| > 1 {
        assert name[1] == short[1];
      }
    }
  }

  lemma ShortMagic(ss: seq<Bytes>)
    requires ss != [] && |ss[0]| < 6 + HEADER_SIZE
    ensures ItemAt(ss).Err?
  {
  }

  /** A name that the first stretch cuts short makes another item, or none. */
  lemma CutNameShows(s: Bytes, h: Header, name: Bytes, cut: Bytes)
    requires ParseHead(s) == Ok(h) && ParseItem(s).Ok? && name == Front(Back(s, 6 + HEADER_SIZE), h.namesize)
    requires cut <= name && |cut| < |name|
    ensures match NameItem(h, cut, [])
      case Err(_) => true
      case Ok(Trailer(_)) => ParseItem(s).value.Member?
      case Ok(Member(clean, _, _, _)) => ParseItem(s).value.Member? ==> ParseItem(s).value.name != clean
  {
    hide ParseHead, HasParent, CleanName;
    if cut != [] && cut[|cut| - 1] == 0 {
      var short := cut[..|cut| - 1];
      assert cut == short + [0];
      var full := name[..|name| - 1];
      if |cut| == |name| - 1 {
        assert name == cut + [0] && full == cut;
      }
      assert cut <= full;
      CutNamesDiffer(short, full);
      assert |full| > |short|;
    }
  }

  /** The header is in reach, but the stretch ends before the archive does. */
  lemma HeadThenCut(ss: seq<Bytes>)
    requires ss != [] && |ss[0]| >= 6 + HEADER_SIZE
    ensures match ParseHead(Concat(ss))
      case Err(e) => HeadAt(ss) == Err(e)
      case Ok(h) => HeadAt(ss) == Ok((h, [ss[0][6 + HEADER_SIZE..]] + ss[1..]))
  {
    hide ParseHeader, Concat;
    var s := Concat(ss);
    FirstStretch(ss);
    assert Front(s, 6) == ss[0][..6] && s[6..6 + HEADER_SIZE] == ss[0][6..6 + HEADER_SIZE];
    var magic := ReadFrom(ss, Some(6));
    assert magic.left[0] == ss[0][6..] && magic.left[1..] == ss[1..];
    assert magic.left[0][..HEADER_SIZE] == ss[0][6..6 + HEADER_SIZE];
    assert magic.left[0][HEADER_SIZE..] == ss[0][6 + HEADER_SIZE..];
    assert MAGIC[..4] <= magic.data <==> MAGIC[..4] <= s;
  }

  /** The item is in reach when its name is. */
  lemma ItemThenCut(ss: seq<Bytes>)
    requires ss != [] && ParseHead(Concat(ss)).Ok?
    requires |ss[0]| >= 6 + HEADER_SIZE + ParseHead(Concat(ss)).value.namesize
    ensures match ParseItem(Concat(ss))
      case Err(e) => ItemAt(ss) == Err(e)
      case Ok(Trailer(_)) => ItemAt(ss) == Ok(EndOfArchive)
      case Ok(Member(name, info, size, rest)) =>
        var left := [ss[0][6 + HEADER_SIZE + ParseHead(Concat(ss)).value.namesize..]] + ss[1..];
        ItemAt(ss) == Ok(MemberAt(name, info, Window(left, size))) && Concat(left) == rest
  {
    hide ParseHead, HeadAt, HasParent, CleanName, Concat;
    HeadThenCut(ss);
    var s, h := Concat(ss), ParseHead(Concat(ss)).value;
    var left := [ss[0][6 + HEADER_SIZE..]] + ss[1..];
    FirstStretch(ss);
    FirstStretch(left);
    assert left[1..] == ss[1..];
    assert Back(s, 6 + HEADER_SIZE) == Concat(left);
    ReadInReach(left, h.namesize);
    var r := ReadFrom(left, Some(h.namesize));
    assert left[0][h.namesize..] == ss[0][6 + HEADER_SIZE + h.namesize..];
  }

  lemma ItemCutInName(ss: seq<Bytes>)
    requires ss != [] && ParseItem(Concat(ss)).Ok? && |ss[0]| < |Concat(ss)|
    requires 6 + HEADER_SIZE <= |ss[0]| < 6 + HEADER_SIZE + ParseHead(Concat(ss)).value.namesize
    ensures match ItemAt(ss)
      case Err(_) => true
      case Ok(EndOfArchive) => ParseItem(Concat(ss)).value.Member?
      case Ok(MemberAt(name, _, _)) =>
        ParseItem(Concat(ss)).value.Member? ==> ParseItem(Concat(ss)).value.name != name
  {
    hide ParseHead, HeadAt, Concat, NameItem;
    ItemParts(Concat(ss));
    HeadThenCut(ss);
    var s, h := Concat(ss), ParseHead(Concat(ss)).value;
    var left := [ss[0][6 + HEADER_SIZE..]] + ss[1..];
    FirstStretch(ss);
    var name, cut := Front(Back(s, 6 + HEADER_SIZE), h.namesize), left[0];
    assert s == ss[0] + Concat(ss[1..]);
    assert Back(s, 6 + HEADER_SIZE) == cut + Concat(ss[1..]);
    assert ReadFrom(left, Some(h.namesize)).data == cut;
    CutNameShows(s, h, name, cut);
  }

  /** Contents that the first stretch cuts short come out short; others leave the rest of the archive out of reach. */
  lemma ContentsThenCut(w: Window, needed: nat, k: nat)
    requires w.Valid() && w.limit + needed > |w.ss[0]| && w.limit <= |Concat(w.ss)|
    ensures var v := ViewAll(w, EachWhole()(k));
      if |w.ss[0]| < w.limit then |v.data| < w.limit
      else
        && v.data == w.Whole() && Concat(Drained(v.w)) == w.Behind()
        && |Drained(v.w)[0]| < needed
  {
    hide Concat;
    WholeView(w, k);
    var v := View(w, None);
    if w.limit <= |w.ss[0]| {
      ViewInside(w, None, 0);
      ReadNothing(v.w.ss);
      assert v.w.limit == 0;
      assert View(v.w, Some(DRAIN_SIZE)) == Viewing([], v.w);
      assert Back(Concat(v.w.ss), 0) == Concat(v.w.ss);
    }
  }

  lemma FirstMember(s: Bytes)
    requires ParseItem(s).Ok?
    ensures var a, item := ParseArchive(s), ParseItem(s).value;
      if item.Trailer? then a.entries == [] else a.entries != [] && a.entries[0].name == item.name
  {
    hide ParseItem;
    ItemShrinks(s);
  }

  lemma FirstSeen(ss: seq<Bytes>, k: nat)
    requires ss != []
    ensures var seen := Sight(ss, EachWhole(), k);
      match ItemAt(ss)
      case Err(_) => seen.end.Some?
      case Ok(EndOfArchive) => seen.entries == []
      case Ok(MemberAt(name, _, _)) => seen.entries != [] && seen.entries[0].name == name
  {
    hide ItemAt, ViewAll, Drained, Concat;
    if ItemAt(ss).Ok? && ItemAt(ss).value.MemberAt? {
      DrainedShrinks(ss, EachWhole()(k));
    }
  }

  lemma {:induction false} OutOfReach(ss: seq<Bytes>, k: nat)
    requires ss != [] && ParseArchive(Concat(ss)).end.Ok? && Needed(Concat(ss)) > |ss[0]|
    ensures Sight(ss, EachWhole(), k) != Seen(ParseArchive(Concat(ss)).entries, None)
    decreases |Concat(ss)|
  {
    hide ItemAt, ParseItem, ParseHead, Concat, ViewAll, Drained, Needed;
    var s := Concat(ss);
    EndedStarts(s);
    NeededSplit(s);
    NeededCovers(s);
    if |ss[0]| < 6 + HEADER_SIZE {
      ShortMagic(ss);
    } else if |ss[0]| < 6 + HEADER_SIZE + ParseHead(s).value.namesize {
      ItemCutInName(ss);
      FirstMember(s);
      FirstSeen(ss, k);
    } else {
      ItemThenCut(ss);
      var item, m := ParseItem(s).value, ItemAt(ss).value;
      var w, needed := m.contents, Needed(Back(item.rest, item.size));
      ContentsThenCut(w, needed, k);
      ItemShrinks(s);
      UnfoldMember(s, item.name, item.info, item.size, item.rest);
      SightOfMember(ss, k);
      var v := ViewAll(w, EachWhole()(k));
      if w.limit <= |w.ss[0]| {
        OutOfReach(Drained(v.w), k + 1);
      }
      var more := ParseArchive(Back(item.rest, item.size));
      ConsDiffer(Entry(m.name, m.info, v.data), Sight(Drained(v.w), EachWhole(), k + 1).entries,
                 Entry(item.name, item.info, Front(item.rest, item.size)), more.entries);
    }
  }

  lemma SightOfMember(ss: seq<Bytes>, k: nat)
    requires ss != [] && ItemAt(ss).Ok? && ItemAt(ss).value.MemberAt?
    ensures var m := ItemAt(ss).value;
      var v := ViewAll(m.contents, EachWhole()(k));
      var tail := Sight(Drained(v.w), EachWhole(), k + 1);
      && |Concat(Drained(v.w))| < |Concat(ss)|
      && Sight(ss, EachWhole(), k) == Seen([Entry(m.name, m.info, v.data)] + tail.entries, tail.end)
  {
    hide ItemAt, ViewAll, Drained, Concat;
    DrainedShrinks(ss, EachWhole()(k));
  }

  lemma ConsDiffer<T>(a: T, x: seq<T>, b: T, y: seq<T>)
    ensures [a] + x == [b] + y ==> a == b && x == y
  {
    if [a] + x == [b] + y {
      assert ([a] + x)[0] == ([b] + y)[0] && ([a] + x)[1..] == x && ([b] + y)[1..] == y;
    }
  }

  /**
    A consumer that reads each member whole is given exactly the archive if and only if
    the first stretch holds it through its trailer's name.
  */
  lemma SightIff(ss: seq<Bytes>)
    requires ss != [] && ParseArchive(Concat(ss)).end.Ok?
    ensures Sight(ss, EachWhole(), 0) == Seen(ParseArchive(Concat(ss)).entries, None) <==> Needed(Concat(ss)) <= |ss[0]|
  {
    hide Sight, ParseArchive, Needed, Concat;
    if Needed(Concat(ss)) <= |ss[0]| {
      var seen, archive := Sight(ss, EachWhole(), 0), ParseArchive(Concat(ss));
      SightInReach(ss, EachWhole(), 0);
      forall i | 0 <= i < |seen.entries|
        ensures seen.entries[i] == archive.entries[i]
      {
        assert Partial(seen.entries[i], archive.entries[i], EachWhole()(0 + i));
      }
    } else {
      OutOfReach(ss, 0);
    }
  }
}
