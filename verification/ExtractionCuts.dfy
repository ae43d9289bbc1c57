/** The extraction from an archive that is cut: which cuts it does not notice. */
module ExtractionCuts {
  import opened ByteStrings
  import opened Cpio
  import opened CpioCuts
  import opened CpioReach
  import opened CpioStream
  import opened StreamExtraction
  import opened Streams
  import opened UnpackSdk
  import opened Wrappers

  /** The reads of a member's contents notice no cut; contents that are not wanted are passed over. */
  predicate ContentsPass(f: Fetch, ss: seq<Bytes>, size: nat)
    requires ss != []
  {
    match f
    case Nothing => Passes(ss, size, DRAIN_SIZE)
    case Once => Uncut(ss, size)
    case Copied => Passes(ss, size, COPY_BUFSIZE)
  }

  lemma LookedBehind(ss: seq<Bytes>)
    requires ss != [] && ParseItem(Concat(ss)).Ok? && ParseItem(Concat(ss)).value.Member?
    ensures Concat(After(ss, Looked(Concat(ss)))) == ParseItem(Concat(ss)).value.rest
    ensures |ParseItem(Concat(ss)).value.rest| < |Concat(ss)|
  {
    hide ParseHead, Concat;
    AfterConcat(ss, Looked(Concat(ss)));
    var s := Concat(ss);
    assert Front(s, 6) == MAGIC by { HeadHasMagic(s); }
    BackTwice(s, 6 + HEADER_SIZE, ParseHead(s).value.namesize);
    ItemShrinks(s);
  }

  lemma HeadHasMagic(s: Bytes)
    requires ParseItem(s).Ok?
    ensures ParseHead(s).Ok? && Front(s, 6) == MAGIC
  {
  }

  lemma BackTwice(s: Bytes, m: nat, n: nat)
    ensures Back(Back(s, m), n) == Back(s, m + n)
  {
  }

  lemma BackShrinks(ss: seq<Bytes>, n: nat)
    requires ss != []
    ensures |Concat(After(ss, n))| <= |Concat(ss)|
  {
    AfterConcat(ss, n);
  }

  /**
    The cuts of an archive that its extraction does not notice: none in a header, a name or
    contents that are taken in one read, and none where a read of copied or skipped contents
    ends.
  */
  predicate Smooth(q: Request, st: State, ss: seq<Bytes>)
    requires ss != []
    decreases |Concat(ss)|
  {
    var s := Concat(ss);
    && Uncut(ss, Looked(s))
    && match ParseItem(s)
       case Ok(Member(name, info, size, rest)) =>
         LookedBehind(ss);
         var here := After(ss, Looked(s));
         BackShrinks(here, size);
         var st' := Step(q, st, Entry(name, info, Front(rest, size)));
         && ContentsPass(FetchFor(q, st.table, Entry(name, info, [])), here, size)
         && (st'.error.None? ==> Smooth(q, st', After(here, size)))
       case _ => true
  }

  // ----- One member -----

  lemma AfterNothing(ss: seq<Bytes>)
    requires ss != []
    ensures After(ss, 0) == ss
  {
    assert [ss[0][0..]] + ss[1..] == ss;
  }

  lemma PassedEmpty(w: Window)
    requires w.Valid() && w.limit > 0 && Concat(w.ss) == []
    ensures Passed(w, Viewing([], w))
  {
    EmptyInReach(w.ss);
    EmptyWindow(w);
    hide Concat, AllInReach, After, Window.Whole, Window.Behind;
  }

  lemma EmptyWindow(w: Window)
    requires w.Valid() && Concat(w.ss) == []
    ensures w.Whole() == [] && w.Behind() == []
  {
    hide Concat;
  }

  lemma EmptyInReach(ss: seq<Bytes>)
    requires ss != [] && Concat(ss) == []
    ensures AllInReach(ss)
  {
    hide Concat;
    FirstStretch(ss);
    assert |Concat(ss)| == |ss[0]| + |Concat(ss[1..])|;
  }

  /** One read of the whole window. */
  lemma OnceThrough(w: Window)
    requires w.Valid() && Uncut(w.ss, w.limit)
    ensures Passed(w, View(w, None))
  {
    var v := View(w, None);
    FirstStretch(w.ss);
    if w.limit <= |w.ss[0]| {
      var t := Window([w.ss[0][w.limit..]] + w.ss[1..], 0);
      PassedNothing(t);
      assert w.ss[0][..w.limit] + [] == w.ss[0][..w.limit];
      PassedOn(w, w.limit, Viewing([], t), v.data);
    } else {
      hide Passed;
      assert w.ss[0] + [] == w.ss[0];
      if |w.ss| > 1 {
        PassedEmpty(Window(w.ss[1..], w.limit - |w.ss[0]|));
        PassedNext(w, Viewing([], Window(w.ss[1..], w.limit - |w.ss[0]|)), v.data);
      } else {
        OneStretch([]);
        PassedEmpty(Window([[]], w.limit - |w.ss[0]|));
        PassedLast(w, Viewing([], Window([[]], w.limit - |w.ss[0]|)), v.data);
      }
    }
  }

  /** Nothing is left to be passed over once the window has been read. */
  lemma NothingLeft(w: Window, v: Viewing)
    requires w.Valid() && v.w.Valid() && Passed(w, v)
    ensures Concat(Drained(v.w)) == w.Behind()
    ensures if w.limit <= |Concat(w.ss)| then Drained(v.w) == After(w.ss, w.limit) else AllInReach(Drained(v.w))
  {
    hide Concat, AllInReach, After;
    if w.limit <= |Concat(w.ss)| {
      assert |v.data| == w.limit;
    } else {
      assert w.Behind() == [];
    }
    EndIsPassed(v.w);
    hide Exhaust;
    ExhaustThrough(v.w, DRAIN_SIZE);
    AfterNothing(v.w.ss);
  }

  lemma EndIsPassed(w: Window)
    requires w.Valid() && (w.limit == 0 || AllInReach(w.ss))
    ensures Passes(w.ss, w.limit, DRAIN_SIZE)
  {
  }

  lemma FetchedWhole(f: Fetch, w: Window)
    requires w.Valid() && ContentsPass(f, w.ss, w.limit)
    ensures var v := Fetched(f, w);
      && (f != Nothing ==> v.data == w.Whole())
      && Concat(Drained(v.w)) == w.Behind()
      && (if w.limit <= |Concat(w.ss)| then Drained(v.w) == After(w.ss, w.limit) else AllInReach(Drained(v.w)))
      && (AllInReach(w.ss) ==> AllInReach(Drained(v.w)))
  {
    hide Exhaust, View, Concat, Passes, Uncut, After, AllInReach;
    match f {
      case Nothing =>
        ExhaustThrough(w, DRAIN_SIZE);
        PassedIsBehind(w, Exhaust(w, DRAIN_SIZE));
      case Once =>
        OnceThrough(w);
        NothingLeft(w, View(w, None));
        if AllInReach(w.ss) {
          ViewStaysInReach(w, None);
          ExhaustStaysInReach(View(w, None).w, DRAIN_SIZE);
        }
      case Copied =>
        ExhaustThrough(w, COPY_BUFSIZE);
        NothingLeft(w, Exhaust(w, COPY_BUFSIZE));
        if AllInReach(w.ss) {
          ExhaustStaysInReach(w, COPY_BUFSIZE);
          ExhaustStaysInReach(Exhaust(w, COPY_BUFSIZE).w, DRAIN_SIZE);
        }
    }
  }

  lemma PassedIsBehind(w: Window, v: Viewing)
    requires w.Valid() && v.w.Valid() && Passed(w, v)
    ensures Concat(v.w.ss) == w.Behind()
    ensures if w.limit <= |Concat(w.ss)| then v.w.ss == After(w.ss, w.limit) else AllInReach(v.w.ss)
    ensures AllInReach(w.ss) ==> AllInReach(v.w.ss)
  {
  }

  lemma TakenWhole(q: Request, st: State, name: Path, info: CpioInfo, w: Window)
    requires w.Valid() && ContentsPass(FetchFor(q, st.table, Entry(name, info, [])), w.ss, w.limit)
    ensures var (e, left) := Taken(q, st.table, name, info, w);
      && Step(q, st, e) == Step(q, st, Entry(name, info, w.Whole()))
      && Concat(Drained(left)) == w.Behind()
      && (if w.limit <= |Concat(w.ss)| then Drained(left) == After(w.ss, w.limit) else AllInReach(Drained(left)))
      && (AllInReach(w.ss) ==> AllInReach(Drained(left)))
  {
    hide Fetched, ContentsPass, Step, Concat, AllInReach, After, Drained;
    var bare := Entry(name, info, []);
    FetchedWhole(FetchFor(q, st.table, bare), w);
    if FetchFor(q, st.table, bare) == Nothing {
      NothingFetched(w);
      UnreadIsIgnored(q, st, bare, w.Whole());
    }
  }

  lemma NothingFetched(w: Window)
    requires w.Valid()
    ensures Fetched(Nothing, w) == Viewing([], w)
  {
  }

  /** One turn of the loop, when no cut in a member is noticed. */
  lemma TurnWhole(q: Request, st: State, ss: seq<Bytes>)
    requires ss != [] && Uncut(ss, Looked(Concat(ss)))
    requires ParseItem(Concat(ss)).Ok? && ParseItem(Concat(ss)).value.Member?
    requires var m := ParseItem(Concat(ss)).value;
      ContentsPass(FetchFor(q, st.table, Entry(m.name, m.info, [])), After(ss, Looked(Concat(ss))), m.size)
    ensures var m := ParseItem(Concat(ss)).value;
      var turned := TurnAt(q, st, ss);
      && turned.st == Step(q, st, Entry(m.name, m.info, Front(m.rest, m.size)))
      && (turned.next.Some? <==> turned.st.error.None?)
      && (turned.next.Some? ==>
            && Concat(turned.next.value) == Back(m.rest, m.size)
            && (if AllInReach(ss) || m.size > |m.rest| then AllInReach(turned.next.value)
                else turned.next.value == After(After(ss, Looked(Concat(ss))), m.size)))
  {
    hide ParseItem, ItemAt, Concat, Taken, Step, Drained, Looked;
    var m := ParseItem(Concat(ss)).value;
    ItemWhole(ss);
    var w := ItemAt(ss).value.contents;
    if AllInReach(ss) {
      AnyPass(FetchFor(q, st.table, Entry(m.name, m.info, [])), w.ss, w.limit);
    }
    TakenWhole(q, st, m.name, m.info, w);
  }

  lemma AnyPass(f: Fetch, ss: seq<Bytes>, size: nat)
    requires ss != [] && AllInReach(ss)
    ensures ContentsPass(f, ss, size)
  {
  }

  // ----- Whole extractions -----

  lemma AfterMember(ss: seq<Bytes>)
    requires ss != [] && ParseItem(Concat(ss)).Ok? && ParseItem(Concat(ss)).value.Member?
    ensures var m := ParseItem(Concat(ss)).value;
      var next := After(After(ss, Looked(Concat(ss))), m.size);
      && Concat(next) == Back(m.rest, m.size) && |Concat(next)| < |Concat(ss)|
      && (AllInReach(ss) ==> AllInReach(next))
  {
    hide ParseItem, Looked, Concat, AllInReach;
    LookedBehind(ss);
    AfterConcat(ss, Looked(Concat(ss)));
    AfterConcat(After(ss, Looked(Concat(ss))), ParseItem(Concat(ss)).value.size);
  }

  /** With nothing out of reach there is no cut to notice. */
  lemma {:induction false} NoCuts(q: Request, st: State, ss: seq<Bytes>)
    requires ss != [] && AllInReach(ss)
    ensures Smooth(q, st, ss)
    decreases |Concat(ss)|
  {
    hide ParseItem, Looked, Concat, AllInReach, After, Step, ContentsPass;
    if ParseItem(Concat(ss)).Ok? && ParseItem(Concat(ss)).value.Member? {
      var m := ParseItem(Concat(ss)).value;
      var here := After(ss, Looked(Concat(ss)));
      AfterConcat(ss, Looked(Concat(ss)));
      AnyPass(FetchFor(q, st.table, Entry(m.name, m.info, [])), here, m.size);
      AfterMember(ss);
      NoCuts(q, Step(q, st, Entry(m.name, m.info, Front(m.rest, m.size))), After(here, m.size));
    }
  }

  /** Nor is there in an archive that lies in the first stretch. */
  lemma {:induction false} InReachIsSmooth(q: Request, st: State, ss: seq<Bytes>)
    requires ss != [] && ArchiveInReach(ss)
    ensures Smooth(q, st, ss)
    decreases |Concat(ss)|
  {
    hide ParseItem, ParseArchive, Needed, Looked, Concat, AllInReach, Step, After, Passes, Uncut;
    if AllInReach(ss) {
      NoCuts(q, st, ss);
    } else {
      var looked := Looked(Concat(ss));
      FirstIsShorter(ss);
      FirstLooked(ss);
      InFirst(ss, looked, 0, Once);
      if ParseItem(Concat(ss)).Ok? && ParseItem(Concat(ss)).value.Member? {
        var m := ParseItem(Concat(ss)).value;
        AfterMember(ss);
        InFirst(ss, looked, m.size, FetchFor(q, st.table, Entry(m.name, m.info, [])));
        InReachIsSmooth(q, Step(q, st, Entry(m.name, m.info, Front(m.rest, m.size))),
                        After(After(ss, looked), m.size));
      }
    }
  }

  lemma InFirst(ss: seq<Bytes>, n: nat, size: nat, f: Fetch)
    requires ss != [] && n + size <= |ss[0]|
    ensures Uncut(ss, n) && ContentsPass(f, After(ss, n), size)
    ensures |After(After(ss, n), size)[0]| == |ss[0]| - n - size
  {
  }

  lemma FirstLooked(ss: seq<Bytes>)
    requires ss != [] && ParseArchive(Concat(ss)).end.Ok? && Needed(Concat(ss)) <= |ss[0]| < |Concat(ss)|
    ensures Looked(Concat(ss)) <= |ss[0]|
    ensures ParseItem(Concat(ss)).Ok? && ParseItem(Concat(ss)).value.Member? ==>
      var m := ParseItem(Concat(ss)).value;
      && Looked(Concat(ss)) + m.size <= |ss[0]| && ParseArchive(Back(m.rest, m.size)).end.Ok?
      && Needed(Back(m.rest, m.size)) <= |ss[0]| - Looked(Concat(ss)) - m.size
  {
    hide ParseItem, ParseHead, Concat, Needed;
    NeededSplit(Concat(ss));
    EndedStarts(Concat(ss));
    HeadHasMagic(Concat(ss));
  }

  /** What the archive says: its members in turn, and then its error, unless one of them had one. */
  function Outcome(q: Request, st: State, archive: Archive): State {
    var end := RunFrom(q, st, archive.entries);
    if end.error.None? && archive.end.Err? then end.(error := Some(BadArchive(archive.end.error))) else end
  }

  lemma OutcomeUnfolds(q: Request, st: State, s: Bytes)
    requires ParseItem(s).Ok? && ParseItem(s).value.Member?
    ensures |Back(ParseItem(s).value.rest, ParseItem(s).value.size)| < |s|
    ensures var m := ParseItem(s).value;
      var st' := Step(q, st, Entry(m.name, m.info, Front(m.rest, m.size)));
      Outcome(q, st, ParseArchive(s))
      == if st'.error.Some? then st' else Outcome(q, st', ParseArchive(Back(m.rest, m.size)))
  {
    hide ParseItem, Step;
    ItemShrinks(s);
    var m := ParseItem(s).value;
    var more := ParseArchive(Back(m.rest, m.size));
    var e := Entry(m.name, m.info, Front(m.rest, m.size));
    assert ([e] + more.entries)[1..] == more.entries;
    var st' := Step(q, st, e);
    if st'.error.Some? {
      RunStuck(q, st', more.entries);
    }
  }

  lemma OutcomeEnds(q: Request, st: State, s: Bytes)
    requires st.error.None?
    ensures ParseItem(s).Err? ==> Outcome(q, st, ParseArchive(s)) == st.(error := Some(BadArchive(ParseItem(s).error)))
    ensures ParseItem(s).Ok? && ParseItem(s).value.Trailer? ==> Outcome(q, st, ParseArchive(s)) == st
  {
    hide ParseItem, Step;
  }

  /** Through cuts that are not noticed, the loop does what the archive says. */
  lemma {:induction false} ExtractThrough(q: Request, st: State, ss: seq<Bytes>)
    requires ss != [] && Smooth(q, st, ss) && st.error.None?
    ensures ExtractAt(q, st, ss) == Outcome(q, st, ParseArchive(Concat(ss)))
    decreases |Concat(ss)|
  {
    hide ItemAt, ParseItem, ParseArchive, Concat, Drained, Looked, Step, Taken, Outcome, After, ContentsPass,
      AllInReach;
    var s := Concat(ss);
    if ParseItem(s).Ok? && ParseItem(s).value.Member? {
      var m := ParseItem(s).value;
      TurnWhole(q, st, ss);
      OutcomeUnfolds(q, st, s);
      hide TurnAt;
      var turned := TurnAt(q, st, ss);
      if turned.next.Some? {
        if AllInReach(turned.next.value) {
          NoCuts(q, turned.st, turned.next.value);
        }
        TurnShrinks(q, st, ss);
        ExtractThrough(q, turned.st, turned.next.value);
      }
    } else {
      ItemWhole(ss);
      OutcomeEnds(q, st, s);
    }
  }

  /** So from the start it is the extraction of the archive. */
  lemma ExtractionThrough(q: Request, fs: FileSystem, ss: seq<Bytes>)
    requires ss != [] && Smooth(q, State(map[], fs, None), ss)
    ensures ExtractAt(q, State(map[], fs, None), ss) == Extraction(q, fs, ParseArchive(Concat(ss)))
  {
    hide Concat, ParseArchive, Smooth, ExtractAt, Step;
    var entries := ParseArchive(Concat(ss)).entries;
    ExtractThrough(q, State(map[], fs, None), ss);
    RunOnFrom(q, fs, [], entries);
    assert [] + entries == entries;
  }

  /** In particular with the archive in reach. */
  lemma ExtractionInReach(q: Request, fs: FileSystem, ss: seq<Bytes>)
    requires ss != [] && ArchiveInReach(ss)
    ensures ExtractAt(q, State(map[], fs, None), ss) == Extraction(q, fs, ParseArchive(Concat(ss)))
  {
    InReachIsSmooth(q, State(map[], fs, None), ss);
    hide *;
    ExtractionThrough(q, fs, ss);
  }

  // ----- And no others -----

  /**
    The loop keeps pace with the archive: each turn finds the archive's own item, gets all
    of the contents it wants, and stops right behind them.
  */
  ghost predicate KeepsPace(q: Request, st: State, ss: seq<Bytes>)
    requires ss != []
    decreases |Concat(ss)|
  {
    match ParseItem(Concat(ss))
    case Err(e) => ItemAt(ss) == Err(e)
    case Ok(Trailer(_)) => ItemAt(ss) == Ok(EndOfArchive)
    case Ok(Member(name, info, size, rest)) =>
      && ItemAt(ss).Ok? && ItemAt(ss).value.MemberAt?
      && var m := ItemAt(ss).value;
      && m.name == name && m.info == info
      && var (e, left) := Taken(q, st.table, name, info, m.contents);
      && (FetchFor(q, st.table, Entry(name, info, [])) != Nothing ==> e.data == Front(rest, size))
      && Concat(Drained(left)) == Back(rest, size)
      && var st' := Step(q, st, Entry(name, info, Front(rest, size)));
      && (st'.error.None? ==>
            && |Concat(Drained(left))| < |Concat(ss)|
            && KeepsPace(q, st', Drained(left)))
  }

  /** A cut in the contents is noticed: they come short, or the loop stops in front of their end. */
  lemma ContentsCut(f: Fetch, w: Window)
    requires w.Valid() && !ContentsPass(f, w.ss, w.limit)
    ensures var v := Fetched(f, w);
      if f == Nothing then |Concat(Drained(v.w))| > |w.Behind()| else v.data != w.Whole()
  {
    hide Exhaust, Concat, Passes;
    match f {
      case Nothing =>
        ExhaustStops(w, DRAIN_SIZE);
        ExhaustConserves(w, DRAIN_SIZE);
      case Once => OnceCut(w);
      case Copied => ExhaustStops(w, COPY_BUFSIZE);
    }
  }

  lemma OnceCut(w: Window)
    requires w.Valid() && !Uncut(w.ss, w.limit)
    ensures View(w, None).data == w.ss[0] && |w.ss[0]| < |w.Whole()|
  {
    FirstStretch(w.ss);
  }

  /** In an archive with a trailer, those are all the cuts that are not noticed. */
  lemma {:induction false} KeepsPaceIff(q: Request, st: State, ss: seq<Bytes>)
    requires ss != [] && ParseArchive(Concat(ss)).end.Ok?
    ensures KeepsPace(q, st, ss) <==> Smooth(q, st, ss)
    decreases |Concat(ss)|
  {
    hide ItemAt, ParseItem, Concat, Drained, Looked, Step, Fetched, After, ContentsPass, AllInReach;
    var s := Concat(ss);
    EndedStarts(s);
    if !Uncut(ss, Looked(s)) {
      ItemCut(ss);
    } else if ParseItem(s).value.Trailer? {
      ItemWhole(ss);
    } else {
      var m := ParseItem(s).value;
      var f := FetchFor(q, st.table, Entry(m.name, m.info, []));
      MemberFits(ss);
      hide ParseArchive;
      ItemInFirst(ss);
      var w := Window(After(ss, Looked(s)), m.size);
      AfterMember(ss);
      if ContentsPass(f, w.ss, w.limit) {
        FetchedWhole(f, w);
        if Step(q, st, Entry(m.name, m.info, Front(m.rest, m.size))).error.None? {
          KeepsPaceIff(q, Step(q, st, Entry(m.name, m.info, Front(m.rest, m.size))), After(w.ss, w.limit));
        }
      } else {
        ContentsCut(f, w);
      }
    }
  }

  /** A member of an archive with a trailer ends in front of the archive's end. */
  lemma MemberFits(ss: seq<Bytes>)
    requires ss != [] && ParseArchive(Concat(ss)).end.Ok? && Uncut(ss, Looked(Concat(ss)))
    requires ParseItem(Concat(ss)).Ok? && ParseItem(Concat(ss)).value.Member?
    ensures Looked(Concat(ss)) <= |ss[0]|
    ensures var m := ParseItem(Concat(ss)).value; m.size < |m.rest| && ParseArchive(Back(m.rest, m.size)).end.Ok?
  {
    hide ParseItem, ParseHead, ParseArchive, Concat;
    var s := Concat(ss);
    NeededSplit(s);
    HeadHasMagic(s);
    if AllInReach(ss) {
      FirstStretch(ss);
      assert s == ss[0] + [];
    }
  }
}
