/** What one cut of an archive does to its extraction, wherever it is made. */
module CutEffects {
  import opened ByteStrings
  import opened Cpio
  import opened CpioCuts
  import opened CpioReach
  import opened CpioStream
  import opened ExtractionCuts
  import opened StreamExtraction
  import opened Streams
  import opened UnpackSdk
  import opened Wrappers

  /**
    Nothing; or one member's contents are only their first bytes; or an error after some
    members; or the loop goes on where only by chance a header could stand.
  */
  datatype Damage = Harmless | Shortened(member: nat, kept: nat) | Broken(members: nat, error: Cpio.Error) | Misled

  /** The cut is behind the first `n` bytes of a header and its name. */
  function InHead(s: Bytes, n: nat): Damage
    requires n <= |s|
  {
    if n < 6 then Broken(0, if MAGIC[..4] <= s[..n] then UnsupportedFormat else NotCpio)
    else if n < 6 + HEADER_SIZE then Broken(0, ShortHeader)
    else if n == 6 + HEADER_SIZE || s[n - 1] != 0 then Broken(0, UnterminatedName)
    else Misled
  }

  /** The cut is where a read of skipped contents ends, and the loop takes what follows for a header. */
  function InSkipped(s: Bytes): Damage {
    if Front(s, 6) == MAGIC then Misled
    else Broken(1, if MAGIC[..4] <= Front(s, 6) then UnsupportedFormat else NotCpio)
  }

  function OneLater(d: Damage): Damage {
    match d
    case Shortened(k, n) => Shortened(k + 1, n)
    case Broken(k, e) => Broken(k + 1, e)
    case _ => d
  }

  /** What the cut between `a` and `b` does. */
  function DamageOf(q: Request, st: State, a: Bytes, b: Bytes): Damage
    decreases |a + b|
  {
    var s := a + b;
    if |a| < Looked(s) then InHead(s, |a|)
    else
      match ParseItem(s)
      case Ok(Member(name, info, size, rest)) =>
        var c := |a| - Looked(s);
        var st' := Step(q, st, Entry(name, info, Front(rest, size)));
        if size <= c then
          HeadIsThere(s);
          if st'.error.Some? then Harmless else OneLater(DamageOf(q, st', a[Looked(s) + size..], b))
        else
          (match FetchFor(q, st.table, Entry(name, info, []))
           case Once => Shortened(0, c)
           case Copied => if c % COPY_BUFSIZE == 0 then Shortened(0, c) else Harmless
           case Nothing => if c % DRAIN_SIZE != 0 || st'.error.Some? then Harmless else InSkipped(Back(rest, c)))
      case _ => Harmless
  }

  lemma HeadIsThere(s: Bytes)
    ensures Looked(s) > 0
  {
  }

  // ----- Two stretches -----

  lemma TwoStretches(a: Bytes, b: Bytes, n: nat)
    ensures Concat([a, b]) == a + b && (AllInReach([a, b]) <==> b == [])
    ensures n <= |a| ==> After([a, b], n) == [a[n..], b] && a[n..] + b == (a + b)[n..] == Back(a + b, n)
    ensures Uncut([a, b], n) <==> n <= |a| || b == []
  {
    assert [a, b][1..] == [b];
    OneStretch(b);
    FirstStretch([a, b]);
    assert n <= |a| ==> [a[n..]] + [b] == [a[n..], b];
  }

  lemma PassesTwo(a: Bytes, b: Bytes, limit: nat, size: nat)
    requires size > 0 && b != []
    ensures Passes([a, b], limit, size) <==> limit <= |a| || |a| % size != 0
  {
    TwoStretches(a, b, limit);
    assert [a, b][1..] == [b];
    OneStretch(b);
  }

  /** Reads that reach a stretch's end all at once stop there, and skip over it. */
  lemma {:induction false} ExhaustStopsAt(a: Bytes, b: Bytes, limit: nat, size: nat)
    requires size > 0 && |a| % size == 0 && limit > |a|
    ensures Exhaust(Window([a, b], limit), size) == Viewing(a, Window([b], limit - |a|))
    decreases |a|
  {
    var w := Window([a, b], limit);
    hide View, Exhaust;
    ExhaustUnfold(w, size);
    FirstRead(w, size);
    assert w.ss[1..] == [b];
    if a != [] {
      if |a| < size {
        DivModUnique(size, 0, |a|, |a|);
      }
      SameRemainder(|a|, size);
      ExhaustStopsAt(a[size..], b, limit - size, size);
      assert [a[size..]] + [b] == [a[size..], b];
      assert a[..size] + a[size..] == a;
    }
  }

  lemma OnceStopsAt(a: Bytes, b: Bytes, limit: nat)
    requires limit > |a|
    ensures View(Window([a, b], limit), None) == Viewing(a, Window([b], limit - |a|))
  {
    assert [a, b][1..] == [b];
  }

  lemma DrainedWhole(b: Bytes, limit: nat)
    ensures Concat(Drained(Window([b], limit))) == Back(b, limit) && AllInReach(Drained(Window([b], limit)))
  {
    hide Exhaust;
    OneStretch(b);
    ExhaustThrough(Window([b], limit), DRAIN_SIZE);
    ExhaustStaysInReach(Window([b], limit), DRAIN_SIZE);
  }

  // ----- The turn with the cut -----

  lemma CutInHead(q: Request, st: State, a: Bytes, b: Bytes)
    requires b != [] && |a| < Looked(a + b) && ParseItem(a + b).Ok?
    ensures !Smooth(q, st, [a, b]) && !InHead(a + b, |a|).Harmless? && !InHead(a + b, |a|).Shortened?
    ensures InHead(a + b, |a|).Broken? ==>
      InHead(a + b, |a|).members == 0
      && ExtractAt(q, st, [a, b]) == st.(error := Some(BadArchive(InHead(a + b, |a|).error)))
  {
    hide ExtractAt, ParseItem, Looked, ItemAt;
    TwoStretches(a, b, Looked(a + b));
    HeadCut(a, b);
    StopsAtOnce(q, st, [a, b]);
  }

  lemma StopsAtOnce(q: Request, st: State, ss: seq<Bytes>)
    requires ss != []
    ensures ItemAt(ss).Err? ==> ExtractAt(q, st, ss) == st.(error := Some(BadArchive(ItemAt(ss).error)))
  {
    hide ItemAt, Step, Taken, Drained;
  }

  lemma HeadCut(a: Bytes, b: Bytes)
    requires b != [] && |a| < Looked(a + b) && ParseItem(a + b).Ok?
    ensures InHead(a + b, |a|).Broken? ==> ItemAt([a, b]) == Err(InHead(a + b, |a|).error)
  {
    hide ItemAt, ParseItem, ParseHead;
    var s := a + b;
    HeadHasMagic(s);
    assert s[..|a|] == a;
    if |a| < 6 {
      MagicCut(a, b);
    } else if |a| < 6 + HEADER_SIZE {
      assert Front(s, 6) == a[..6];
      HeaderCut(a, b);
    } else if InHead(s, |a|).Broken? {
      NameCut(a, b);
    }
  }

  lemma MagicCut(a: Bytes, b: Bytes)
    requires |a| < 6
    ensures ItemAt([a, b]) == Err(if MAGIC[..4] <= a then UnsupportedFormat else NotCpio)
  {
    hide ParseHeader;
    assert ReadFrom([a, b], Some(6)).data == a;
  }

  lemma HeaderCut(a: Bytes, b: Bytes)
    requires 6 <= |a| < 6 + HEADER_SIZE && a[..6] == MAGIC
    ensures ItemAt([a, b]) == Err(ShortHeader)
  {
    hide ParseHeader;
    var magic := ReadFrom([a, b], Some(6));
    assert magic.data == a[..6] == MAGIC;
    assert magic.left[0] == a[6..];
  }

  lemma NameCut(a: Bytes, b: Bytes)
    requires |a| >= 6 + HEADER_SIZE && ParseHead(a + b).Ok? && |a| < 6 + HEADER_SIZE + ParseHead(a + b).value.namesize
    requires |a| == 6 + HEADER_SIZE || (a + b)[|a| - 1] != 0
    ensures ItemAt([a, b]) == Err(UnterminatedName)
  {
    hide ParseHead, HeadAt;
    TwoStretches(a, b, 6);
    HeadThenCut([a, b]);
    var left := [a[6 + HEADER_SIZE..]] + [b];
    assert [a, b][1..] == [b];
    assert (a + b)[|a| - 1] == a[|a| - 1];
    var name := ReadFrom(left, Some(ParseHead(a + b).value.namesize));
    assert name.data == a[6 + HEADER_SIZE..];
  }

  /** The contents begin with `c`, which ends where the cut is. */
  lemma CutContents(q: Request, st: State, c: Bytes, b: Bytes, name: Path, info: CpioInfo, size: nat)
    requires b != [] && |c| < size
    requires !ContentsPass(FetchFor(q, st.table, Entry(name, info, [])), [c, b], size)
    ensures var f := FetchFor(q, st.table, Entry(name, info, []));
      var (e, left) := Taken(q, st.table, name, info, Window([c, b], size));
      if f == Nothing then Drained(left) == [b]
      else e.data == c && Concat(Drained(left)) == Back(b, size - |c|) && AllInReach(Drained(left))
  {
    hide View, Exhaust, Uncut, AllInReach;
    PassesTwo(c, b, size, DRAIN_SIZE);
    PassesTwo(c, b, size, COPY_BUFSIZE);
    hide Passes;
    match FetchFor(q, st.table, Entry(name, info, [])) {
      case Nothing => ExhaustStopsAt(c, b, size, DRAIN_SIZE);
      case Once =>
        OnceStopsAt(c, b, size);
        DrainedWhole(b, size - |c|);
      case Copied =>
        ExhaustStopsAt(c, b, size, COPY_BUFSIZE);
        DrainedWhole(b, size - |c|);
    }
  }

  lemma ContentsPassTwo(f: Fetch, c: Bytes, b: Bytes, size: nat)
    requires b != []
    ensures ContentsPass(f, [c, b], size) <==>
      size <= |c| || (f == Nothing && |c| % DRAIN_SIZE != 0) || (f == Copied && |c| % COPY_BUFSIZE != 0)
  {
    PassesTwo(c, b, size, DRAIN_SIZE);
    PassesTwo(c, b, size, COPY_BUFSIZE);
    TwoStretches(c, b, size);
    hide Passes, Uncut;
  }

  function Shorten(es: seq<Entry>, k: nat, n: nat): seq<Entry>
    requires k < |es| && n <= |es[k].data|
  {
    es[k := es[k].(data := es[k].data[..n])]
  }

  lemma TurnIs(q: Request, st: State, ss: seq<Bytes>, name: Path, info: CpioInfo, w: Window)
    requires ss != [] && w.Valid() && ItemAt(ss) == Ok(MemberAt(name, info, w))
    ensures var (e, left) := Taken(q, st.table, name, info, w);
      var st' := Step(q, st, e);
      TurnAt(q, st, ss) == Turned(st', if st'.error.Some? then None else Some(Drained(left)))
  {
    hide ItemAt, Taken, Step, Drained;
  }

  /** The cut is in the first member's contents, where it is noticed. */
  ghost predicate CutIn(q: Request, st: State, a: Bytes, b: Bytes, m: Item) {
    && b != [] && ParseItem(a + b) == Ok(m) && m.Member? && Looked(a + b) <= |a|
    && |a| - Looked(a + b) < m.size < |m.rest|
    && !ContentsPass(FetchFor(q, st.table, Entry(m.name, m.info, [])), [a[Looked(a + b)..], b], m.size)
  }

  /** The turn with that member: what it takes, and where the loop goes on. */
  lemma TurnWithCut(q: Request, st: State, a: Bytes, b: Bytes, m: Item)
    requires CutIn(q, st, a, b, m)
    ensures var c := a[Looked(a + b)..];
      var f := FetchFor(q, st.table, Entry(m.name, m.info, []));
      var turned := TurnAt(q, st, [a, b]);
      && c + b == m.rest
      && turned.st == Step(q, st, Entry(m.name, m.info, if f == Nothing then Front(m.rest, m.size) else c))
      && (turned.next.Some? <==> turned.st.error.None?)
      && (turned.next.Some? ==>
            if f == Nothing then turned.next.value == [b]
            else Concat(turned.next.value) == Back(m.rest, m.size) && AllInReach(turned.next.value))
  {
    var c := a[Looked(a + b)..];
    var w := Window([c, b], m.size);
    MemberWithCut(q, st, a, b, m);
    assert w.Valid();
    hide *;
    TurnIs(q, st, [a, b], m.name, m.info, w);
    CutContents(q, st, c, b, m.name, m.info, m.size);
    BackOfSum(c, b, m.size);
    if FetchFor(q, st.table, Entry(m.name, m.info, [])) == Nothing {
      NothingTaken(q, st, m.name, m.info, w, Front(m.rest, m.size));
    } else {
      TakenIs(q, st, m.name, m.info, w);
    }
  }

  lemma TakenIs(q: Request, st: State, name: Path, info: CpioInfo, w: Window)
    requires w.Valid()
    ensures var e := Taken(q, st.table, name, info, w).0; e == Entry(name, info, e.data)
  {
  }

  lemma MemberWithCut(q: Request, st: State, a: Bytes, b: Bytes, m: Item)
    requires CutIn(q, st, a, b, m)
    ensures var c := a[Looked(a + b)..];
      && c + b == m.rest && |c| < m.size && b != []
      && ItemAt([a, b]) == Ok(MemberAt(m.name, m.info, Window([c, b], m.size)))
      && !ContentsPass(FetchFor(q, st.table, Entry(m.name, m.info, [])), [c, b], m.size)
  {
    hide ParseItem, Looked, ItemAt, ContentsPass, Concat, AllInReach, After, FetchFor;
    TwoStretches(a, b, Looked(a + b));
    ItemInFirst([a, b]);
    TwoStretches(a[Looked(a + b)..], b, 0);
  }

  lemma BackOfSum(c: Bytes, b: Bytes, n: nat)
    requires |c| <= n
    ensures Back(c + b, n) == Back(b, n - |c|)
  {
  }

  lemma NothingTaken(q: Request, st: State, name: Path, info: CpioInfo, w: Window, data: Bytes)
    requires w.Valid() && FetchFor(q, st.table, Entry(name, info, [])) == Nothing
    ensures Step(q, st, Taken(q, st.table, name, info, w).0) == Step(q, st, Entry(name, info, data))
  {
    hide Step, FetchFor;
    UnreadIsIgnored(q, st, Entry(name, info, []), data);
  }

  // ----- What the whole extraction comes to -----

  /** The damage is what happens. */
  ghost predicate Happens(q: Request, st: State, a: Bytes, b: Bytes, d: Damage) {
    var archive := ParseArchive(a + b);
    var end := ExtractAt(q, st, [a, b]);
    match d
    case Harmless => end == Outcome(q, st, archive)
    case Shortened(k, n) =>
      && k < |archive.entries| && n < |archive.entries[k].data|
      && end == RunFrom(q, st, Shorten(archive.entries, k, n))
    case Broken(k, e) =>
      && k <= |archive.entries|
      && var before := RunFrom(q, st, archive.entries[..k]);
      && before.error.None? && end == before.(error := Some(BadArchive(e)))
    case Misled => true
  }

  lemma RunCons(q: Request, st: State, e: Entry, es: seq<Entry>)
    ensures RunFrom(q, st, [e] + es) == RunFrom(q, Step(q, st, e), es)
  {
    assert ([e] + es)[1..] == es;
  }

  lemma RunNothing(q: Request, st: State)
    ensures RunFrom(q, st, []) == st
  {
  }

  /** The turn with a whole member in front, and what is said of the rest. */
  lemma HappensLater(q: Request, st: State, a: Bytes, b: Bytes, a': Bytes, st': State, e: Entry, d: Damage)
    requires var archive, rest := ParseArchive(a + b), ParseArchive(a' + b);
      && archive == Archive([e] + rest.entries, rest.end) && rest.end.Ok? && st' == Step(q, st, e) && st'.error.None?
    requires ExtractAt(q, st, [a, b]) == ExtractAt(q, st', [a', b]) && Happens(q, st', a', b, d)
    ensures Happens(q, st, a, b, OneLater(d))
  {
    hide ParseArchive, ExtractAt, Step;
    var es := ParseArchive(a' + b).entries;
    RunCons(q, st, e, es);
    match d {
      case Shortened(k, n) =>
        RunCons(q, st, e, Shorten(es, k, n));
        assert Shorten([e] + es, k + 1, n) == [e] + Shorten(es, k, n);
      case Broken(k, _) =>
        RunCons(q, st, e, es[..k]);
        assert ([e] + es)[..k + 1] == [e] + es[..k];
      case _ =>
    }
  }

  lemma TurnEnds(q: Request, st: State, ss: seq<Bytes>)
    requires ss != []
    ensures var turned := TurnAt(q, st, ss);
      ExtractAt(q, st, ss) == if turned.next.None? then turned.st else ExtractAt(q, turned.st, turned.next.value)
  {
    hide TurnAt;
  }

  /** The archive's first member, and the rest. */
  lemma ArchiveIs(s: Bytes, m: Item)
    requires ParseItem(s) == Ok(m) && m.Member? && ParseArchive(s).end.Ok?
    ensures m.size < |m.rest| < |s|
    ensures var more := ParseArchive(Back(m.rest, m.size));
      ParseArchive(s) == Archive([Entry(m.name, m.info, Front(m.rest, m.size))] + more.entries, more.end)
  {
    UnfoldMember(s, m.name, m.info, m.size, m.rest);
  }

  /** Contents that are taken come short, and nothing else changes. */
  lemma ShortenedHere(q: Request, st: State, a: Bytes, b: Bytes, m: Item)
    requires CutIn(q, st, a, b, m) && ParseArchive(a + b).end.Ok? && st.error.None?
    requires FetchFor(q, st.table, Entry(m.name, m.info, [])) != Nothing
    ensures Happens(q, st, a, b, Shortened(0, |a| - Looked(a + b)))
  {
    var c := a[Looked(a + b)..];
    TurnWithCut(q, st, a, b, m);
    ArchiveIs(a + b, m);
    var st' := Step(q, st, Entry(m.name, m.info, c));
    var more := ParseArchive(Back(m.rest, m.size));
    var es := ParseArchive(a + b).entries;
    assert |c| == |a| - Looked(a + b) && |c| < m.size && m.size <= |m.rest| && b != [];
    hide *;
    FrontOfRest(c, b, m.size);
    ShortenFirst(Entry(m.name, m.info, Front(m.rest, m.size)), more.entries, |c|);
    RunCons(q, st, Entry(m.name, m.info, c), more.entries);
    TurnEnds(q, st, [a, b]);
    if st'.error.Some? {
      RunStuck(q, st', more.entries);
    } else {
      var next := TurnAt(q, st, [a, b]).next.value;
      NoCuts(q, st', next);
      ExtractThrough(q, st', next);
      OutcomeOfEnded(q, st', more);
    }
    ShortHappens(q, st, a, b, 0, |c|);
  }

  lemma ShortenFirst(e: Entry, es: seq<Entry>, n: nat)
    requires n <= |e.data|
    ensures Shorten([e] + es, 0, n) == [e.(data := e.data[..n])] + es
  {
  }

  lemma OutcomeOfEnded(q: Request, st: State, archive: Archive)
    requires archive.end.Ok?
    ensures Outcome(q, st, archive) == RunFrom(q, st, archive.entries)
  {
    hide RunFrom;
  }

  lemma ShortHappens(q: Request, st: State, a: Bytes, b: Bytes, k: nat, n: nat)
    requires k < |ParseArchive(a + b).entries| && n < |ParseArchive(a + b).entries[k].data|
    requires ExtractAt(q, st, [a, b]) == RunFrom(q, st, Shorten(ParseArchive(a + b).entries, k, n))
    ensures Happens(q, st, a, b, Shortened(k, n))
  {
    hide ParseArchive, ExtractAt, RunFrom, Shorten;
  }

  lemma FrontOfRest(c: Bytes, b: Bytes, size: nat)
    requires |c| < size <= |c + b|
    ensures Front(c + b, size)[..|c|] == c && |c| < |Front(c + b, size)|
  {
  }

  /** Behind the cut in skipped contents the next header is looked for. */
  lemma BrokenHere(q: Request, st: State, a: Bytes, b: Bytes, m: Item)
    requires CutIn(q, st, a, b, m) && ParseArchive(a + b).end.Ok? && st.error.None?
    requires FetchFor(q, st.table, Entry(m.name, m.info, [])) == Nothing
    requires Step(q, st, Entry(m.name, m.info, Front(m.rest, m.size))).error.None?
    ensures b == Back(m.rest, |a| - Looked(a + b))
    ensures Happens(q, st, a, b, InSkipped(b))
  {
    var c := a[Looked(a + b)..];
    TurnWithCut(q, st, a, b, m);
    ArchiveIs(a + b, m);
    BehindFirst(c, b);
    var e := Entry(m.name, m.info, Front(m.rest, m.size));
    var es := ParseArchive(a + b).entries;
    var st' := Step(q, st, e);
    assert |c| == |a| - Looked(a + b);
    hide *;
    if Front(b, 6) == MAGIC {
      NothingIsSaid(q, st, a, b);
    } else {
      TurnEnds(q, st, [a, b]);
      NotAHeader(b);
      StopsAtOnce(q, st', [b]);
      RunFirst(q, st, e, es[1..]);
      assert es == [e] + es[1..];
      BrokenHappens(q, st, a, b);
    }
  }

  lemma BehindFirst(c: Bytes, b: Bytes)
    ensures Back(c + b, |c|) == b
  {
  }

  lemma RunFirst(q: Request, st: State, e: Entry, es: seq<Entry>)
    ensures RunFrom(q, st, ([e] + es)[..1]) == Step(q, st, e)
  {
    assert ([e] + es)[..1] == [e] + [];
    RunCons(q, st, e, []);
    RunNothing(q, Step(q, st, e));
  }

  lemma NothingIsSaid(q: Request, st: State, a: Bytes, b: Bytes)
    requires Front(b, 6) == MAGIC
    ensures Happens(q, st, a, b, InSkipped(b))
  {
  }

  lemma BrokenHappens(q: Request, st: State, a: Bytes, b: Bytes)
    requires Front(b, 6) != MAGIC && ParseArchive(a + b).entries != []
    requires var before := RunFrom(q, st, ParseArchive(a + b).entries[..1]);
      && before.error.None?
      && ExtractAt(q, st, [a, b]) == before.(error := Some(BadArchive(
           if MAGIC[..4] <= Front(b, 6) then UnsupportedFormat else NotCpio)))
    ensures Happens(q, st, a, b, InSkipped(b))
  {
    hide ParseArchive, ExtractAt, RunFrom;
  }

  lemma NotAHeader(b: Bytes)
    requires Front(b, 6) != MAGIC
    ensures ItemAt([b]) == Err(if MAGIC[..4] <= Front(b, 6) then UnsupportedFormat else NotCpio)
  {
    hide ParseHeader;
    assert ReadFrom([b], Some(6)).data == Front(b, 6);
  }

  /** A member that lies whole in front of the cut. */
  lemma WholeHere(q: Request, st: State, a: Bytes, b: Bytes, m: Item)
    requires b != [] && ParseItem(a + b) == Ok(m) && m.Member? && ParseArchive(a + b).end.Ok? && st.error.None?
    requires Looked(a + b) + m.size <= |a|
    ensures var st' := Step(q, st, Entry(m.name, m.info, Front(m.rest, m.size)));
      var a' := a[Looked(a + b) + m.size..];
      && a' + b == Back(m.rest, m.size)
      && ContentsPass(FetchFor(q, st.table, Entry(m.name, m.info, [])), After([a, b], Looked(a + b)), m.size)
      && After(After([a, b], Looked(a + b)), m.size) == [a', b]
      && ExtractAt(q, st, [a, b]) == if st'.error.Some? then st' else ExtractAt(q, st', [a', b])
  {
    hide *;
    var looked := Looked(a + b);
    var here := a[looked..];
    var f := FetchFor(q, st.table, Entry(m.name, m.info, []));
    ArchiveIs(a + b, m);
    assert here[m.size..] == a[looked + m.size..];
    TwoStretches(a, b, looked);
    TwoStretches(here, b, m.size);
    ContentsPassTwo(f, here, b, m.size);
    LookedBehind([a, b]);
    TurnWhole(q, st, [a, b]);
    TurnEnds(q, st, [a, b]);
  }

  lemma DamageAfter(q: Request, st: State, a: Bytes, b: Bytes, m: Item)
    requires ParseItem(a + b) == Ok(m) && m.Member? && Looked(a + b) + m.size <= |a|
    ensures var st' := Step(q, st, Entry(m.name, m.info, Front(m.rest, m.size)));
      DamageOf(q, st, a, b)
      == if st'.error.Some? then Harmless else OneLater(DamageOf(q, st', a[Looked(a + b) + m.size..], b))
  {
    hide ParseItem, Looked, Step, FetchFor;
  }

  lemma DamageWithin(q: Request, st: State, a: Bytes, b: Bytes, m: Item)
    requires ParseItem(a + b) == Ok(m) && m.Member? && Looked(a + b) <= |a| < Looked(a + b) + m.size
    ensures var c := |a| - Looked(a + b);
      var st' := Step(q, st, Entry(m.name, m.info, Front(m.rest, m.size)));
      DamageOf(q, st, a, b)
      == match FetchFor(q, st.table, Entry(m.name, m.info, []))
         case Once => Shortened(0, c)
         case Copied => if c % COPY_BUFSIZE == 0 then Shortened(0, c) else Harmless
         case Nothing => if c % DRAIN_SIZE != 0 || st'.error.Some? then Harmless else InSkipped(Back(m.rest, c))
  {
    hide ParseItem, Looked, Step, FetchFor, InSkipped, Front, Back;
  }

  lemma DamageIn(q: Request, st: State, a: Bytes, b: Bytes, m: Item)
    requires ParseItem(a + b) == Ok(m) && m.Member? && Looked(a + b) <= |a| < Looked(a + b) + m.size && b != []
    ensures var f := FetchFor(q, st.table, Entry(m.name, m.info, []));
      var c := |a| - Looked(a + b);
      var st' := Step(q, st, Entry(m.name, m.info, Front(m.rest, m.size)));
      DamageOf(q, st, a, b)
      == if ContentsPass(f, [a[Looked(a + b)..], b], m.size) then Harmless
         else if f != Nothing then Shortened(0, c)
         else if st'.error.Some? then Harmless
         else InSkipped(Back(m.rest, c))
  {
    hide *;
    DamageWithin(q, st, a, b, m);
    ContentsPassTwo(FetchFor(q, st.table, Entry(m.name, m.info, [])), a[Looked(a + b)..], b, m.size);
  }

  lemma SmoothIs(q: Request, st: State, ss: seq<Bytes>)
    requires ss != []
    ensures Smooth(q, st, ss) ==> Uncut(ss, Looked(Concat(ss)))
    ensures ParseItem(Concat(ss)).Ok? && ParseItem(Concat(ss)).value.Trailer? && Uncut(ss, Looked(Concat(ss))) ==>
      Smooth(q, st, ss)
    ensures ParseItem(Concat(ss)).Ok? && ParseItem(Concat(ss)).value.Member? ==>
      var m := ParseItem(Concat(ss)).value;
      var here := After(ss, Looked(Concat(ss)));
      var st' := Step(q, st, Entry(m.name, m.info, Front(m.rest, m.size)));
      Smooth(q, st, ss) <==>
        Uncut(ss, Looked(Concat(ss))) && ContentsPass(FetchFor(q, st.table, Entry(m.name, m.info, [])), here, m.size)
        && (st'.error.None? ==> Smooth(q, st', After(here, m.size)))
  {
    hide ParseItem, Looked, Concat, Uncut, Step, ContentsPass, FetchFor, After;
  }

  lemma KindsOfDamage(d: Damage, b: Bytes)
    ensures OneLater(d).Harmless? <==> d.Harmless?
    ensures !InSkipped(b).Harmless?
  {
  }

  /**
    The damage of a cut is what happens; and unless the extraction fails anyway, it is
    harmless exactly when the reads do not notice it.
  */
  lemma {:induction false} OneCut(q: Request, st: State, a: Bytes, b: Bytes)
    requires b != [] && ParseArchive(a + b).end.Ok? && st.error.None?
    ensures Happens(q, st, a, b, DamageOf(q, st, a, b))
    ensures Smooth(q, st, [a, b]) ==> DamageOf(q, st, a, b).Harmless?
    ensures DamageOf(q, st, a, b).Harmless? && Outcome(q, st, ParseArchive(a + b)).error.None? ==> Smooth(q, st, [a, b])
    decreases |a + b|
  {
    var s := a + b;
    EndedStarts(s);
    if |a| < Looked(s) {
      CutInHead(q, st, a, b);
      hide ParseArchive, ExtractAt;
      RunNothing(q, st);
      assert ParseArchive(s).entries[..0] == [];
    } else if ParseItem(s).value.Trailer? {
      TrailerHere(q, st, a, b);
    } else {
      OneCutInMember(q, st, a, b, ParseItem(s).value);
    }
  }

  lemma TrailerHere(q: Request, st: State, a: Bytes, b: Bytes)
    requires ParseItem(a + b).Ok? && ParseItem(a + b).value.Trailer? && Looked(a + b) <= |a| && st.error.None?
    ensures DamageOf(q, st, a, b) == Harmless && Happens(q, st, a, b, Harmless) && Smooth(q, st, [a, b])
  {
    hide ParseItem, ParseArchive, Looked, Concat, Uncut, ExtractAt, Outcome;
    TwoStretches(a, b, Looked(a + b));
    SmoothIs(q, st, [a, b]);
    ExtractThrough(q, st, [a, b]);
  }

  lemma {:induction false} OneCutInMember(q: Request, st: State, a: Bytes, b: Bytes, m: Item)
    requires b != [] && ParseArchive(a + b).end.Ok? && st.error.None?
    requires ParseItem(a + b) == Ok(m) && m.Member? && Looked(a + b) <= |a|
    ensures Happens(q, st, a, b, DamageOf(q, st, a, b))
    ensures Smooth(q, st, [a, b]) ==> DamageOf(q, st, a, b).Harmless?
    ensures DamageOf(q, st, a, b).Harmless? && Outcome(q, st, ParseArchive(a + b)).error.None? ==> Smooth(q, st, [a, b])
    decreases |a + b|, 0
  {
    hide *;
    var s, looked := a + b, Looked(a + b);
    var f := FetchFor(q, st.table, Entry(m.name, m.info, []));
    var st' := Step(q, st, Entry(m.name, m.info, Front(m.rest, m.size)));
    ArchiveIs(s, m);
    TwoStretches(a, b, looked);
    SmoothIs(q, st, [a, b]);
    OutcomeUnfolds(q, st, s);
    KindsOfDamage(DamageOf(q, st', if looked + m.size <= |a| then a[looked + m.size..] else a, b), b);
    if looked + m.size <= |a| {
      WholeHere(q, st, a, b, m);
      DamageAfter(q, st, a, b, m);
      if st'.error.Some? {
        NoHarm(q, st, a, b);
      } else {
        var a' := a[looked + m.size..];
        OneCut(q, st', a', b);
        HappensLater(q, st, a, b, a', st', Entry(m.name, m.info, Front(m.rest, m.size)), DamageOf(q, st', a', b));
      }
    } else {
      DamageIn(q, st, a, b, m);
      if ContentsPass(f, [a[looked..], b], m.size) {
        PassesHere(q, st, a, b, m);
      } else if f != Nothing {
        CutIsIn(q, st, a, b, m);
        ShortenedHere(q, st, a, b, m);
      } else if st'.error.None? {
        CutIsIn(q, st, a, b, m);
        BrokenHere(q, st, a, b, m);
      } else {
        CutIsIn(q, st, a, b, m);
        StepFails(q, st, a, b, m);
      }
    }
  }

  /** A member that cannot be created ends the loop before its contents are skipped. */
  lemma StepFails(q: Request, st: State, a: Bytes, b: Bytes, m: Item)
    requires CutIn(q, st, a, b, m) && ParseArchive(a + b).end.Ok?
    requires FetchFor(q, st.table, Entry(m.name, m.info, [])) == Nothing
    requires Step(q, st, Entry(m.name, m.info, Front(m.rest, m.size))).error.Some?
    ensures Happens(q, st, a, b, Harmless) && Outcome(q, st, ParseArchive(a + b)).error.Some?
  {
    assert ParseItem(a + b) == Ok(m) && m.Member?;
    hide *;
    TurnWithCut(q, st, a, b, m);
    TurnEnds(q, st, [a, b]);
    OutcomeUnfolds(q, st, a + b);
    NoHarm(q, st, a, b);
  }

  lemma NoHarm(q: Request, st: State, a: Bytes, b: Bytes)
    requires ExtractAt(q, st, [a, b]) == Outcome(q, st, ParseArchive(a + b))
    ensures Happens(q, st, a, b, Harmless)
  {
    hide ExtractAt, Outcome, ParseArchive;
  }

  lemma CutIsIn(q: Request, st: State, a: Bytes, b: Bytes, m: Item)
    requires b != [] && ParseItem(a + b) == Ok(m) && m.Member? && Looked(a + b) <= |a| < Looked(a + b) + m.size
    requires m.size < |m.rest|
    requires !ContentsPass(FetchFor(q, st.table, Entry(m.name, m.info, [])), [a[Looked(a + b)..], b], m.size)
    ensures CutIn(q, st, a, b, m)
  {
    hide ParseItem, Looked, ContentsPass, FetchFor;
  }

  /** A cut that the reads get past, in contents that are taken or skipped. */
  lemma PassesHere(q: Request, st: State, a: Bytes, b: Bytes, m: Item)
    requires b != [] && ParseArchive(a + b).end.Ok? && st.error.None?
    requires ParseItem(a + b) == Ok(m) && m.Member? && Looked(a + b) <= |a| < Looked(a + b) + m.size
    requires ContentsPass(FetchFor(q, st.table, Entry(m.name, m.info, [])), [a[Looked(a + b)..], b], m.size)
    ensures Happens(q, st, a, b, Harmless) && Smooth(q, st, [a, b])
  {
    var c := a[Looked(a + b)..];
    var st' := Step(q, st, Entry(m.name, m.info, Front(m.rest, m.size)));
    TwoStretches(a, b, Looked(a + b));
    ArchiveIs(a + b, m);
    BehindIsInReach(c, b, m.size);
    hide ParseItem, ParseArchive, Looked, Concat, Uncut, ExtractAt, Outcome, Step, FetchFor, ContentsPass, After,
      AllInReach;
    SmoothIs(q, st, [a, b]);
    NoCuts(q, st', After([c, b], m.size));
    ExtractThrough(q, st, [a, b]);
  }

  lemma BehindIsInReach(c: Bytes, b: Bytes, n: nat)
    requires |c| < n
    ensures AllInReach(After([c, b], n))
  {
    assert [c, b][1..] == [b];
    OneStretch(b);
  }
}
