/** The extraction from a stream in stretches: the bytes the loop body's own reads get of each member. */
module StreamExtraction {
  import opened ByteStrings
  import opened Cpio
  import opened CpioStream
  import opened Streams
  import opened UnpackSdk
  import opened Wrappers

  /** The buffer size of `shutil.copyfileobj`. */
  const COPY_BUFSIZE: nat := 65536

  /** How the loop body reads a member: not at all, in one read, or a buffer at a time. */
  datatype Fetch = Nothing | Once | Copied

  function FetchFor(q: Request, table: Table, e: Entry): Fetch {
    if e.name == [] || (IsLinked(e) && KeyOf(e) in table) then Nothing
    else if !q.Matches(e) then (if IsLinked(e) then Once else Nothing)
    else if IsDir(e) then Nothing
    else if IsLnk(e) then Once
    else if IsReg(e) then Copied
    else Nothing
  }

  function Fetched(f: Fetch, w: Window): (v: Viewing)
    requires w.Valid()
    ensures v.w.Valid()
  {
    match f
    case Nothing => Viewing([], w)
    case Once => View(w, None)
    case Copied => Exhaust(w, COPY_BUFSIZE)
  }

  /** The member with the bytes that are read of it. */
  function Taken(q: Request, table: Table, name: Path, info: CpioInfo, w: Window): (r: (Entry, Window))
    requires w.Valid()
    ensures r.1.Valid()
  {
    var v := Fetched(FetchFor(q, table, Entry(name, info, [])), w);
    (Entry(name, info, v.data), v.w)
  }

  lemma TakenShrinks(ss: seq<Bytes>, q: Request, table: Table)
    requires ss != [] && ItemAt(ss).Ok? && ItemAt(ss).value.MemberAt?
    ensures var m := ItemAt(ss).value;
      |Concat(Drained(Taken(q, table, m.name, m.info, m.contents).1))| < |Concat(ss)|
  {
    hide Concat, ItemAt, View, Exhaust;
    var m := ItemAt(ss).value;
    var f := FetchFor(q, table, Entry(m.name, m.info, []));
    ItemConsumes(ss);
    ViewConserves(m.contents, None);
    ExhaustConserves(m.contents, COPY_BUFSIZE);
    ExhaustConserves(Fetched(f, m.contents).w, DRAIN_SIZE);
  }

  /** What one turn of the loop leaves, and where the next one starts, if there is one. */
  datatype Turned = Turned(st: State, next: Option<seq<Bytes>>)

  function TurnAt(q: Request, st: State, ss: seq<Bytes>): (t: Turned)
    requires ss != []
    ensures t.next.Some? ==> t.next.value != [] && t.st.error.None?
  {
    match ItemAt(ss)
    case Err(e) => Turned(st.(error := Some(BadArchive(e))), None)
    case Ok(EndOfArchive) => Turned(st, None)
    case Ok(MemberAt(name, info, w)) =>
      var taken := Taken(q, st.table, name, info, w);
      var st' := Step(q, st, taken.0);
      Turned(st', if st'.error.Some? then None else Some(Drained(taken.1)))
  }

  lemma TurnShrinks(q: Request, st: State, ss: seq<Bytes>)
    requires ss != [] && TurnAt(q, st, ss).next.Some?
    ensures |Concat(TurnAt(q, st, ss).next.value)| < |Concat(ss)|
  {
    hide Concat, ItemAt, Taken, Step;
    TakenShrinks(ss, q, st.table);
  }

  /** The loop of `extract_payload`, from where the stream stands. */
  function ExtractAt(q: Request, st: State, ss: seq<Bytes>): State
    requires ss != []
    decreases |Concat(ss)|
  {
    var turned := TurnAt(q, st, ss);
    match turned.next
    case None => turned.st
    case Some(next) =>
      TurnShrinks(q, st, ss);
      ExtractAt(q, turned.st, next)
  }

  // ----- Runs from a state -----

  function RunFrom(q: Request, st: State, es: seq<Entry>): State
    decreases |es|
  {
    if es == [] then st else RunFrom(q, Step(q, st, es[0]), es[1..])
  }

  lemma {:induction false} RunOnFrom(q: Request, fs: FileSystem, done: seq<Entry>, es: seq<Entry>)
    ensures RunFrom(q, Run(q, fs, done), es) == Run(q, fs, done + es)
    decreases |es|
  {
    hide Step;
    if es == [] {
      assert done + es == done;
    } else {
      assert (done + [es[0]])[..|done|] == done;
      RunOnFrom(q, fs, done + [es[0]], es[1..]);
      assert done + [es[0]] + es[1..] == done + es;
    }
  }

  /** After an error nothing more happens. */
  lemma {:induction false} RunStuck(q: Request, st: State, es: seq<Entry>)
    requires st.error.Some?
    ensures RunFrom(q, st, es) == st
    decreases |es|
  {
    if es != [] {
      RunStuck(q, st, es[1..]);
    }
  }

  /** Bytes that are not read do not matter. */
  lemma UnreadIsIgnored(q: Request, st: State, e: Entry, data: Bytes)
    requires FetchFor(q, st.table, e) == Nothing
    ensures Step(q, st, e) == Step(q, st, e.(data := data))
  {
    hide Join, LStrip, Dirname, FileSystem.MakeDirs, FileType;
  }

  // ----- Out of reach -----

  /** An empty chunk inside a header, and everything behind it: the header is too short, and nothing is extracted. */
  lemma HeaderCutShort(q: Request, st: State, s: Bytes, k: nat)
    requires 6 <= k < 6 + HEADER_SIZE <= |s| && MAGIC <= s
    ensures Concat(Opened([s[..k], [], s[k..]])) == s
    ensures ItemAt(Opened([s[..k], [], s[k..]])) == Err(ShortHeader)
    ensures forall requests :: Sight(Opened([s[..k], [], s[k..]]), requests, 0) == Seen([], Some(ShortHeader))
    ensures ExtractAt(q, st, Opened([s[..k], [], s[k..]])) == st.(error := Some(BadArchive(ShortHeader)))
  {
    CutByEmpty(s[..k], s[k..]);
    assert s[..k] + s[k..] == s;
    var ss := Opened([s[..k], [], s[k..]]);
    assert ss[0][..6] == MAGIC;
    assert ([ss[0][6..]] + ss[1..])[0] == ss[0][6..];
  }

  lemma CutByEmpty(a: Bytes, b: Bytes)
    requires b != []
    ensures Opened([a, [], b]) == [a, b] && Concat(Opened([a, [], b])) == a + b
  {
    var chunks, two: seq<Bytes>, one := [a, [], b], [[], b], [b];
    assert chunks[1..] == two && two[1..] == one && one[1..] == [];
    assert [] + b == b;
    assert Stretches(b, []) == [b];
    assert Stretches([], one) == [b];
    assert Stretches(a, two) == [a] + Stretches([], one);
    OneStretch(b);
    assert Concat([a, b]) == a + Concat([b]);
  }
}
