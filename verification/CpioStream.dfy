/**
  cpio archives read from a stream in stretches: what the reads of `uncpio` and of its
  consumer give on any stream, and on which streams that is the archive.
*/
module CpioStream {
  import opened ByteStrings
  import opened Cpio
  import opened Streams
  import opened Wrappers

  // ----- Items -----

  datatype StreamItem = EndOfArchive | MemberAt(name: Bytes, info: CpioInfo, contents: Window)

  /** The fixed part of a header, from two reads, and what they leave. */
  function HeadAt(ss: seq<Bytes>): (r: Result<(Header, seq<Bytes>), Error>)
    requires ss != []
    ensures r.Ok? ==> r.value.1 != []
  {
    var magic := ReadFrom(ss, Some(6));
    if magic.data != MAGIC then Err(if MAGIC[..4] <= magic.data then UnsupportedFormat else NotCpio)
    else
      var header := ReadFrom(magic.left, Some(HEADER_SIZE));
      if |header.data| != HEADER_SIZE then Err(ShortHeader)
      else
        match ParseHeader(header.data)
        case Err(e) => Err(e)
        case Ok(h) => Ok((h, header.left))
  }

  /** The item that starts where the stream stands. */
  function ItemAt(ss: seq<Bytes>): (r: Result<StreamItem, Error>)
    requires ss != []
    ensures r.Ok? && r.value.MemberAt? ==> r.value.contents.Valid()
  {
    match HeadAt(ss)
    case Err(e) => Err(e)
    case Ok((h, left)) =>
      var name := ReadFrom(left, Some(h.namesize));
      match NameItem(h, name.data, [])
      case Err(e) => Err(e)
      case Ok(Trailer(_)) => Ok(EndOfArchive)
      case Ok(Member(clean, info, size, _)) => Ok(MemberAt(clean, info, Window(name.left, size)))
  }

  /** Every item takes bytes from the stream, so the loop over them ends. */
  lemma ItemConsumes(ss: seq<Bytes>)
    requires ss != [] && ItemAt(ss).Ok? && ItemAt(ss).value.MemberAt?
    ensures |Concat(ItemAt(ss).value.contents.ss)| < |Concat(ss)|
  {
    hide ReadFrom, ParseHeader, NameItem, Concat;
    var magic := ReadFrom(ss, Some(6));
    var header := ReadFrom(magic.left, Some(HEADER_SIZE));
    ReadConserves(ss, Some(6));
    ReadConserves(magic.left, Some(HEADER_SIZE));
    ReadConserves(header.left, Some(ParseHeader(header.data).value.namesize));
  }

  // ----- Contents -----

  /** The reads of a consumer, one after another. */
  function ViewAll(w: Window, requests: seq<Option<nat>>): (v: Viewing)
    requires w.Valid()
    ensures v.w.Valid()
  {
    if requests == [] then Viewing([], w)
    else
      var before := ViewAll(w, requests[..|requests| - 1]);
      var v := View(before.w, requests[|requests| - 1]);
      Viewing(before.data + v.data, v.w)
  }

  /** Reads of `size` bytes until nothing comes. */
  function Exhaust(w: Window, size: nat): (v: Viewing)
    requires w.Valid() && size > 0
    ensures v.w.Valid()
    decreases w.limit
  {
    var first := View(w, Some(size));
    if first.data == [] then first
    else
      var rest := Exhaust(first.w, size);
      Viewing(first.data + rest.data, rest.w)
  }

  /** The buffer size of the loop that passes over what the consumer left. */
  const DRAIN_SIZE: nat := 4096

  /** Where the next header is looked for. */
  function Drained(w: Window): (ss: seq<Bytes>)
    requires w.Valid()
    ensures ss != []
  {
    Exhaust(w, DRAIN_SIZE).w.ss
  }

  lemma ViewConserves(w: Window, length: Option<nat>)
    requires w.Valid()
    ensures var v := View(w, length); v.data + Concat(v.w.ss) == Concat(w.ss)
  {
    hide Concat, ReadFrom;
    ReadConserves(w.ss, Some(if length.None? then w.limit else Min(length.value, w.limit)));
  }

  lemma {:induction false} ViewAllConserves(w: Window, requests: seq<Option<nat>>)
    requires w.Valid()
    ensures var v := ViewAll(w, requests); v.data + Concat(v.w.ss) == Concat(w.ss)
  {
    hide Concat, View;
    if requests == [] {
      assert [] + Concat(w.ss) == Concat(w.ss);
    } else {
      var before := ViewAll(w, requests[..|requests| - 1]);
      ViewAllConserves(w, requests[..|requests| - 1]);
      ViewConserves(before.w, requests[|requests| - 1]);
      var v := View(before.w, requests[|requests| - 1]);
      Assoc(before.data, v.data, Concat(v.w.ss));
    }
  }

  lemma {:induction false} ExhaustConserves(w: Window, size: nat)
    requires w.Valid() && size > 0
    ensures var v := Exhaust(w, size); v.data + Concat(v.w.ss) == Concat(w.ss)
    decreases w.limit
  {
    hide Concat, View;
    var first := View(w, Some(size));
    ViewConserves(w, Some(size));
    if first.data != [] {
      ExhaustConserves(first.w, size);
      var rest := Exhaust(first.w, size);
      Assoc(first.data, rest.data, Concat(rest.w.ss));
    }
  }

  // ----- What a consumer sees -----

  /** The members a consumer gets, with the bytes it asked for, and how the archive ended. */
  datatype Seen = Seen(entries: seq<Entry>, end: Option<Error>)

  lemma DrainedShrinks(ss: seq<Bytes>, requests: seq<Option<nat>>)
    requires ss != [] && ItemAt(ss).Ok? && ItemAt(ss).value.MemberAt?
    ensures |Concat(Drained(ViewAll(ItemAt(ss).value.contents, requests).w))| < |Concat(ss)|
  {
    hide Concat, ItemAt, ViewAll, Exhaust;
    var w := ItemAt(ss).value.contents;
    ItemConsumes(ss);
    ViewAllConserves(w, requests);
    ExhaustConserves(ViewAll(w, requests).w, DRAIN_SIZE);
  }

  /** What the consumer sees that makes `requests(k)` of the k-th member, from member `k` on. */
  function Sight(ss: seq<Bytes>, requests: nat -> seq<Option<nat>>, k: nat): Seen
    requires ss != []
    decreases |Concat(ss)|
  {
    match ItemAt(ss)
    case Err(e) => Seen([], Some(e))
    case Ok(EndOfArchive) => Seen([], None)
    case Ok(MemberAt(name, info, w)) =>
      var v := ViewAll(w, requests(k));
      DrainedShrinks(ss, requests(k));
      var tail := Sight(Drained(v.w), requests, k + 1);
      Seen([Entry(name, info, v.data)] + tail.entries, tail.end)
  }

  // ----- When that is the archive -----

  /** How many bytes of an archive are read, from its start through its trailer's name. */
  function Needed(s: Bytes): nat
    requires ParseArchive(s).end.Ok?
  {
    EndIsShorter(s);
    |s| - |ParseArchive(s).end.value|
  }

  lemma {:induction false} EndIsShorter(s: Bytes)
    requires ParseArchive(s).end.Ok?
    ensures |ParseArchive(s).end.value| <= |s|
    decreases |s|
  {
    hide ParseItem;
    match ParseItem(s) {
      case Ok(Trailer(rest)) => ItemShrinks(s);
      case Ok(Member(name, info, size, rest)) =>
        ItemShrinks(s);
        EndIsShorter(Back(rest, size));
    }
  }

  /** The archive lies in the first stretch, or nothing is out of reach. */
  predicate ArchiveInReach(ss: seq<Bytes>)
    requires ss != []
  {
    AllInReach(ss) || (ParseArchive(Concat(ss)).end.Ok? && Needed(Concat(ss)) <= |ss[0]|)
  }

  /** A read that stays in the first stretch, or on a stream that is all in reach, is a read of plain bytes. */
  lemma ReadInReach(ss: seq<Bytes>, n: nat)
    requires ss != [] && (AllInReach(ss) || n <= |ss[0]|)
    ensures var r := ReadFrom(ss, Some(n));
      && r.data == Front(Concat(ss), n) && Concat(r.left) == Back(Concat(ss), n)
      && (AllInReach(ss) ==> AllInReach(r.left))
      && (n <= |ss[0]| ==> |r.left[0]| == |ss[0]| - n)
  {
    ReadConserves(ss, Some(n));
    if AllInReach(ss) {
      ExactReads(ss, Some(n));
    } else {
      FrontOfFirst(ss, n);
    }
  }
}
