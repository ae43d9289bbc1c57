/** The `uncpio` generator: one member per `Next`, whatever the consumer read of the previous one. */
module CpioReader {
  import opened ByteStrings
  import opened Cpio
  import opened CpioReach
  import opened CpioStream
  import opened Streams
  import opened Wrappers

  /** What the generator yields: the member and a window on its contents. */
  datatype Yield = Yield(name: Bytes, info: CpioInfo, content: Take)

  class Uncpio {
    const fileobj: Pbzx
    // The window yielded last.
    var content: Take?

    constructor (fileobj: Pbzx)
      requires fileobj.Valid()
      ensures this.fileobj == fileobj && content == null
      ensures Valid() && Position() == fileobj.Ahead()
    {
      this.fileobj := fileobj;
      content := null;
    }

    /** The window is one on the stream. */
    ghost predicate Valid()
      reads this, fileobj, content
    {
      fileobj.Valid() && (content != null ==> content.fileobj == OnPbzx(fileobj))
    }

    ghost function Contents(): (w: Window)
      requires Valid() && content != null
      reads this, fileobj, content
      ensures w.Valid()
    {
      Window(fileobj.Ahead(), content.limit)
    }

    /** Where the next item is looked for: behind whatever is left of the last contents. */
    ghost function Position(): (ss: seq<Bytes>)
      requires Valid()
      reads this, fileobj, content
      ensures ss != []
    {
      if content == null then fileobj.Ahead() else Drained(Contents())
    }

    /** A read of the last window, by its consumer or by the generator. */
    method ReadContent(length: Option<nat>) returns (r: Bytes)
      requires Valid() && content != null
      modifies fileobj, content
      ensures Valid() && Viewing(r, Contents()) == View(old(Contents()), length)
    {
      r := content.Read(length);
    }

    /** The loop after the `yield`: read until nothing comes. */
    method Drain()
      requires Valid()
      modifies fileobj, content
      ensures Valid() && fileobj.Ahead() == old(Position())
    {
      hide View;
      if content != null {
        ghost var position := Position();
        while true
          invariant Valid() && Drained(Contents()) == position
          decreases content.limit
        {
          var r := ReadContent(Some(DRAIN_SIZE));
          if r == [] {
            break;
          }
        }
      }
    }

    method ReadHead() returns (r: Result<Header, Error>)
      requires fileobj.Valid()
      modifies fileobj
      ensures fileobj.Valid()
      ensures match HeadAt(old(fileobj.Ahead()))
        case Err(e) => r == Err(e)
        case Ok((h, left)) => r == Ok(h) && fileobj.Ahead() == left
    {
      hide ReadFrom, ParseHeader;
      var magic := fileobj.Read(Some(6));
      if magic != MAGIC {
        return Err(if MAGIC[..4] <= magic then UnsupportedFormat else NotCpio);
      }
      var header := fileobj.Read(Some(HEADER_SIZE));
      if |header| != HEADER_SIZE {
        return Err(ShortHeader);
      }
      r := ParseHeader(header);
    }

    method Next() returns (r: Result<Option<Yield>, Error>)
      requires Valid()
      modifies this`content, fileobj, content
      ensures content == old(content) || fresh(content)
      ensures match ItemAt(old(Position()))
              case Err(e) => r == Err(e)
              case Ok(EndOfArchive) => r == Ok(None)
              case Ok(MemberAt(name, info, w)) =>
                && r.Ok? && r.value.Some? && r.value.value.name == name && r.value.value.info == info
                && fresh(r.value.value.content) && content == r.value.value.content
                && Valid() && Contents() == w
    {
      hide HasParent, CleanName, HeadAt, ReadFrom;
      Drain();
      var head := ReadHead();
      if head.Err? {
        return Err(head.error);
      }
      var h := head.value;
      var name := fileobj.Read(Some(h.namesize));
      if name == [] || name[|name| - 1] != 0 {
        return Err(UnterminatedName);
      }
      name := name[..|name| - 1];
      if name == TRAILER {
        return Ok(None);
      }
      if HasParent(name) {
        return Err(ParentInName);
      }
      content := new Take(OnPbzx(fileobj), h.filesize);
      return Ok(Some(Yield(CleanName(name), CpioInfo(h.mode, h.nlink, h.dev, h.ino), content)));
    }
  }

  /** A consumer that makes the given reads of one member's contents. */
  method ReadSome(u: Uncpio, requests: seq<Option<nat>>) returns (data: Bytes)
    requires u.Valid() && u.content != null
    modifies u.fileobj, u.content
    ensures u.Valid() && Viewing(data, u.Contents()) == ViewAll(old(u.Contents()), requests)
  {
    hide View;
    data := [];
    assert requests[..0] == [];
    for i := 0 to |requests|
      invariant u.Valid() && Viewing(data, u.Contents()) == ViewAll(old(u.Contents()), requests[..i])
    {
      assert requests[..i + 1][..i] == requests[..i];
      var r := u.ReadContent(requests[i]);
      data := data + r;
    }
    assert requests[..|requests|] == requests;
  }

  /** What has been seen, and what will be. */
  function Joined(before: seq<Entry>, seen: Seen): Seen {
    Seen(before + seen.entries, seen.end)
  }

  /**
    A consumer of the whole archive, on any stream.  When the archive is in reach it gets
    the members in order, up to the trailer or the first error, whatever it reads of each.
  */
  method Consume(u: Uncpio, requests: nat -> seq<Option<nat>>) returns (seen: Seen)
    requires u.Valid()
    modifies u, u.fileobj, u.content
    ensures seen == Sight(old(u.Position()), requests, 0)
    ensures ArchiveInReach(old(u.Position())) ==>
      var archive := ParseArchive(Concat(old(u.Position())));
      && Partials(seen.entries, archive.entries, requests, 0)
      && seen.end == (if archive.end.Ok? then None else Some(archive.end.error))
  {
    hide Sight, Joined, ItemAt, ViewAll, Drained, Concat, ArchiveInReach, ParseArchive, Partials;
    var entries := [];
    ghost var ss := u.Position();
    if ArchiveInReach(ss) {
      SightInReach(ss, requests, 0);
    }
    JoinNothing(Sight(ss, requests, 0));
    while true
      invariant u.Valid() && Joined(entries, Sight(u.Position(), requests, |entries|)) == Sight(ss, requests, 0)
      invariant u.content == old(u.content) || fresh(u.content)
      decreases |Concat(u.Position())|
    {
      ghost var s := u.Position();
      JoinNext(entries, s, requests);
      var r := u.Next();
      if r.Err? {
        return Seen(entries, Some(r.error));
      }
      if r.value.None? {
        return Seen(entries, None);
      }
      var item := r.value.value;
      var data := ReadSome(u, requests(|entries|));
      entries := entries + [Entry(item.name, item.info, data)];
    }
  }

  lemma JoinNext(entries: seq<Entry>, ss: seq<Bytes>, requests: nat -> seq<Option<nat>>)
    requires ss != []
    ensures var k := |entries|;
      var all := Joined(entries, Sight(ss, requests, k));
      match ItemAt(ss)
      case Err(e) => all == Seen(entries, Some(e))
      case Ok(EndOfArchive) => all == Seen(entries, None)
      case Ok(MemberAt(name, info, w)) =>
        var v := ViewAll(w, requests(k));
        && |Concat(Drained(v.w))| < |Concat(ss)|
        && all == Joined(entries + [Entry(name, info, v.data)], Sight(Drained(v.w), requests, k + 1))
  {
    hide ItemAt, ViewAll, Drained, Concat;
    assert entries + [] == entries;
    if ItemAt(ss).Ok? && ItemAt(ss).value.MemberAt? {
      var m := ItemAt(ss).value;
      var v := ViewAll(m.contents, requests(|entries|));
      DrainedShrinks(ss, requests(|entries|));
      Assoc(entries, [Entry(m.name, m.info, v.data)], Sight(Drained(v.w), requests, |entries| + 1).entries);
    }
  }

  lemma JoinNothing(seen: Seen)
    ensures Joined([], seen) == seen
  {
    assert [] + seen.entries == seen.entries;
  }
}
