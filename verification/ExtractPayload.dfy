/** `extract_payload`: the loop over the archive, with the link table and its slots updated in place. */
module ExtractPayload {
  import opened ByteStrings
  import opened Cpio
  import opened CpioReader
  import opened CpioStream
  import opened ExtractionCuts
  import opened PbzxContainer
  import opened StreamExtraction
  import opened Streams
  import opened UnpackSdk
  import opened Wrappers

  /** A two-element list of the link table. */
  class HardLink {
    var left: int
    var held: Held

    constructor (left: int, held: Held)
      ensures this.left == left && this.held == held
    {
      this.left := left;
      this.held := held;
    }
  }

  ghost function Slots(links: map<Key, HardLink>): Table
    reads links.Values
  {
    map k | k in links :: Slot(links[k].left, links[k].held)
  }

  ghost predicate Separate(links: map<Key, HardLink>) {
    forall k, k' :: k in links && k' in links && k != k' ==> links[k] != links[k']
  }

  class Extractor {
    const q: UnpackSdk.Request
    var hardlinks: map<Key, HardLink>
    var fs: FileSystem

    constructor (q: UnpackSdk.Request, fs: FileSystem)
      ensures this.q == q && this.fs == fs && hardlinks == map[]
    {
      this.q := q;
      this.fs := fs;
      hardlinks := map[];
    }

    ghost predicate Valid()
      reads this
    {
      Separate(hardlinks)
    }

    ghost function Abs(error: Option<UnpackSdk.Error>): State
      reads this, hardlinks.Values
    {
      State(Slots(hardlinks), fs, error)
    }

    /** A new link group: `hardlinks[key] = [left, held]`. */
    method AddLink(key: Key, left: int, held: Held)
      requires Valid() && key !in hardlinks
      modifies this`hardlinks
      ensures Valid() && fresh(hardlinks.Values - old(hardlinks.Values))
      ensures Slots(hardlinks) == old(Slots(hardlinks))[key := Slot(left, held)]
    {
      var hardlink := new HardLink(left, held);
      hardlinks := hardlinks[key := hardlink];
    }

    /** One more member of a known link group. */
    method UseLink(key: Key, matches: bool, path: Path) returns (content: Held)
      requires Valid() && key in hardlinks
      modifies this`hardlinks, hardlinks.Values
      ensures Valid() && hardlinks.Values <= old(hardlinks.Values)
      ensures content == old(hardlinks[key].held)
      ensures var slot := old(Slots(hardlinks))[key];
        Slots(hardlinks) ==
          if slot.left == 1 then old(Slots(hardlinks)) - {key}
          else old(Slots(hardlinks))[key :=
                 Slot(slot.left - 1, if slot.held.Buffered? && matches then AtPath(path) else slot.held)]
    {
      var hardlink := hardlinks[key];
      ghost var all, before := hardlinks, Slots(hardlinks);
      assert forall k :: k in all && k != key ==> all[k] != hardlink;
      hardlink.left := hardlink.left - 1;
      if hardlink.left == 0 {
        hardlinks := hardlinks - {key};
      }
      content := hardlink.held;
      if hardlink.held.Buffered? && matches {
        hardlink.held := AtPath(path);
      }
      ghost var slots := Slots(hardlinks);
      assert forall k :: k in hardlinks && k != key ==> slots[k] == before[k];
      if before[key].left == 1 {
        assert slots == before - {key};
      } else {
        assert slots == before[key := slots[key]];
      }
    }

    /** The table's part of the loop body; a stream is read only when its bytes must be kept. */
    method RouteLinks(u: Uncpio, matches: bool, path: Path, e: Entry) returns (content: Option<Held>, ghost data: Bytes)
      requires Valid() && u.Valid() && u.content != null && IsLinked(e)
      modifies this`hardlinks, hardlinks.Values, u.fileobj, u.content
      ensures Valid() && fresh(hardlinks.Values - old(hardlinks.Values)) && u.Valid()
      ensures var f := if KeyOf(e) in old(Slots(hardlinks)) || matches then Nothing else Once;
        Viewing(data, u.Contents()) == Fetched(f, old(u.Contents()))
      ensures var routed := Route(old(Slots(hardlinks)), e.(data := data), matches, path);
        && Slots(hardlinks) == routed.table
        && (content.Some? ==> content.value == routed.content)
      ensures content.Some? <==> KeyOf(e) in old(Slots(hardlinks)) || !matches
    {
      hide Separate, FileType, View;
      var key := KeyOf(e);
      data := [];
      if key in hardlinks {
        var held := UseLink(key, matches, path);
        content := Some(held);
      } else if matches {
        AddLink(key, e.info.nlink - 1, AtPath(path));
        content := None;
      } else {
        var all := u.ReadContent(None);
        data := all;
        AddLink(key, e.info.nlink - 1, Buffered(all));
        content := Some(Buffered(all));
      }
    }

    /** `shutil.copyfileobj`: a buffer at a time, until nothing comes. */
    method CopyFileObj(u: Uncpio) returns (data: Bytes)
      requires u.Valid() && u.content != null
      modifies u.fileobj, u.content
      ensures u.Valid() && Viewing(data, u.Contents()) == Exhaust(old(u.Contents()), COPY_BUFSIZE)
    {
      hide View;
      data := [];
      ghost var all := Exhaust(u.Contents(), COPY_BUFSIZE);
      assert [] + all.data == all.data;
      while true
        invariant u.Valid()
        invariant var rest := Exhaust(u.Contents(), COPY_BUFSIZE); data + rest.data == all.data && rest.w == all.w
        decreases u.content.limit
      {
        ghost var w := u.Contents();
        var r := u.ReadContent(Some(COPY_BUFSIZE));
        if r == [] {
          assert data + [] == data;
          break;
        }
        Assoc(data, r, Exhaust(u.Contents(), COPY_BUFSIZE).data);
        data := data + r;
      }
    }

    /** The part of the loop body that writes to the output directory. */
    method Create(u: Uncpio, e: Entry, path: Path, content: Option<Held>)
      returns (error: Option<UnpackSdk.Error>, ghost data: Bytes)
      requires u.Valid() && u.content != null
      requires content.Some? ==> IsReg(e)
      modifies this`fs, u.fileobj, u.content
      ensures u.Valid()
      ensures error == None ==> Viewing(data, u.Contents()) == Fetched(CreateFetch(e, content.Some?), old(u.Contents()))
      ensures (fs, error)
           == Settle(old(fs), e.(data := Fetched(CreateFetch(e, content.Some?), old(u.Contents())).data), path,
                     if content.Some? then content.value
                     else Buffered(Fetched(CreateFetch(e, content.Some?), old(u.Contents())).data))
    {
      hide View, Exhaust, FileSystem.MakeDirs, Dirname;
      data := [];
      if IsDir(e) {
        var made := fs.MakeDirs(path);
        if made.Err? {
          return Some(made.error), data;
        }
        fs := made.value;
        return None, data;
      }
      var parent := Dirname(path);
      if parent != [] {
        var made := fs.MakeDirs(parent);
        if made.Err? {
          return Some(made.error), data;
        }
        fs := made.value;
      }
      var done: Result<FileSystem, UnpackSdk.Error>;
      if IsLnk(e) {
        var target := u.ReadContent(None);
        data := target;
        done := fs.Symlink(target, path);
      } else if IsReg(e) {
        if content.Some? && content.value.AtPath? {
          done := fs.Link(content.value.path, path);
        } else if content.Some? {
          done := fs.Write(path, content.value.data);
        } else {
          var copied := CopyFileObj(u);
          data := copied;
          done := fs.Write(path, copied);
        }
      } else {
        done := Err(UnsupportedMode);
      }
      if done.Err? {
        return Some(done.error), data;
      }
      fs := done.value;
      return None, data;
    }

    /** The loop body: a step with the bytes that its reads get. */
    method Handle(u: Uncpio, name: Path, info: CpioInfo) returns (error: Option<UnpackSdk.Error>)
      requires Valid() && u.Valid() && u.content != null
      modifies this, hardlinks.Values, u.fileobj, u.content
      ensures Valid() && fresh(hardlinks.Values - old(hardlinks.Values)) && u.Valid()
      ensures var taken := Taken(q, old(Slots(hardlinks)), name, info, old(u.Contents()));
        Abs(error) == Step(q, old(Abs(None)), taken.0) && (error == None ==> u.Contents() == taken.1)
    {
      hide Settle, Join, LStrip, FileType, View, Exhaust, KeyOf, Separate, Route;
      if name == [] {
        return None;
      }
      var e := Entry(name, info, []);
      var matches := q.Matches(e);
      var path := if matches then q.Dest(e) else [];
      var content := None;
      ghost var kept := [];
      if IsReg(e) && info.nlink > 1 {
        content, kept := RouteLinks(u, matches, path, e);
      }
      if !matches {
        RouteIgnoresData(old(Slots(hardlinks)), e, e, path);
        return None;
      }
      ghost var f, w := CreateFetch(e, content.Some?), u.Contents();
      ghost var data;
      error, data := Create(u, e, path, content);
      assert f == FetchFor(q, old(Slots(hardlinks)), e);
      ghost var taken := e.(data := Fetched(f, w).data);
      RouteIgnoresData(old(Slots(hardlinks)), e.(data := kept), taken, path);
    }

    /** One turn of the loop: fetch a member, if there is one, and handle it. */
    method Turn(u: Uncpio) returns (last: bool, error: Option<UnpackSdk.Error>)
      requires Valid() && u.Valid()
      modifies this, hardlinks.Values, u, u.fileobj, u.content
      ensures u.content == old(u.content) || fresh(u.content)
      ensures fresh(hardlinks.Values - old(hardlinks.Values))
      ensures var turned := TurnAt(q, old(Abs(None)), old(u.Position()));
        && Abs(error) == turned.st && last == turned.next.None?
        && (!last ==> Valid() && u.Valid() && error == None && u.Position() == turned.next.value)
    {
      hide ItemAt, Taken, Step, Drained;
      var r := u.Next();
      if r.Err? {
        return true, Some(BadArchive(r.error));
      }
      if r.value.None? {
        return true, None;
      }
      assert hardlinks == old(hardlinks) && Abs(None) == old(Abs(None));
      error := Handle(u, r.value.value.name, r.value.value.info);
      last := error.Some?;
    }

    method Run(u: Uncpio) returns (error: Option<UnpackSdk.Error>)
      requires u.Valid() && hardlinks == map[]
      modifies this, u, u.fileobj, u.content
      ensures Abs(error) == ExtractAt(q, State(map[], old(fs), None), old(u.Position()))
    {
      ghost var ss := u.Position();
      assert Abs(None) == State(map[], fs, None);
      hide TurnAt, Drained, Concat;
      var last := false;
      error := None;
      while !last
        invariant !last ==> Valid() && u.Valid() && fresh(hardlinks.Values) && error == None
        invariant !last ==> ExtractAt(q, Abs(None), u.Position()) == ExtractAt(q, State(map[], old(fs), None), ss)
        invariant last ==> Abs(error) == ExtractAt(q, State(map[], old(fs), None), ss)
        invariant u.content == old(u.content) || fresh(u.content)
        decreases !last, if last then 0 else |Concat(u.Position())|
      {
        ghost var st, at := Abs(None), u.Position();
        last, error := Turn(u);
        if !last {
          TurnShrinks(q, st, at);
        }
      }
    }
  }

  /** For a selected member the table does not depend on the bytes, nor does what a known group holds. */
  lemma RouteIgnoresData(table: Table, e: Entry, e': Entry, path: Path)
    requires e' == e.(data := e'.data)
    ensures var r, r' := Route(table, e, true, path), Route(table, e', true, path);
      && r.table == r'.table
      && (if IsLinked(e) && KeyOf(e) in table then r.content == r'.content else r'.content == Buffered(e'.data))
    ensures !IsLinked(e) ==> Route(table, e', true, path).table == Route(table, e', false, path).table == table
  {
  }

  function CreateFetch(e: Entry, given: bool): Fetch {
    if IsDir(e) || given then Nothing
    else if IsLnk(e) then Once
    else if IsReg(e) then Copied
    else Nothing
  }

  datatype Failure = InContainer(c: PbzxContainer.Error) | InExtraction(x: UnpackSdk.Error)

  /**
    Extracts a package payload, whatever its chunks.  When the reads do not notice the empty
    ones, the result is that of the archive in the chunks' bytes.
  */
  method ExtractPayload(src: Source, lzma: Bytes -> Option<Bytes>, q: UnpackSdk.Request, fs0: FileSystem)
    returns (fs: FileSystem, failure: Option<Failure>)
    requires src.Valid()
    modifies src.Objects()
    ensures match Payload(old(src.Remaining()), lzma)
      case Err(e) => fs == fs0 && failure == Some(InContainer(e))
      case Ok(chunks) =>
        var st := ExtractAt(q, State(map[], fs0, None), Opened(chunks));
        && fs == st.fs
        && failure == (if st.error.None? then None else Some(InExtraction(st.error.value)))
        && (Smooth(q, State(map[], fs0, None), Opened(chunks)) ==>
              st == Extraction(q, fs0, ParseArchive(Concat(chunks))))
  {
    hide ExtractAt, Extraction, ParseArchive, Smooth, Concat;
    var pbzx := Open(src, lzma);
    if pbzx.Err? {
      return fs0, Some(InContainer(pbzx.error));
    }
    var u := new Uncpio(pbzx.value);
    var x := new Extractor(q, fs0);
    ghost var ss := u.Position();
    OpenedConcat(Payload(old(src.Remaining()), lzma).value);
    if Smooth(q, State(map[], fs0, None), ss) {
      ExtractionThrough(q, fs0, ss);
    }
    var error := x.Run(u);
    ghost var st := x.Abs(error);
    return x.fs, if error.None? then None else Some(InExtraction(error.value));
  }
}
