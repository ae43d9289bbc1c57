/**
  cpio archives in the portable ASCII format ("cpio Interchange Format" in the pax
  utility of IEEE Std 1003.1): the byte-level grammar, and the `uncpio` generator
  that reads it from a PBZX stream while its consumer reads the members' contents.
*/
module Cpio {
  import opened ByteStrings
  import opened OctalFields
  import opened Wrappers

  datatype Error = NotCpio | UnsupportedFormat | ShortHeader | BadNumber | UnterminatedName | ParentInName

  datatype CpioInfo = CpioInfo(mode: nat, nlink: int, dev: int, ino: int)

  const MAGIC: Bytes := [0x30, 0x37, 0x30, 0x37, 0x30, 0x37]
  const TRAILER: Bytes := [0x54, 0x52, 0x41, 0x49, 0x4c, 0x45, 0x52, 0x21, 0x21, 0x21]
  const DOT: Byte := 0x2e
  const SLASH: Byte := 0x2f
  const HEADER_SIZE: nat := 70

  // ----- One archive member -----

  datatype Header = Header(dev: int, ino: int, mode: nat, nlink: int, namesize: nat, filesize: nat)

  function ParseHeader(h: Bytes): Result<Header, Error>
    requires |h| == HEADER_SIZE
  {
    match (ReadInt(h[..6]), ReadInt(h[6..12]), ParseOctal(h[12..18]), ReadInt(h[30..36]),
           ParseOctal(h[53..59]), ParseOctal(h[59..]))
    case (Some(dev), Some(ino), Some(mode), Some(nlink), Some(namesize), Some(filesize)) =>
      Ok(Header(dev, ino, mode, nlink, namesize, filesize))
    case _ => Err(BadNumber)
  }

  predicate HasParent(name: Bytes) {
    || (exists k :: 0 <= k < |name| && [SLASH, DOT, DOT, SLASH] <= name[k..])
    || [DOT, DOT, SLASH] <= name
    || name == [DOT, DOT]
  }

  /** Drops one leading "." and then one leading "/". */
  function CleanName(name: Bytes): Bytes {
    var name := if [DOT] <= name then name[1..] else name;
    if [SLASH] <= name then name[1..] else name
  }

  datatype Item =
    | Trailer(rest: Bytes)
    | Member(name: Bytes, info: CpioInfo, size: nat, rest: Bytes)

  /** What the bytes of `name`, still with its NUL, say the item is. */
  function NameItem(h: Header, name: Bytes, rest: Bytes): Result<Item, Error> {
    if name == [] || name[|name| - 1] != 0 then Err(UnterminatedName)
    else
      var name := name[..|name| - 1];
      if name == TRAILER then Ok(Trailer(rest))
      else if HasParent(name) then Err(ParentInName)
      else Ok(Member(CleanName(name), CpioInfo(h.mode, h.nlink, h.dev, h.ino), h.filesize, rest))
  }

  /** The fixed part of the header at the start of `s`. */
  function ParseHead(s: Bytes): Result<Header, Error> {
    if Front(s, 6) != MAGIC then Err(if MAGIC[..4] <= s then UnsupportedFormat else NotCpio)
    else if |s| < 6 + HEADER_SIZE then Err(ShortHeader)
    else ParseHeader(s[6..6 + HEADER_SIZE])
  }

  /** The item at the start of `s`; its contents and what follows are in `rest`. */
  function ParseItem(s: Bytes): Result<Item, Error> {
    match ParseHead(s)
    case Err(e) => Err(e)
    case Ok(h) => NameItem(h, Front(Back(s, 6 + HEADER_SIZE), h.namesize), Back(Back(s, 6 + HEADER_SIZE), h.namesize))
  }

  lemma ItemShrinks(s: Bytes)
    requires ParseItem(s).Ok?
    ensures |ParseItem(s).value.rest| < |s|
  {
  }

  // ----- Whole archives -----

  datatype Entry = Entry(name: Bytes, info: CpioInfo, data: Bytes)

  /** The members in order, and how the archive ends: the bytes after the trailer's name, or an error. */
  datatype Archive = Archive(entries: seq<Entry>, end: Result<Bytes, Error>)

  function ParseArchive(s: Bytes): Archive
    decreases |s|
  {
    match ParseItem(s)
    case Err(e) => Archive([], Err(e))
    case Ok(Trailer(rest)) => Archive([], Ok(rest))
    case Ok(Member(name, info, size, rest)) =>
      ItemShrinks(s);
      var tail := ParseArchive(Back(rest, size));
      Archive([Entry(name, info, Front(rest, size))] + tail.entries, tail.end)
  }

  // ----- Writing archives -----

  /** A member as an archiver writes it: its header's fields as they stand there. */
  datatype RawEntry = RawEntry(
    dev: Bytes, ino: Bytes, mode: Bytes, uid: Bytes, gid: Bytes, nlink: Bytes, rdev: Bytes, mtime: Bytes,
    namesize: Bytes, filesize: Bytes, name: Bytes)
  {
    /** Every field has its width, and the fields that are read are numbers, the last of them the file size. */
    predicate Fits(size: nat) {
      && |dev| == 6 && |ino| == 6 && |mode| == 6 && |uid| == 6 && |gid| == 6 && |nlink| == 6 && |rdev| == 6
      && |mtime| == 11 && |namesize| == 6 && |filesize| == 11
      && ReadInt(dev).Some? && ReadInt(ino).Some? && ParseOctal(mode).Some? && ReadInt(nlink).Some?
      && ParseOctal(namesize).Some? && ParseOctal(filesize) == Some(size)
    }

    function NameSize(): nat {
      if ParseOctal(namesize).Some? then ParseOctal(namesize).value else 0
    }

    /** The declared size counts the name and its NUL. */
    predicate Sized() {
      NameSize() == |name| + 1
    }

    function Fields(): Bytes {
      dev + ino + mode + uid + gid + nlink + rdev + mtime + namesize + filesize
    }

    /** Everything up to the contents. */
    function Encode(): Bytes {
      MAGIC + Fields() + (name + [0])
    }

    function Info(): CpioInfo
      requires ReadInt(dev).Some? && ReadInt(ino).Some? && ParseOctal(mode).Some? && ReadInt(nlink).Some?
    {
      CpioInfo(ParseOctal(mode).value, ReadInt(nlink).value, ReadInt(dev).value, ReadInt(ino).value)
    }
  }

  /** A header as the standard has it written: numbers as digits only. */
  function StandardEntry(info: CpioInfo, uid: Bytes, gid: Bytes, rdev: Bytes, mtime: Bytes, size: nat,
                         name: Bytes): RawEntry
    requires info.dev >= 0 && info.ino >= 0 && info.nlink >= 0
  {
    RawEntry(PackOctal(info.dev, 6), PackOctal(info.ino, 6), PackOctal(info.mode, 6), uid, gid,
             PackOctal(info.nlink, 6), rdev, mtime, PackOctal(|name| + 1, 6), PackOctal(size, 11), name)
  }

  /** Such a header fits whenever its numbers do, and says what it was made from. */
  lemma StandardFits(info: CpioInfo, uid: Bytes, gid: Bytes, rdev: Bytes, mtime: Bytes, size: nat, name: Bytes)
    requires 0 <= info.dev < Pow(8, 6) && 0 <= info.ino < Pow(8, 6) && 0 <= info.nlink < Pow(8, 6)
    requires info.mode < Pow(8, 6)
    requires |uid| == 6 && |gid| == 6 && |rdev| == 6 && |mtime| == 11
    requires |name| + 1 < Pow(8, 6) && size < Pow(8, 11)
    ensures var e := StandardEntry(info, uid, gid, rdev, mtime, size, name);
      e.Fits(size) && e.Sized() && e.Info() == info
  {
    hide ReadInt, PackOctal, Pow;
    PackThenParse(info.dev, 6);
    PackThenParse(info.ino, 6);
    PackThenParse(info.mode, 6);
    PackThenParse(info.nlink, 6);
    PackThenParse(|name| + 1, 6);
    PackThenParse(size, 11);
  }

  datatype RawMember = RawMember(raw: RawEntry, data: Bytes) {
    predicate Valid() {
      raw.Fits(|data|) && raw.Sized() && raw.name != TRAILER && !HasParent(raw.name)
    }

    function Decoded(): Entry
      requires Valid()
    {
      Entry(CleanName(raw.name), raw.Info(), data)
    }
  }

  function EncodeMembers(ms: seq<RawMember>): Bytes {
    if ms == [] then [] else ms[0].raw.Encode() + ms[0].data + EncodeMembers(ms[1..])
  }

  function DecodedMembers(ms: seq<RawMember>): seq<Entry>
    requires forall m :: m in ms ==> m.Valid()
  {
    seq(|ms|, i requires 0 <= i < |ms| => ms[i].Decoded())
  }

  lemma FieldSlices(e: RawEntry, size: nat)
    requires e.Fits(size)
    ensures var h := e.Fields();
      && |h| == HEADER_SIZE
      && h[..6] == e.dev && h[6..12] == e.ino && h[12..18] == e.mode && h[18..24] == e.uid && h[24..30] == e.gid
      && h[30..36] == e.nlink && h[36..42] == e.rdev && h[42..53] == e.mtime && h[53..59] == e.namesize
      && h[59..] == e.filesize
  {
    hide ReadInt;
  }

  lemma ParseEncodedHeader(e: RawEntry, size: nat)
    requires e.Fits(size)
    ensures |e.Fields()| == HEADER_SIZE
    ensures var i := e.Info(); ParseHeader(e.Fields()) == Ok(Header(i.dev, i.ino, i.mode, i.nlink, e.NameSize(), size))
  {
    hide ReadInt, RawEntry.Fields;
    FieldSlices(e, size);
  }

  /** Parsing undoes encoding, whatever follows. */
  lemma ParseEncodedItem(e: RawEntry, size: nat, rest: Bytes)
    requires e.Fits(size)
    requires e.Sized() || (e.NameSize() > |e.name| + 1 && rest == [])
    ensures ParseItem(e.Encode() + rest)
         == (if e.name == TRAILER then Ok(Trailer(rest))
             else if HasParent(e.name) then Err(ParentInName)
             else Ok(Member(CleanName(e.name), e.Info(), size, rest)))
  {
    hide ParseHeader, RawEntry.Fields, RawEntry.NameSize, HasParent, CleanName, ReadInt;
    ParseEncodedHeader(e, size);
    var f, name := e.Fields(), e.name + [0];
    var s := e.Encode() + rest;
    Associate(MAGIC, f, name, rest);
    FrontOfConcat(MAGIC, f + (name + rest));
    FrontOfConcat(f, name + rest);
    assert s[6..6 + HEADER_SIZE] == Front(s[6..], HEADER_SIZE) == f;
    assert Back(s, 6 + HEADER_SIZE) == Back(s[6..], HEADER_SIZE) == name + rest;
    CutName(e, rest);
  }

  lemma CutName(e: RawEntry, rest: Bytes)
    requires e.Sized() || (e.NameSize() > |e.name| + 1 && rest == [])
    ensures Front((e.name + [0]) + rest, e.NameSize()) == e.name + [0]
    ensures Back((e.name + [0]) + rest, e.NameSize()) == rest
    ensures (e.name + [0])[..|e.name|] == e.name
  {
  }

  /** A trailer may declare a name that runs past the end of the archive. */
  predicate IsTrailer(e: RawEntry, size: nat, rest: Bytes) {
    e.Fits(size) && e.name == TRAILER && (e.Sized() || (e.NameSize() > |TRAILER| + 1 && rest == []))
  }

  lemma ParseEncodedTrailer(trailer: RawEntry, size: nat, rest: Bytes)
    requires IsTrailer(trailer, size, rest)
    ensures ParseArchive(trailer.Encode() + rest) == Archive([], Ok(rest))
  {
    hide ParseItem, RawEntry.Encode, RawEntry.Fits;
    ParseEncodedItem(trailer, size, rest);
  }

  lemma ParseEncodedMember(m: RawMember, more: Bytes)
    requires m.Valid()
    ensures var tail := ParseArchive(more);
      ParseArchive(m.raw.Encode() + (m.data + more)) == Archive([m.Decoded()] + tail.entries, tail.end)
  {
    hide ParseItem, RawEntry.Encode, RawEntry.Fits;
    ParseEncodedItem(m.raw, |m.data|, m.data + more);
    FrontOfConcat(m.data, more);
  }

  /** Reading back an encoded archive gives exactly its members and stops at its trailer. */
  lemma {:induction false} DecodeEncoded(ms: seq<RawMember>, trailer: RawEntry, size: nat, rest: Bytes)
    requires forall m :: m in ms ==> m.Valid()
    requires IsTrailer(trailer, size, rest)
    ensures ParseArchive(EncodeMembers(ms) + (trailer.Encode() + rest))
         == Archive(DecodedMembers(ms), Ok(rest))
  {
    hide ParseArchive, RawEntry.Fits, RawEntry.Encode, RawMember.Valid, DecodedMembers;
    var tail := trailer.Encode() + rest;
    if ms == [] {
      ParseEncodedTrailer(trailer, size, rest);
      assert EncodeMembers(ms) + tail == tail;
      NoMembers();
    } else {
      DecodeEncoded(ms[1..], trailer, size, rest);
      var m := ms[0];
      ParseEncodedMember(m, EncodeMembers(ms[1..]) + tail);
      Associate(m.raw.Encode(), m.data, EncodeMembers(ms[1..]), tail);
      DecodedCons(ms);
    }
  }

  lemma NoMembers()
    ensures DecodedMembers([]) == []
  {
  }

  lemma DecodedCons(ms: seq<RawMember>)
    requires ms != [] && forall m :: m in ms ==> m.Valid()
    ensures DecodedMembers(ms) == [ms[0].Decoded()] + DecodedMembers(ms[1..])
  {
    hide RawMember.Decoded;
  }

  lemma Associate<T>(a: seq<T>, b: seq<T>, c: seq<T>, d: seq<T>)
    ensures a + b + c + d == a + (b + (c + d))
  {
  }

  // ----- The names of members -----

  /** The bytes of an ASCII text. */
  function Text(s: string): (r: Bytes)
    ensures |r| == |s| && forall k :: 0 <= k < |s| ==> r[k] == s[k] as int % 0x100
  {
    seq(|s|, k requires 0 <= k < |s| => s[k] as int % 0x100)
  }

  lemma TextBytes()
    ensures Text("/../") == [SLASH, DOT, DOT, SLASH] && Text("../") == [DOT, DOT, SLASH] && Text("..") == [DOT, DOT]
    ensures Text("./") == [DOT, SLASH] && Text("/") == [SLASH] && Text(".") == [DOT]
    ensures Text("TRAILER!!!") == TRAILER
  {
  }

  /** Names with a way up in them; one that only ends in two dots is not among them. */
  ghost predicate ClimbsUp(name: Bytes) {
    || (exists a, b :: name == a + (Text("/../") + b))
    || (exists b :: name == Text("../") + b)
    || name == Text("..")
  }

  lemma ClimbsUpIff(name: Bytes)
    ensures HasParent(name) <==> ClimbsUp(name)
  {
    TextBytes();
    if k :| 0 <= k < |name| && [SLASH, DOT, DOT, SLASH] <= name[k..] {
      CutHere(name, k, 4);
      assert name[k..][..4] == Text("/../");
      assert name == name[..k] + (Text("/../") + name[k + 4..]);
    }
    if a, b :| name == a + (Text("/../") + b) {
      assert name[|a|..] == [SLASH, DOT, DOT, SLASH] + b;
    }
    if [DOT, DOT, SLASH] <= name {
      CutHere(name, 0, 3);
      assert name == Text("../") + name[3..];
    }
  }

  lemma CutHere(name: Bytes, k: nat, n: nat)
    requires k + n <= |name|
    ensures name == name[..k] + (name[k..][..n] + name[k + n..]) && (k == 0 ==> name == name[..n] + name[n..])
  {
  }

  /** What a member is called, by the name that stands in the archive: one way for each beginning. */
  ghost predicate Called(written: Bytes, name: Bytes) {
    && (forall n :: written == Text("./") + n ==> name == n)
    && (forall n :: written == Text("/") + n ==> name == n)
    && (forall n :: written == Text(".") + n && !(Text("/") <= n) ==> name == n)
    && (!(Text(".") <= written) && !(Text("/") <= written) ==> name == written)
  }

  lemma CleanNameIs(written: Bytes)
    ensures Called(written, CleanName(written))
  {
    TextBytes();
    hide CleanName;
    forall n | written == Text("./") + n
      ensures CleanName(written) == n
    {
      CleanNames(n);
    }
    forall n | written == Text("/") + n
      ensures CleanName(written) == n
    {
      CleanNames(n);
    }
    forall n | written == Text(".") + n && !(Text("/") <= n)
      ensures CleanName(written) == n
    {
      CleanNames(n);
    }
    if !(Text(".") <= written) && !(Text("/") <= written) {
      CleanIsClean(written);
    }
  }

  lemma CleanNames(n: Bytes)
    ensures CleanName([DOT, SLASH] + n) == n && CleanName([SLASH] + n) == n
    ensures !([SLASH] <= n) ==> CleanName([DOT] + n) == n
  {
    var dotted, rooted, dot := [DOT, SLASH] + n, [SLASH] + n, [DOT] + n;
    assert [DOT] <= dotted && dotted[1..] == rooted && [SLASH] <= rooted && rooted[1..] == n;
    assert rooted[0] != DOT;
    assert !([DOT] <= rooted);
    assert [DOT] <= dot && dot[1..] == n;
  }

  lemma CleanIsClean(n: Bytes)
    requires !([DOT] <= n) && !([SLASH] <= n)
    ensures CleanName(n) == n
  {
  }

  /**
    What the parser makes of the name in a header: a trailer, a refusal, or a member that is
    called after it.
  */
  lemma NameIsRead(e: RawEntry, size: nat, rest: Bytes)
    requires e.Fits(size) && e.Sized()
    ensures var r := ParseItem(e.Encode() + rest);
      if e.name == Text("TRAILER!!!") then r == Ok(Trailer(rest))
      else if ClimbsUp(e.name) then r == Err(ParentInName)
      else r.Ok? && r.value.Member? && Called(e.name, r.value.name)
  {
    hide RawEntry.Encode, RawEntry.Fits, RawEntry.Sized, ParseItem, HasParent, ClimbsUp, CleanName, Called;
    ParseEncodedItem(e, size, rest);
    ClimbsUpIff(e.name);
    CleanNameIs(e.name);
    TextBytes();
  }

  /** So in whole archives: each member is called after the name it was written with, and holds its data. */
  lemma NamesDecoded(ms: seq<RawMember>, trailer: RawEntry, size: nat, rest: Bytes, i: nat)
    requires (forall m :: m in ms ==> m.Valid()) && IsTrailer(trailer, size, rest) && i < |ms|
    ensures var es := ParseArchive(EncodeMembers(ms) + (trailer.Encode() + rest)).entries;
      |es| == |ms| && Called(ms[i].raw.name, es[i].name) && es[i].data == ms[i].data
  {
    hide RawEntry.Encode, RawMember.Valid, ParseArchive, EncodeMembers, CleanName, Called, IsTrailer;
    DecodeEncoded(ms, trailer, size, rest);
    CleanNameIs(ms[i].raw.name);
    assert ms[i].Valid();
  }

  /** The raw header a parsed item was written with. */
  function RawHeader(f: Bytes, name: Bytes): RawEntry
    requires |f| == HEADER_SIZE
  {
    RawEntry(f[..6], f[6..12], f[12..18], f[18..24], f[24..30], f[30..36], f[36..42], f[42..53], f[53..59], f[59..],
             name)
  }

  lemma EncodeParsedHeader(f: Bytes, h: Header, name: Bytes)
    requires |f| == HEADER_SIZE && ParseHeader(f) == Ok(h)
    ensures var e := RawHeader(f, name);
      e.Fits(h.filesize) && e.Fields() == f && e.NameSize() == h.namesize
      && e.Info() == CpioInfo(h.mode, h.nlink, h.dev, h.ino)
  {
    hide ReadInt;
    Slices(f);
  }

  lemma Slices(f: Bytes)
    requires |f| == HEADER_SIZE
    ensures f == f[..6] + f[6..12] + f[12..18] + f[18..24] + f[24..30] + f[30..36] + f[36..42] + f[42..53]
               + f[53..59] + f[59..]
  {
  }

  lemma SplitItem(s: Bytes, n: nat)
    requires |s| >= 6 + HEADER_SIZE
    requires var name := Front(s[6 + HEADER_SIZE..], n); name != [] && name[|name| - 1] == 0
    ensures var body := s[6 + HEADER_SIZE..];
            var name := Front(body, n);
            s == Front(s, 6) + s[6..6 + HEADER_SIZE] + (name[..|name| - 1] + [0]) + Back(body, n)
  {
    var body := s[6 + HEADER_SIZE..];
    var name := Front(body, n);
    assert name == name[..|name| - 1] + [0];
    assert body == name + Back(body, n);
  }

  /** Every item that parses is the encoding of a header, and that header decodes to the item. */
  lemma EncodeParsedItem(s: Bytes) returns (e: RawEntry, size: nat)
    requires ParseItem(s).Ok?
    ensures var item := ParseItem(s).value;
      && e.Fits(size) && s == e.Encode() + item.rest
      && (e.Sized() || (e.NameSize() > |e.name| + 1 && item.rest == []))
      && (item.Trailer? ==> e.name == TRAILER)
      && (item.Member? ==>
            e.name != TRAILER && !HasParent(e.name)
            && item == Member(CleanName(e.name), e.Info(), size, item.rest))
  {
    var f := s[6..6 + HEADER_SIZE];
    var h := ParseHeader(f).value;
    var name := Front(s[6 + HEADER_SIZE..], h.namesize);
    e, size := RawHeader(f, name[..|name| - 1]), h.filesize;
    EncodeParsedHeader(f, h, name[..|name| - 1]);
    SplitItem(s, h.namesize);
  }

  lemma EndlessFails()
    ensures ParseArchive([]) == Archive([], Err(NotCpio))
  {
  }

  lemma UnfoldMember(s: Bytes, name: Bytes, info: CpioInfo, size: nat, rest: Bytes)
    requires ParseItem(s) == Ok(Member(name, info, size, rest)) && ParseArchive(s).end.Ok?
    ensures size < |rest| < |s|
    ensures var tail := ParseArchive(Back(rest, size));
      ParseArchive(s) == Archive([Entry(name, info, Front(rest, size))] + tail.entries, tail.end)
  {
    ItemShrinks(s);
    if size >= |rest| {
      assert Back(rest, size) == [];
      EndlessFails();
    }
  }

  /** In an archive that is read to its trailer, a member was written whole. */
  lemma ParsedMember(s: Bytes) returns (m: RawMember, more: Bytes)
    requires ParseItem(s).Ok? && ParseItem(s).value.Member? && ParseArchive(s).end.Ok?
    ensures m.Valid() && |more| < |s|
    ensures s == m.raw.Encode() + (m.data + more)
    ensures ParseArchive(s) == Archive([m.Decoded()] + ParseArchive(more).entries, ParseArchive(more).end)
  {
    var e, n := EncodeParsedItem(s);
    var item := ParseItem(s).value;
    UnfoldMember(s, item.name, item.info, item.size, item.rest);
    FrontBack(item.rest, n);
    m, more := RawMember(e, Front(item.rest, n)), Back(item.rest, n);
  }

  lemma EncodeCons(m: RawMember, tail: seq<RawMember>, more: Bytes, end: Bytes)
    requires m.Valid() && forall t :: t in tail ==> t.Valid()
    requires more == EncodeMembers(tail) + end
    ensures m.raw.Encode() + (m.data + more) == EncodeMembers([m] + tail) + end
    ensures DecodedMembers([m] + tail) == [m.Decoded()] + DecodedMembers(tail)
  {
    hide RawEntry.Encode, RawMember.Valid;
    assert ([m] + tail)[1..] == tail;
    DecodedCons([m] + tail);
    Associate(m.raw.Encode(), m.data, EncodeMembers(tail), end);
  }

  /**
    The converse of `DecodeEncoded`: an archive that is read to its trailer without an
    error is the encoding of the members that were read.
  */
  lemma {:induction false} EncodeDecoded(s: Bytes) returns (ms: seq<RawMember>, trailer: RawEntry, size: nat)
    requires ParseArchive(s).end.Ok?
    ensures forall m :: m in ms ==> m.Valid()
    ensures ParseArchive(s).entries == DecodedMembers(ms)
    ensures IsTrailer(trailer, size, ParseArchive(s).end.value)
    ensures s == EncodeMembers(ms) + (trailer.Encode() + ParseArchive(s).end.value)
    decreases |s|
  {
    hide RawEntry.Encode, RawEntry.Fits, RawMember.Valid, DecodedMembers;
    if ParseItem(s).value.Trailer? {
      ms := [];
      NoMembers();
      trailer, size := EncodeParsedItem(s);
    } else {
      var m, more := ParsedMember(s);
      var tail;
      tail, trailer, size := EncodeDecoded(more);
      ms := [m] + tail;
      EncodeCons(m, tail, more, trailer.Encode() + ParseArchive(more).end.value);
    }
  }
}
