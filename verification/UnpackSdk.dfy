/**
  Extracting the selected part of a package payload.  In these archives only the
  first member of a hard-link group carries the data, and that member may be one the
  prefix filters out; a table of link groups keeps the data, or the path it went to.
*/
module UnpackSdk {
  import opened ByteStrings
  import opened Cpio
  import opened Wrappers

  type Path = Bytes

  type Key = (int, int)

  // ----- Paths -----

  function LStrip(p: Path): Path {
    if p != [] && p[0] == SLASH then LStrip(p[1..]) else p
  }

  function RStrip(p: Path): Path {
    if p != [] && p[|p| - 1] == SLASH then RStrip(p[..|p| - 1]) else p
  }

  function UpToLastSlash(p: Path): (head: Path)
    ensures |head| <= |p|
  {
    if p == [] || p[|p| - 1] == SLASH then p else UpToLastSlash(p[..|p| - 1])
  }

  function Dirname(p: Path): Path {
    var head := UpToLastSlash(p);
    if RStrip(head) == [] then head else RStrip(head)
  }

  function Join(a: Path, b: Path): Path {
    if b != [] && b[0] == SLASH then b
    else if a == [] || a[|a| - 1] == SLASH then a + b
    else a + [SLASH] + b
  }

  // ----- Places -----

  /** Where a path leads, however it is spelled: the names on the way, from the root or the current directory. */
  datatype Spot = Spot(rooted: bool, names: seq<Bytes>) {
    /** The place and the directories above it. */
    function Chain(): set<Spot> {
      set n | 0 < n <= |names| :: Spot(rooted, names[..n])
    }

    function Above(): Spot
      requires names != []
    {
      Spot(rooted, names[..|names| - 1])
    }

    lemma ChainSplits()
      requires names != []
      ensures Chain() == Above().Chain() + {this}
    {
      var n := |names| - 1;
      assert names[..n + 1] == names;
      forall k | 0 < k <= n
        ensures names[..n][..k] == names[..k]
      {
      }
    }

    lemma ChainAbove()
      requires names != []
      ensures forall c :: c in Above().Chain() <==> c in Chain() && c != this
    {
      ChainSplits();
      forall c | c in Above().Chain()
        ensures c != this
      {
        var n :| 0 < n <= |names| - 1 && c == Spot(rooted, Above().names[..n]);
        assert |c.names| == n;
      }
    }

    /** What is above a directory on the way is on the way too. */
    lemma ChainIsClosed(d: Spot)
      requires d in Chain()
      ensures d.names != [] && (|d.names| == 1 || d.Above() in Chain())
    {
      var n :| 0 < n <= |names| && d == Spot(rooted, names[..n]);
      if n > 1 {
        assert d.Above() == Spot(rooted, names[..n - 1]);
      }
    }
  }

  function ToSlash(p: Path): (n: nat)
    ensures n <= |p|
    ensures n < |p| ==> p[n] == SLASH
    ensures SLASH !in p[..n]
  {
    if p == [] || p[0] == SLASH then 0
    else
      var n := ToSlash(p[1..]);
      assert p[..n + 1] == [p[0]] + p[1..][..n];
      n + 1
  }

  function NameOf(part: Bytes): seq<Bytes> {
    if part == [] || part == [DOT] then [] else [part]
  }

  /** The parts between slashes, but for empty ones and single dots. */
  function Names(p: Path): seq<Bytes>
    decreases |p|
  {
    var n := ToSlash(p);
    NameOf(p[..n]) + (if n == |p| then [] else Names(p[n + 1..]))
  }

  function SpotOf(p: Path): Spot {
    Spot(p != [] && p[0] == SLASH, Names(p))
  }

  lemma {:induction false} ToSlashIs(part: Bytes, rest: Path)
    requires SLASH !in part && (rest != [] ==> rest[0] == SLASH)
    ensures ToSlash(part + rest) == |part|
  {
    if part == [] {
      assert part + rest == rest;
    } else {
      assert part[0] != SLASH && SLASH !in part[1..];
      ToSlashIs(part[1..], rest);
      assert (part + rest)[1..] == part[1..] + rest;
    }
  }

  lemma NamesOfPart(part: Bytes, rest: Path)
    requires SLASH !in part
    ensures Names(part) == NameOf(part) && Names(part + ([SLASH] + rest)) == NameOf(part) + Names(rest)
  {
    hide NameOf, ToSlash;
    ToSlashIs(part, []);
    ToSlashIs(part, [SLASH] + rest);
    PartCut(part, rest);
  }

  lemma PartCut(part: Bytes, rest: Path)
    ensures part + [] == part && part[..|part|] == part && NameOf(part) + [] == NameOf(part)
    ensures var p := part + ([SLASH] + rest); p[..|part|] == part && p[|part| + 1..] == rest
  {
  }

  /** A slash divides the names on the way. */
  lemma {:induction false} NamesJoin(a: Path, b: Path)
    ensures Names(a + ([SLASH] + b)) == Names(a) + Names(b)
    decreases |a|
  {
    hide Names, NameOf;
    var n := ToSlash(a);
    NamesOfPart(a[..n], b);
    if n == |a| {
      assert a[..n] == a;
    } else {
      var rest := a[n + 1..];
      NamesJoin(rest, b);
      NamesOfPart(a[..n], rest);
      NamesOfPart(a[..n], rest + ([SLASH] + b));
      assert a == a[..n] + ([SLASH] + rest);
      assert a + ([SLASH] + b) == a[..n] + ([SLASH] + (rest + ([SLASH] + b)));
      Assoc(NameOf(a[..n]), Names(rest), Names(b));
    }
  }

  /** More slashes, a dot between slashes, and a slash at the end lead to the same place. */
  lemma SpellingsOfOnePlace(a: Path, b: Path)
    requires a != []
    ensures SpotOf(a + ([SLASH] + ([SLASH] + b))) == SpotOf(a + ([SLASH] + b))
    ensures SpotOf(a + ([SLASH] + ([DOT] + ([SLASH] + b)))) == SpotOf(a + ([SLASH] + b))
    ensures SpotOf(a + ([SLASH] + [])) == SpotOf(a)
  {
    hide Names;
    NamesJoin(a, b);
    NamesJoin(a, [SLASH] + b);
    NamesJoin(a, [DOT] + ([SLASH] + b));
    NamesJoin(a, []);
    NamesOfPart([], b);
    NamesOfPart([DOT], b);
    assert [] + ([SLASH] + b) == [SLASH] + b && [] + Names(b) == Names(b);
    assert Names(a) + [] == Names(a);
  }

  /** A path whose last part is empty or a dot stands for a directory, which has been made. */
  predicate NamesDirectory(p: Path) {
    && p != []
    && (p[|p| - 1] == SLASH || (p[|p| - 1] == DOT && (|p| == 1 || p[|p| - 2] == SLASH)))
  }

  lemma {:induction false} LastPart(p: Path)
    ensures UpToLastSlash(p) <= p && SLASH !in p[|UpToLastSlash(p)|..]
    ensures UpToLastSlash(p) == [] || UpToLastSlash(p)[|UpToLastSlash(p)| - 1] == SLASH
  {
    if p != [] && p[|p| - 1] != SLASH {
      var q := p[..|p| - 1];
      LastPart(q);
      var n := |UpToLastSlash(q)|;
      assert p[n..] == q[n..] + [p[|p| - 1]];
    }
  }

  lemma {:induction false} StripKeepsNames(p: Path)
    ensures Names(RStrip(p)) == Names(p) && RStrip(p) <= p
  {
    hide Names;
    if p != [] && p[|p| - 1] == SLASH {
      var q := p[..|p| - 1];
      StripKeepsNames(q);
      NamesJoin(q, []);
      NoNames();
      assert p == q + ([SLASH] + []) && Names(q) + [] == Names(q);
    }
  }

  lemma EndsInDot(a: Path)
    ensures NamesDirectory(a + ([SLASH] + [DOT]))
  {
  }

  lemma NoNames()
    ensures Names([]) == []
  {
  }

  /** The last part of a path that does not name a directory is the last name on its way. */
  lemma LastName(p: Path)
    requires p != [] && !NamesDirectory(p)
    ensures var head := UpToLastSlash(p); Names(p) == Names(head) + [p[|head|..]]
  {
    hide Names, UpToLastSlash;
    var head := UpToLastSlash(p);
    var part := p[|head|..];
    LastPart(p);
    assert p == head + part;
    NamesOfPart(part, []);
    NoNames();
    if head == [] {
      assert p == part && [] + [part] == [part];
    } else {
      var a := head[..|head| - 1];
      assert head == a + ([SLASH] + []) && p == a + ([SLASH] + part);
      NamesJoin(a, part);
      NamesJoin(a, []);
      assert Names(a) + [] == Names(a);
      EndsInDot(a);
    }
  }

  lemma DirnameStarts(p: Path)
    ensures Dirname(p) <= p && Names(Dirname(p)) == Names(UpToLastSlash(p))
  {
    hide Names, UpToLastSlash, RStrip;
    LastPart(p);
    StripKeepsNames(UpToLastSlash(p));
  }

  /** The directory that is made for a file is the one above its place. */
  lemma DirnameIsAbove(p: Path)
    requires p != [] && !NamesDirectory(p)
    ensures SpotOf(p).names != [] && Names(Dirname(p)) == SpotOf(p).Above().names
    ensures Dirname(p) != [] ==> SpotOf(Dirname(p)) == SpotOf(p).Above()
  {
    hide Names, UpToLastSlash, Dirname;
    LastName(p);
    DirnameStarts(p);
    var above := Names(Dirname(p));
    assert (above + [p[|UpToLastSlash(p)|..]])[..|above|] == above;
    assert Dirname(p) != [] ==> Dirname(p)[0] == p[0];
  }

  // ----- The output file system -----

  datatype Error = NoEntry | Exists | IsDirectory | NoSource | NotAFile | UnsupportedMode | BadArchive(e: Cpio.Error)

  /** Directories, symbolic links, and regular files as names of inodes. */
  datatype FileSystem = FileSystem(
    dirs: set<Spot>, links: map<Spot, Bytes>, files: map<Spot, nat>, inodes: map<nat, Bytes>, next: nat)
  {
    predicate Has(s: Spot) {
      s in dirs || s in links || s in files
    }

    /** What is above a directory is a directory. */
    predicate Closed() {
      forall d :: d in dirs ==> Reached(d)
    }

    predicate Reached(d: Spot) {
      d.names != [] && (|d.names| == 1 || d.Above() in dirs)
    }

    predicate Valid() {
      && (forall i :: i in inodes ==> i < next)
      && (forall s :: s in files ==> files[s] in inodes)
      && (forall d :: d in dirs ==> d !in links && d !in files)
      && Closed()
    }

    /** Every directory above is made first; the root and the current directory are always there. */
    function MakeSpot(s: Spot): Result<FileSystem, Error>
      decreases |s.names|
    {
      if s.names == [] || s in dirs then Ok(this)
      else if s in links || s in files then Err(Exists)
      else
        match MakeSpot(s.Above())
        case Err(e) => Err(e)
        case Ok(fs) => Ok(fs.(dirs := fs.dirs + {s}))
    }

    /** `os.makedirs` with `exist_ok`. */
    function MakeDirs(p: Path): Result<FileSystem, Error> {
      if p == [] then Err(NoEntry) else MakeSpot(SpotOf(p))
    }

    lemma {:induction false} ChainInside(s: Spot)
      requires Closed() && s in dirs
      ensures s.Chain() <= dirs
      decreases |s.names|
    {
      hide Spot.Chain;
      assert Reached(s);
      s.ChainSplits();
      if |s.names| == 1 {
        NoChain(s.Above());
      } else {
        ChainInside(s.Above());
      }
    }

    /** Making a directory succeeds exactly when no file or link is on its path, and then makes just that path. */
    lemma {:induction false} MakeSpotIff(s: Spot)
      requires Valid()
      ensures MakeSpot(s).Ok? <==> forall d :: d in s.Chain() ==> d !in links && d !in files
      ensures MakeSpot(s).Ok? ==> MakeSpot(s).value == this.(dirs := dirs + s.Chain())
      decreases |s.names|
    {
      hide Spot.Chain;
      if s.names == [] {
        NoChain(s);
        assert dirs + {} == dirs;
      } else if s in dirs {
        ChainInside(s);
        assert dirs + s.Chain() == dirs;
      } else {
        MakeSpotIff(s.Above());
        s.ChainSplits();
        assert dirs + s.Above().Chain() + {s} == dirs + s.Chain();
      }
    }

    lemma NoChain(s: Spot)
      requires s.names == []
      ensures s.Chain() == {}
    {
    }

    function Symlink(target: Bytes, p: Path): Result<FileSystem, Error> {
      if p == [] then Err(NoEntry)
      else if Has(SpotOf(p)) || NamesDirectory(p) then Err(Exists)
      else Ok(this.(links := links[SpotOf(p) := target]))
    }

    function Link(src: Path, p: Path): Result<FileSystem, Error> {
      if p == [] then Err(NoEntry)
      else if SpotOf(src) !in files then Err(NoSource)
      else if Has(SpotOf(p)) || NamesDirectory(p) then Err(Exists)
      else Ok(this.(files := files[SpotOf(p) := files[SpotOf(src)]]))
    }

    /** Opening a file for writing keeps its inode when the name is taken. */
    function Write(p: Path, data: Bytes): Result<FileSystem, Error> {
      var s := SpotOf(p);
      if p == [] then Err(NoEntry)
      else if s in dirs || NamesDirectory(p) then Err(IsDirectory)
      else if s in links then Err(NotAFile)
      else if s in files then Ok(this.(inodes := inodes[files[s] := data]))
      else Ok(this.(files := files[s := next], inodes := inodes[next := data], next := next + 1))
    }
  }

  // ----- One archive member -----

  function FileType(mode: nat): nat {
    mode / 0x1000 % 0x10
  }

  predicate IsDir(e: Entry) {
    FileType(e.info.mode) == 4
  }

  predicate IsReg(e: Entry) {
    FileType(e.info.mode) == 8
  }

  predicate IsLnk(e: Entry) {
    FileType(e.info.mode) == 10
  }

  /** A member that goes through the link table, unless it has no name. */
  predicate IsLinked(e: Entry) {
    IsReg(e) && e.info.nlink > 1
  }

  function KeyOf(e: Entry): Key {
    (e.info.dev, e.info.ino)
  }

  /** The contents kept for a link group: the bytes, or a path they were written to. */
  datatype Held = Buffered(data: Bytes) | AtPath(path: Path)

  datatype Slot = Slot(left: int, held: Held)

  type Table = map<Key, Slot>

  datatype Routed = Routed(table: Table, content: Held)

  /** What the link table does with a member, and the contents the member gets. */
  function Route(table: Table, e: Entry, matches: bool, path: Path): Routed {
    if IsLinked(e) then
      var key := KeyOf(e);
      if key in table then
        var slot := table[key];
        var held := if slot.held.Buffered? && matches then AtPath(path) else slot.held;
        Routed(if slot.left == 1 then table - {key} else table[key := Slot(slot.left - 1, held)], slot.held)
      else
        var held := if matches then AtPath(path) else Buffered(e.data);
        Routed(table[key := Slot(e.info.nlink - 1, held)], Buffered(e.data))
    else
      Routed(table, Buffered(e.data))
  }

  /** Creates the file, link or directory for a selected member. */
  function Place(fs: FileSystem, e: Entry, path: Path, content: Held): Result<FileSystem, Error> {
    if IsDir(e) then fs.MakeDirs(path)
    else
      var parent := Dirname(path);
      match if parent == [] then Ok(fs) else fs.MakeDirs(parent)
      case Err(error) => Err(error)
      case Ok(fs) =>
        if IsLnk(e) then fs.Symlink(e.data, path)
        else if IsReg(e) then
          match content
          case AtPath(src) => fs.Link(src, path)
          case Buffered(data) => fs.Write(path, data)
        else Err(UnsupportedMode)
  }

  // ----- The whole extraction -----

  datatype Request = Request(prefix: Path, outDir: Path) {
    predicate Matches(e: Entry) {
      prefix <= e.name
    }

    function Dest(e: Entry): Path
      requires Matches(e)
    {
      Join(outDir, LStrip(e.name[|prefix|..]))
    }

    /** Where a member of this name goes: what follows the prefix, below the output directory. */
    function Target(name: Path): Spot
      requires prefix <= name
    {
      Spot(SpotOf(outDir).rooted, Names(outDir) + Names(name[|prefix|..]))
    }
  }

  lemma {:induction false} LStripKeepsNames(p: Path)
    ensures Names(LStrip(p)) == Names(p) && (LStrip(p) != [] ==> LStrip(p)[0] != SLASH)
  {
    hide Names;
    if p != [] && p[0] == SLASH {
      LStripKeepsNames(p[1..]);
      NamesOfPart([], p[1..]);
      assert p == [] + ([SLASH] + p[1..]) && [] + Names(p[1..]) == Names(p[1..]);
    }
  }

  lemma JoinLeads(a: Path, b: Path)
    requires b != [] ==> b[0] != SLASH
    ensures SpotOf(Join(a, b)) == Spot(SpotOf(a).rooted, Names(a) + Names(b))
  {
    hide Names;
    NoNames();
    if a == [] {
      assert [] + b == b && [] + Names(b) == Names(b);
    } else {
      JoinIs(a, b);
      hide Join;
      var front := if a[|a| - 1] == SLASH then a[..|a| - 1] else a;
      NamesJoin(front, b);
      FrontNames(a);
    }
  }

  /** Between the two parts stands one slash more than the first one ends in, or that one. */
  lemma JoinIs(a: Path, b: Path)
    requires a != [] && (b != [] ==> b[0] != SLASH)
    ensures Join(a, b) == (if a[|a| - 1] == SLASH then a[..|a| - 1] else a) + ([SLASH] + b)
    ensures Join(a, b) != [] && Join(a, b)[0] == a[0]
  {
    if a[|a| - 1] == SLASH {
      assert a == a[..|a| - 1] + [SLASH];
      Assoc(a[..|a| - 1], [SLASH], b);
    } else {
      Assoc(a, [SLASH], b);
    }
  }

  lemma FrontNames(a: Path)
    requires a != []
    ensures Names(if a[|a| - 1] == SLASH then a[..|a| - 1] else a) == Names(a)
  {
    hide Names;
    if a[|a| - 1] == SLASH {
      var front := a[..|a| - 1];
      assert a == front + ([SLASH] + []);
      NamesJoin(front, []);
      NoNames();
      assert Names(front) + [] == Names(front);
    }
  }

  /** The path that is computed for a member leads to its target. */
  lemma DestLeads(q: Request, e: Entry)
    requires q.prefix <= e.name
    ensures q.Matches(e) && SpotOf(q.Dest(e)) == q.Target(e.name)
  {
    hide Names, LStrip, Join, SpotOf;
    var rest := e.name[|q.prefix|..];
    LStripKeepsNames(rest);
    JoinLeads(q.outDir, LStrip(rest));
  }

  lemma {:induction false} LStripEnds(p: Path)
    ensures LStrip(p) == [] <==> forall b :: b in p ==> b == SLASH
    ensures p == [] || NamesDirectory(p) <==> LStrip(p) == [] || NamesDirectory(LStrip(p))
  {
    if p != [] && p[0] == SLASH {
      LStripEnds(p[1..]);
      assert forall b :: b in p <==> b == SLASH || b in p[1..];
      DirectoryBehindSlash(p[1..]);
      assert p == [SLASH] + p[1..];
    } else if p != [] {
      assert p[0] in p;
    }
  }

  lemma DirectoryBehindSlash(p: Path)
    ensures NamesDirectory([SLASH] + p) <==> p == [] || NamesDirectory(p)
  {
  }

  lemma JoinNamesDirectory(a: Path, b: Path)
    requires b != [] ==> b[0] != SLASH
    ensures Join(a, b) == [] <==> a == [] && b == []
    ensures Join(a, b) == [] || NamesDirectory(Join(a, b)) <==> b == [] || NamesDirectory(b)
  {
    if a == [] {
      assert a + b == b;
    } else {
      JoinIs(a, b);
      hide Join, NamesDirectory;
      DirectoryBehindSlash(b);
      SameEnding(if a[|a| - 1] == SLASH then a[..|a| - 1] else a, b);
    }
  }

  lemma SameEnding(a: Path, b: Path)
    ensures NamesDirectory(a + ([SLASH] + b)) <==> NamesDirectory([SLASH] + b)
  {
    var s, t := a + ([SLASH] + b), [SLASH] + b;
    assert s[|s| - 1] == t[|t| - 1] && (b != [] ==> s[|s| - 2] == t[|t| - 2]);
  }

  /** When the path is empty, and when it stands for a directory. */
  lemma DestEnds(q: Request, e: Entry)
    requires q.prefix <= e.name
    ensures var rest := e.name[|q.prefix|..];
      && (q.Dest(e) == [] <==> q.outDir == [] && forall b :: b in rest ==> b == SLASH)
      && (q.Dest(e) == [] || NamesDirectory(q.Dest(e)) <==> rest == [] || NamesDirectory(rest))
  {
    hide NamesDirectory, LStrip, Join, Names;
    var rest := e.name[|q.prefix|..];
    LStripEnds(rest);
    LStripKeepsNames(rest);
    JoinNamesDirectory(q.outDir, LStrip(rest));
  }

  datatype State = State(table: Table, fs: FileSystem, error: Option<Error>)

  /** Creating a selected member, with what a failure leaves behind. */
  function Settle(fs: FileSystem, e: Entry, path: Path, content: Held): (FileSystem, Option<Error>) {
    match Place(fs, e, path, content)
    case Ok(fs') => (fs', None)
    case Err(error) => (PartlyPlaced(fs, e, path), Some(error))
  }

  /** What a member that cannot be created leaves behind: at most its parent directory. */
  function PartlyPlaced(fs: FileSystem, e: Entry, path: Path): FileSystem {
    var parent := Dirname(path);
    if IsDir(e) || parent == [] || fs.MakeDirs(parent).Err? then fs else fs.MakeDirs(parent).value
  }

  function Step(q: Request, st: State, e: Entry): State {
    if st.error.Some? || e.name == [] then st
    else if q.Matches(e) then
      var path := q.Dest(e);
      var routed := Route(st.table, e, true, path);
      var (fs, error) := Settle(st.fs, e, path, routed.content);
      State(routed.table, fs, error)
    else
      State(Route(st.table, e, false, []).table, st.fs, None)
  }

  /** A member whose name does not begin with the prefix leaves all files as they were. */
  lemma OthersLeaveFiles(q: Request, st: State, e: Entry)
    requires !(q.prefix <= e.name)
    ensures Step(q, st, e).fs == st.fs && (st.error.None? ==> Step(q, st, e).error.None?)
  {
  }

  function Run(q: Request, fs: FileSystem, es: seq<Entry>): State {
    if es == [] then State(map[], fs, None)
    else Step(q, Run(q, fs, es[..|es| - 1]), es[|es| - 1])
  }

  /** The extraction of an archive, up to its trailer or to the first error. */
  function Extraction(q: Request, fs: FileSystem, archive: Archive): State {
    var st := Run(q, fs, archive.entries);
    if st.error.None? && archive.end.Err? then st.(error := Some(BadArchive(archive.end.error))) else st
  }
}
