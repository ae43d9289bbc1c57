/** What creating one selected member does to any file system, whatever stands at its place and above. */
module PlacedMembers {
  import opened ByteStrings
  import opened Cpio
  import opened UnpackSdk
  import opened Wrappers

  /** No file and no link stands on the way to a place. */
  predicate WayIsFree(fs: FileSystem, s: Spot)
    requires s.names != []
  {
    forall d :: d in s.Above().Chain() ==> d !in fs.links && d !in fs.files
  }

  /** The data that a name leads to. */
  function Text(fs: FileSystem, s: Spot): Bytes
    requires fs.Valid() && s in fs.files
  {
    fs.inodes[fs.files[s]]
  }

  predicate Shares(fs: FileSystem, s: Spot, t: Spot) {
    s in fs.files && t in fs.files && fs.files[s] == fs.files[t]
  }

  /** A path of a file: not empty, and not one that stands for a directory. */
  predicate IsFilePath(path: Path) {
    path != [] && !NamesDirectory(path)
  }

  lemma SpotBelow(path: Path)
    requires IsFilePath(path)
    ensures var s := SpotOf(path);
      && s.names != [] && s !in s.Above().Chain()
      && (Dirname(path) == [] ==> s.Above().Chain() == {})
      && (Dirname(path) != [] ==> SpotOf(Dirname(path)) == s.Above())
  {
    hide Names, Dirname, NamesDirectory;
    DirnameIsAbove(path);
    NoNames();
    SpotOf(path).ChainAbove();
  }

  /** The directories above a file are made, unless a file or link is in the way. */
  lemma ParentIff(fs: FileSystem, path: Path)
    requires fs.Valid() && IsFilePath(path)
    ensures var r := if Dirname(path) == [] then Ok(fs) else fs.MakeDirs(Dirname(path));
      var s := SpotOf(path);
      && s.names != [] && s !in s.Above().Chain()
      && (r.Ok? <==> WayIsFree(fs, s))
      && (r.Ok? ==> r.value == fs.(dirs := fs.dirs + s.Above().Chain()))
  {
    hide Dirname, SpotOf, Spot.Chain, IsFilePath;
    SpotBelow(path);
    var above := SpotOf(path).Above();
    fs.MakeSpotIff(above);
    if Dirname(path) == [] {
      assert fs.dirs + {} == fs.dirs;
    }
  }

  /**
    A file is written unless a file or link is in its way, or a directory or link at its place. A
    file that is there keeps its links, which all get the data; nothing else changes.
  */
  lemma FileIsWritten(fs: FileSystem, e: Entry, path: Path, data: Bytes)
    requires fs.Valid() && IsReg(e) && IsFilePath(path)
    ensures var r, s := Place(fs, e, path, Buffered(data)), SpotOf(path);
      && s.names != []
      && (r.Ok? <==> WayIsFree(fs, s) && s !in fs.dirs && s !in fs.links)
      && (r.Ok? ==>
            var fs' := r.value;
            && fs'.dirs == fs.dirs + s.Above().Chain() && fs'.links == fs.links
            && fs'.files.Keys == fs.files.Keys + {s} && fs'.files[s] in fs'.inodes
            && fs'.inodes[fs'.files[s]] == data
            && (forall t :: t in fs.files ==>
                  && fs'.files[t] in fs'.inodes
                  && fs'.inodes[fs'.files[t]] == if Shares(fs, s, t) then data else Text(fs, t))
            && (forall t, u :: t in fs.files && u in fs.files ==> (Shares(fs', t, u) <==> Shares(fs, t, u)))
            && (s !in fs.files ==> forall t :: t in fs.files ==> !Shares(fs', s, t)))
  {
    hide Dirname, SpotOf, Spot.Chain, NamesDirectory;
    ParentIff(fs, path);
  }

  /** A hard link needs its source, and a place where nothing stands; then both names share one file. */
  lemma FileIsLinked(fs: FileSystem, e: Entry, path: Path, src: Path)
    requires fs.Valid() && IsReg(e) && IsFilePath(path)
    ensures var r, s := Place(fs, e, path, AtPath(src)), SpotOf(path);
      && s.names != []
      && (r.Ok? <==> WayIsFree(fs, s) && SpotOf(src) in fs.files && !fs.Has(s))
      && (r.Ok? ==>
            var fs' := r.value;
            && fs'.dirs == fs.dirs + s.Above().Chain() && fs'.links == fs.links && fs'.inodes == fs.inodes
            && fs'.files.Keys == fs.files.Keys + {s} && Shares(fs', s, SpotOf(src))
            && (forall t :: t in fs.files ==> fs'.files[t] == fs.files[t]))
  {
    hide Dirname, SpotOf, Spot.Chain, NamesDirectory;
    ParentIff(fs, path);
  }

  /** A symbolic link needs a place where nothing stands, and holds the member's data as its target. */
  lemma LinkIsMade(fs: FileSystem, e: Entry, path: Path, content: Held)
    requires fs.Valid() && IsLnk(e) && IsFilePath(path)
    ensures var r, s := Place(fs, e, path, content), SpotOf(path);
      && s.names != []
      && (r.Ok? <==> WayIsFree(fs, s) && !fs.Has(s))
      && (r.Ok? ==>
            var fs' := r.value;
            && fs'.dirs == fs.dirs + s.Above().Chain() && fs'.files == fs.files && fs'.inodes == fs.inodes
            && fs'.links.Keys == fs.links.Keys + {s} && fs'.links[s] == e.data
            && (forall t :: t in fs.links ==> fs'.links[t] == fs.links[t]))
  {
    hide Dirname, SpotOf, Spot.Chain, NamesDirectory;
    ParentIff(fs, path);
  }
}
