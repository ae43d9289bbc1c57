/**
  What an extraction leaves in the output directory.  The archive's link groups are
  described independently of the link table: `leader[i]` is the index of the first
  member of member i's group.  When the groups are complete, every selected file holds
  the data of its group's leader and shares its inode with exactly its group.
*/
module HardLinks {
  import opened ByteStrings
  import opened Cpio
  import opened UnpackSdk
  import opened Wrappers

  /** A member that goes through the link table; nameless members are skipped. */
  predicate Linked(e: Entry) {
    e.name != [] && IsLinked(e)
  }

  /** How many of the first `n` members have leader `l`. */
  function Count(leader: seq<nat>, l: nat, n: nat): nat
    requires n <= |leader|
  {
    if n == 0 then 0 else Count(leader, l, n - 1) + (if leader[n - 1] == l then 1 else 0)
  }

  /** An archive to extract, its link groups, and where it goes. */
  datatype Job = Job(q: Request, es: seq<Entry>, leader: seq<nat>, fs0: FileSystem) {

    // ----- Hypotheses -----

    /** Each group has as many members as its link count says, and groups of one key do not overlap. */
    ghost predicate CompleteGroups() {
      && |leader| == |es|
      && (forall i :: 0 <= i < |es| ==> InGroup(i))
      && (forall i, j :: 0 <= i < |es| && 0 <= j < |es| ==> Apart(i, j))
    }

    /** Member `i` belongs to the group of its leader, and that group is complete. */
    ghost predicate InGroup(i: nat)
      requires i < |es| == |leader|
    {
      var l := leader[i];
      && l <= i && leader[l] == l
      && (if Linked(es[i])
          then Linked(es[l]) && KeyOf(es[l]) == KeyOf(es[i]) && es[l].info.nlink == es[i].info.nlink
            && Count(leader, l, |es|) == es[l].info.nlink
          else l == i)
    }

    ghost predicate Apart(i: nat, j: nat)
      requires i < |es| == |leader| && j < |es|
    {
      SameKey(i, j) && leader[i] < leader[j] ==> i < leader[j]
    }

    ghost predicate SameKey(i: nat, j: nat)
      requires i < |es| && j < |es|
    {
      Linked(es[i]) && Linked(es[j]) && KeyOf(es[i]) == KeyOf(es[j])
    }

    /** The members that are created in the output directory. */
    predicate Selected(i: nat)
      requires i < |es|
    {
      es[i].name != [] && q.prefix <= es[i].name
    }

    predicate Regular(i: nat)
      requires i < |es|
    {
      Selected(i) && IsReg(es[i])
    }

    /** The path that the extraction computes for a selected member. */
    function Path(i: nat): Path
      requires i < |es| && Selected(i)
    {
      q.Dest(es[i])
    }

    /** What its name says behind the prefix. */
    function Rest(i: nat): UnpackSdk.Path
      requires i < |es| && Selected(i)
    {
      es[i].name[|q.prefix|..]
    }

    /** The place of a selected member: what its name says behind the prefix, below the output directory. */
    function Place(i: nat): Spot
      requires i < |es| && Selected(i)
    {
      q.Target(es[i].name)
    }

    /** The computed path leads to that place. */
    lemma PathLeads(i: nat)
      requires i < |es| && Selected(i)
      ensures SpotOf(Path(i)) == Place(i)
    {
      DestLeads(q, es[i]);
    }

    /** Selected members have supported types and places of their own, on a clean output directory. */
    ghost predicate CleanPaths() {
      && fs0.Valid()
      && (forall i :: 0 <= i < |es| && Selected(i) ==> q.outDir != [] || exists b :: b in Rest(i) && b != SLASH)
      && (forall i :: 0 <= i < |es| && Selected(i) && !IsDir(es[i]) ==> Rest(i) != [] && !NamesDirectory(Rest(i)))
      && (forall i :: 0 <= i < |es| && Selected(i) ==> IsReg(es[i]) || IsDir(es[i]) || IsLnk(es[i]))
      && (forall i :: 0 <= i < |es| && Selected(i) && !IsDir(es[i]) ==> !fs0.Has(Place(i)))
      && (forall i, j :: 0 <= i < j < |es| && Selected(i) && Selected(j) && !IsDir(es[i]) && !IsDir(es[j]) ==>
            Place(i) != Place(j))
      && (forall d, j :: 0 <= j < |es| && Makes(d, j) ==> d !in fs0.links && d !in fs0.files)
      && (forall i, d, j :: 0 <= i < |es| && 0 <= j < |es| && Selected(i) && !IsDir(es[i]) && Makes(d, j) ==>
            Place(i) != d)
    }

    /** Creating member `j` creates the directory `d`, its own or one above it. */
    ghost predicate Makes(d: Spot, j: nat)
      requires j < |es|
    {
      Selected(j) && d in Place(j).Chain() && (IsDir(es[j]) || d != Place(j))
    }

    // ----- The state after n members -----

    function At(n: nat): State
      requires n <= |es|
    {
      Run(q, fs0, es[..n])
    }

    lemma AtSnoc(n: nat)
      requires n < |es|
      ensures At(n + 1) == Step(q, At(n), es[n])
    {
      assert es[..n + 1][..n] == es[..n];
    }

    /** Group `l` has been met and has members still to come. */
    ghost predicate Open(l: nat, n: nat)
      requires n <= |es| == |leader|
    {
      l < n && Linked(es[l]) && leader[l] == l && Count(leader, l, n) < es[l].info.nlink
    }

    /** What the table keeps for an open group. */
    ghost predicate SlotFor(slot: Slot, l: nat, n: nat)
      requires l < n <= |es| == |leader|
    {
      && slot.left == es[l].info.nlink - Count(leader, l, n)
      && match slot.held
         case Buffered(data) => data == es[l].data && forall i :: 0 <= i < n && leader[i] == l ==> !Regular(i)
         case AtPath(p) => exists i :: 0 <= i < n && leader[i] == l && Regular(i) && p == Path(i)
    }

    ghost predicate Kept(table: Table, l: nat, n: nat)
      requires l < n <= |es| == |leader|
    {
      Open(l, n) ==> KeyOf(es[l]) in table && SlotFor(table[KeyOf(es[l])], l, n)
    }

    ghost predicate Owned(k: Key, n: nat)
      requires n <= |es| == |leader|
    {
      exists l :: 0 <= l < n && Open(l, n) && KeyOf(es[l]) == k
    }

    /** The table has a slot for every open group and for nothing else. */
    ghost predicate TableInv(table: Table, n: nat)
      requires n <= |es| == |leader|
    {
      && (forall l :: 0 <= l < n ==> Kept(table, l, n))
      && (forall k :: k in table ==> Owned(k, n))
    }

    /** What the first `n` members have left in the output directory. */
    ghost predicate FilesInv(fs: FileSystem, n: nat)
      requires n <= |es| == |leader|
    {
      && fs.Valid() && fs0.next <= fs.next
      && (forall i :: 0 <= i < n ==> Created(fs, i))
      && (forall i, j :: 0 <= i < j < n ==> SharesRightly(fs, i, j))
    }

    /** Member `i`, if selected, is in place: a file holds the data of its group's leader. */
    ghost predicate Created(fs: FileSystem, i: nat)
      requires i < |es| == |leader| && fs.Valid()
    {
      Selected(i) ==>
        && (IsReg(es[i]) ==>
              && Place(i) in fs.files && fs.files[Place(i)] >= fs0.next
              && leader[i] < |es| && fs.inodes[fs.files[Place(i)]] == es[leader[i]].data)
        && (IsLnk(es[i]) ==> Place(i) in fs.links && fs.links[Place(i)] == es[i].data)
        && (forall d :: Makes(d, i) ==> d in fs.dirs)
    }

    /** Two files are the same inode exactly when they are of one group. */
    ghost predicate SharesRightly(fs: FileSystem, i: nat, j: nat)
      requires i < |es| == |leader| && j < |es|
    {
      Regular(i) && Regular(j) && Place(i) in fs.files && Place(j) in fs.files ==>
        (fs.files[Place(i)] == fs.files[Place(j)] <==> leader[i] == leader[j])
    }

    /** Everything there is was there before or comes from one of the first `n` members. */
    ghost predicate Accounted(fs: FileSystem, n: nat)
      requires n <= |es|
    {
      && (forall d :: d in fs.dirs ==> d in fs0.dirs || exists i :: 0 <= i < n && Makes(d, i))
      && (forall s :: s in fs.links ==> s in fs0.links || exists i :: 0 <= i < n && LinkAt(s, i))
      && (forall s :: s in fs.files ==> s in fs0.files || exists i :: 0 <= i < n && FileAt(s, i))
    }

    ghost predicate LinkAt(s: Spot, i: nat)
      requires i < |es|
    {
      Selected(i) && IsLnk(es[i]) && s == Place(i)
    }

    ghost predicate FileAt(s: Spot, i: nat)
      requires i < |es|
    {
      Regular(i) && s == Place(i)
    }

    // ----- Counting group members -----

    lemma {:induction false} CountMono(l: nat, m: nat, n: nat)
      requires m <= n <= |leader|
      ensures Count(leader, l, m) <= Count(leader, l, n)
      decreases n - m
    {
      if m < n {
        CountMono(l, m, n - 1);
      }
    }

    lemma {:induction false} CountFinds(l: nat, m: nat, n: nat) returns (i: nat)
      requires m <= n <= |leader| && Count(leader, l, m) < Count(leader, l, n)
      ensures m <= i < n && leader[i] == l
      decreases n - m
    {
      i := n - 1;
      if leader[i] != l {
        i := CountFinds(l, m, n - 1);
      }
    }

    /** A member that is not its group's first finds the group open. */
    lemma JoinsOpen(n: nat)
      requires CompleteGroups() && n < |es| && Linked(es[n]) && leader[n] < n
      ensures Open(leader[n], n)
    {
      var l := leader[n];
      assert InGroup(n);
      CountMono(l, n + 1, |es|);
    }

    lemma OpenHasLater(l: nat, n: nat) returns (m: nat)
      requires CompleteGroups() && n <= |es| && Open(l, n)
      ensures n <= m < |es| && leader[m] == l && Linked(es[m]) && KeyOf(es[m]) == KeyOf(es[l])
    {
      assert InGroup(l);
      m := CountFinds(l, n, |es|);
      assert InGroup(m);
    }

    /** Two open groups never share a key. */
    lemma OneOpen(l: nat, l': nat, n: nat)
      requires CompleteGroups() && n <= |es| && Open(l, n) && Open(l', n) && KeyOf(es[l]) == KeyOf(es[l'])
      ensures l == l'
    {
      var m := OpenHasLater(l, n);
      var m' := OpenHasLater(l', n);
      assert Apart(m, m') && Apart(m', m);
    }

    /** The first member of a group finds no open group with its key. */
    lemma StartsFresh(n: nat, l: nat)
      requires CompleteGroups() && n < |es| && Linked(es[n]) && leader[n] == n && Open(l, n)
      ensures KeyOf(es[l]) != KeyOf(es[n])
    {
      var m := OpenHasLater(l, n);
      assert Apart(m, n);
    }

    // ----- One step of the link table -----

    function Routing(table: Table, n: nat): Routed
      requires n < |es|
    {
      if Selected(n) then Route(table, es[n], true, Path(n)) else Route(table, es[n], false, [])
    }

    /** A member outside group `l` does not change what the table must keep for it. */
    lemma OtherGroup(l: nat, n: nat)
      requires n < |es| == |leader| && l < n && leader[n] != l
      ensures Open(l, n) <==> Open(l, n + 1)
    {
    }

    lemma OtherSlot(slot: Slot, l: nat, n: nat)
      requires n < |es| == |leader| && l < n && leader[n] != l && SlotFor(slot, l, n)
      ensures SlotFor(slot, l, n + 1)
    {
      if slot.held.AtPath? {
        var i :| 0 <= i < n && leader[i] == l && Regular(i) && slot.held.path == Path(i);
        assert i < n + 1;
      }
    }

    /** A slot that is left alone serves the groups other than the one of member `n`. */
    lemma KeptByOthers(table: Table, table': Table, l: nat, n: nat)
      requires n < |es| == |leader| && l < n && leader[n] != l && Kept(table, l, n)
      requires Open(l, n) && KeyOf(es[l]) in table ==>
        KeyOf(es[l]) in table' && table'[KeyOf(es[l])] == table[KeyOf(es[l])]
      ensures Kept(table', l, n + 1)
    {
      OtherGroup(l, n);
      if Open(l, n) {
        OtherSlot(table[KeyOf(es[l])], l, n);
      }
    }

    lemma OwnedStill(k: Key, n: nat)
      requires n < |es| == |leader| && Owned(k, n)
      requires forall l :: 0 <= l < n && Open(l, n) && KeyOf(es[l]) == k ==> leader[n] != l
      ensures Owned(k, n + 1)
    {
      var l :| 0 <= l < n && Open(l, n) && KeyOf(es[l]) == k;
      OtherGroup(l, n);
    }

    lemma SkipKeepsTable(table: Table, n: nat)
      requires CompleteGroups() && n < |es| && TableInv(table, n) && !Linked(es[n])
      ensures TableInv(table, n + 1)
    {
      assert InGroup(n);
      var n' := n + 1;
      forall l | 0 <= l < n'
        ensures Kept(table, l, n')
      {
        if l < n {
          KeptByOthers(table, table, l, n);
        }
      }
      forall k | k in table
        ensures Owned(k, n + 1)
      {
        OwnedStill(k, n);
      }
    }

    lemma {:induction false} NoneBefore(l: nat, n: nat)
      requires CompleteGroups() && n <= l < |es|
      ensures Count(leader, l, n) == 0
      ensures forall i :: 0 <= i < n ==> leader[i] != l
    {
      if n > 0 {
        NoneBefore(l, n - 1);
        assert InGroup(n - 1);
      }
    }

    lemma StartIsNew(table: Table, n: nat)
      requires CompleteGroups() && n < |es| && TableInv(table, n) && Linked(es[n]) && leader[n] == n
      ensures KeyOf(es[n]) !in table
    {
      if KeyOf(es[n]) in table {
        assert Owned(KeyOf(es[n]), n);
        var l :| 0 <= l < n && Open(l, n) && KeyOf(es[l]) == KeyOf(es[n]);
        StartsFresh(n, l);
      }
    }

    lemma StartKeepsTable(table: Table, n: nat)
      requires CompleteGroups() && n < |es| && TableInv(table, n) && Linked(es[n]) && leader[n] == n
      ensures TableInv(Routing(table, n).table, n + 1)
    {
      var table' := Routing(table, n).table;
      StartIsNew(table, n);
      NoneBefore(n, n);
      var n' := n + 1;
      forall l | 0 <= l < n'
        ensures Kept(table', l, n')
      {
        if l < n {
          KeptByOthers(table, table', l, n);
        }
      }
      forall k | k in table'
        ensures Owned(k, n + 1)
      {
        if k == KeyOf(es[n]) {
          assert Open(n, n + 1);
        } else {
          OwnedStill(k, n);
        }
      }
    }

    /** The slot a joining member finds is its own group's. */
    lemma JoinFinds(table: Table, n: nat)
      requires CompleteGroups() && n < |es| && TableInv(table, n) && Linked(es[n]) && leader[n] < n
      ensures KeyOf(es[n]) in table && KeyOf(es[n]) == KeyOf(es[leader[n]]) && Open(leader[n], n)
      ensures SlotFor(table[KeyOf(es[n])], leader[n], n)
    {
      assert InGroup(n);
      JoinsOpen(n);
      assert Kept(table, leader[n], n);
    }

    lemma JoinKeepsSlot(table: Table, n: nat)
      requires CompleteGroups() && n < |es| && TableInv(table, n) && Linked(es[n]) && leader[n] < n
      ensures Kept(Routing(table, n).table, leader[n], n + 1)
      ensures KeyOf(es[n]) in Routing(table, n).table ==> Open(leader[n], n + 1)
    {
      JoinFinds(table, n);
      var l, slot := leader[n], table[KeyOf(es[n])];
      if slot.left != 1 {
        var slot' := Routing(table, n).table[KeyOf(es[n])];
        if slot.held.AtPath? {
          var i :| 0 <= i < n && leader[i] == l && Regular(i) && slot.held.path == Path(i);
          assert i < n + 1;
        } else if Selected(n) {
          assert leader[n] == l && Regular(n) && slot'.held.path == Path(n);
        }
        assert SlotFor(slot', l, n + 1);
      }
    }

    lemma JoinKeepsTable(table: Table, n: nat)
      requires CompleteGroups() && n < |es| && TableInv(table, n) && Linked(es[n]) && leader[n] < n
      ensures TableInv(Routing(table, n).table, n + 1)
    {
      var table' := Routing(table, n).table;
      JoinFinds(table, n);
      JoinKeepsSlot(table, n);
      var n' := n + 1;
      forall l | 0 <= l < n'
        ensures Kept(table', l, n')
      {
        if l < n && l != leader[n] {
          if Open(l, n) && KeyOf(es[l]) == KeyOf(es[n]) {
            OneOpen(l, leader[n], n);
          }
          KeptByOthers(table, table', l, n);
        }
      }
      forall k | k in table'
        ensures Owned(k, n + 1)
      {
        if k != KeyOf(es[n]) {
          OwnedStill(k, n);
        }
      }
    }

    /** The first selected member of a group gets the leader's bytes, the others a path that already has them. */
    ghost predicate RightContent(content: Held, n: nat)
      requires n < |es| == |leader| && leader[n] < |es|
    {
      match content
      case Buffered(data) =>
        data == es[leader[n]].data && forall i :: 0 <= i < n && leader[i] == leader[n] ==> !Regular(i)
      case AtPath(p) => exists i :: 0 <= i < n && leader[i] == leader[n] && Regular(i) && p == Path(i)
    }

    lemma TableStep(table: Table, n: nat)
      requires CompleteGroups() && n < |es| && TableInv(table, n) && es[n].name != []
      ensures leader[n] <= n && TableInv(Routing(table, n).table, n + 1)
      ensures Regular(n) ==> RightContent(Routing(table, n).content, n)
    {
      assert InGroup(n);
      if !Linked(es[n]) {
        SkipKeepsTable(table, n);
        NoneBefore(n, n);
      } else if leader[n] == n {
        StartKeepsTable(table, n);
        StartIsNew(table, n);
        NoneBefore(n, n);
      } else {
        JoinKeepsTable(table, n);
        JoinFinds(table, n);
      }
    }

    // ----- One step of the output directory -----

    /** Ready to create member `n`: its directories exist and its path is free. */
    ghost predicate Ready(fs: FileSystem, n: nat)
      requires n < |es| == |leader| && Selected(n)
    {
      && FilesInv(fs, n) && Accounted(fs, n + 1)
      && Path(n) != []
      && (forall d :: Makes(d, n) ==> d in fs.dirs)
      && (!IsDir(es[n]) ==> !fs.Has(Place(n)) && !NamesDirectory(Path(n)))
    }

    lemma ReadyFacts(fs: FileSystem, n: nat)
      requires n < |es| == |leader| && Selected(n) && Ready(fs, n)
      ensures FilesInv(fs, n) && fs.Valid() && fs0.next <= fs.next && Path(n) != []
      ensures forall d :: Makes(d, n) ==> d in fs.dirs
      ensures !IsDir(es[n]) ==> !fs.Has(Place(n)) && !NamesDirectory(Path(n))
    {
      hide Makes, SpotOf, NamesDirectory, Created, SharesRightly, Accounted;
    }

    lemma AccountedMore(fs: FileSystem, n: nat)
      requires n < |es| && Accounted(fs, n)
      ensures Accounted(fs, n + 1)
    {
    }

    lemma GrowthKeeps(fs: FileSystem, fs': FileSystem, n: nat)
      requires n <= |es| == |leader| && FilesInv(fs, n) && fs'.Valid() && Grows(fs, fs')
      ensures FilesInv(fs', n)
    {
      forall i | 0 <= i < n
        ensures Created(fs', i)
        ensures Regular(i) ==> Place(i) in fs.files
      {
        assert Created(fs, i);
      }
      forall i, j | 0 <= i < j < n
        ensures SharesRightly(fs', i, j)
      {
        assert SharesRightly(fs, i, j);
      }
    }

    /** Nothing is in the way of member `n`. */
    lemma PathIsFree(fs: FileSystem, n: nat)
      requires CleanPaths() && n < |es| && Selected(n) && !IsDir(es[n]) && Accounted(fs, n)
      ensures !fs.Has(Place(n))
    {
      assert !fs0.Has(Place(n));
    }

    lemma DirIsFree(fs: FileSystem, d: Spot, n: nat)
      requires CleanPaths() && n < |es| && Makes(d, n) && Accounted(fs, n)
      ensures d !in fs.links && d !in fs.files
    {
    }

    /** The directories on the way to a path are there. */
    ghost function WithDirs(fs: FileSystem, d: UnpackSdk.Path): FileSystem {
      fs.(dirs := fs.dirs + SpotOf(d).Chain())
    }

    lemma DirsKeepValid(fs: FileSystem, d: UnpackSdk.Path)
      requires fs.Valid() && forall c :: c in SpotOf(d).Chain() ==> c !in fs.links && c !in fs.files
      ensures WithDirs(fs, d).Valid()
    {
      hide SpotOf, Spot.Chain;
      var fs' := WithDirs(fs, d);
      forall c | c in fs'.dirs
        ensures fs'.Reached(c)
      {
        if c in fs.dirs {
          assert fs.Reached(c);
        } else {
          SpotOf(d).ChainIsClosed(c);
        }
      }
    }

    /** The directory that member `n` needs. */
    ghost predicate Needs(d: UnpackSdk.Path, n: nat)
      requires n < |es|
    {
      Selected(n) && d != [] && d == (if IsDir(es[n]) then Path(n) else Dirname(Path(n)))
    }

    /** That directory and those above it are the ones that are made. */
    lemma NeedsIsMakes(d: UnpackSdk.Path, n: nat)
      requires CleanPaths() && n < |es| && Needs(d, n)
      ensures forall c :: c in SpotOf(d).Chain() <==> Makes(c, n)
    {
      PathIsNotEmpty(n);
      PathLeads(n);
      hide CleanPaths, SpotOf, Spot.Chain, Dirname, NamesDirectory;
      if !IsDir(es[n]) {
        DirnameIsAbove(Path(n));
        Place(n).ChainAbove();
      }
    }

    /** A file in the current directory needs none. */
    lemma NeedsNone(n: nat)
      requires CleanPaths() && n < |es| && Selected(n) && !IsDir(es[n]) && Dirname(Path(n)) == []
      ensures forall c :: !Makes(c, n)
    {
      PathIsNotEmpty(n);
      PathLeads(n);
      hide CleanPaths, SpotOf, Dirname, NamesDirectory;
      NoNames();
      DirnameIsAbove(Path(n));
      Place(n).ChainAbove();
      assert Place(n).Above().names == [];
    }

    lemma DirsAreMade(fs: FileSystem, d: UnpackSdk.Path, n: nat)
      requires CleanPaths() && n < |es| && Needs(d, n) && fs.Valid() && Accounted(fs, n)
      ensures fs.MakeDirs(d) == Ok(WithDirs(fs, d))
      ensures WithDirs(fs, d).Valid() && Accounted(WithDirs(fs, d), n + 1) && Grows(fs, WithDirs(fs, d))
      ensures forall c :: Makes(c, n) ==> c in WithDirs(fs, d).dirs
    {
      hide CleanPaths, Accounted, FileSystem.Valid, FileSystem.MakeSpot, Spot.Chain, SpotOf, Makes;
      NeedsIsMakes(d, n);
      forall c | c in SpotOf(d).Chain()
        ensures c !in fs.links && c !in fs.files
      {
        DirIsFree(fs, c, n);
      }
      fs.MakeSpotIff(SpotOf(d));
      DirsKeepValid(fs, d);
      DirsAccounted(fs, d, n);
    }

    lemma DirsAccounted(fs: FileSystem, d: UnpackSdk.Path, n: nat)
      requires CleanPaths() && n < |es| && Accounted(fs, n) && Needs(d, n)
      ensures Accounted(WithDirs(fs, d), n + 1)
    {
      NeedsIsMakes(d, n);
      hide CleanPaths, Spot.Chain, SpotOf, LinkAt, FileAt, Makes;
      AccountedMore(fs, n);
    }

    lemma MakeDirs(fs: FileSystem, d: UnpackSdk.Path, n: nat)
      requires CleanPaths() && n < |es| == |leader| && FilesInv(fs, n) && Accounted(fs, n) && Needs(d, n)
      ensures fs.MakeDirs(d).Ok? && Grows(fs, fs.MakeDirs(d).value) && Ready(fs.MakeDirs(d).value, n)
    {
      assert fs.Valid() && Selected(n);
      hide *;
      DirsAreMade(fs, d, n);
      GrowthKeeps(fs, WithDirs(fs, d), n);
      NowReady(fs, d, n);
    }

    lemma NowReady(fs: FileSystem, d: UnpackSdk.Path, n: nat)
      requires CleanPaths() && n < |es| == |leader| && Needs(d, n) && Accounted(fs, n)
      requires FilesInv(WithDirs(fs, d), n) && Accounted(WithDirs(fs, d), n + 1)
      requires forall c :: Makes(c, n) ==> c in WithDirs(fs, d).dirs
      ensures Selected(n) && Ready(WithDirs(fs, d), n)
    {
      PathIsNotEmpty(n);
      NeedsIsMakes(d, n);
      assert !IsDir(es[n]) ==> !Makes(Place(n), n);
      hide CleanPaths, FilesInv, Accounted, Makes, SpotOf, Spot.Chain, NamesDirectory, Request.Target;
      if !IsDir(es[n]) {
        PathIsFree(fs, n);
      }
    }

    lemma PathIsNotEmpty(n: nat)
      requires CleanPaths() && n < |es| && Selected(n)
      ensures Path(n) != [] && (!IsDir(es[n]) ==> !NamesDirectory(Path(n)))
    {
      hide Makes, SpotOf, NamesDirectory, Request.Dest, Request.Target;
      DestEnds(q, es[n]);
    }

    /** A member has been added next to what was there. */
    lemma OneMore(fs: FileSystem, n: nat)
      requires n < |es| == |leader| && FilesInv(fs, n) && Created(fs, n)
      requires forall i :: 0 <= i < n ==> SharesRightly(fs, i, n)
      ensures FilesInv(fs, n + 1)
    {
      hide Created, SharesRightly, FileSystem.Valid;
    }

    lemma CreateDir(fs: FileSystem, n: nat)
      requires n < |es| == |leader| && Selected(n) && IsDir(es[n]) && Ready(fs, n)
      ensures FilesInv(fs, n + 1) && Accounted(fs, n + 1)
    {
      OneMore(fs, n);
    }

    lemma CreateSymlink(fs: FileSystem, n: nat)
      requires n < |es| == |leader| && Selected(n) && IsLnk(es[n]) && Ready(fs, n)
      ensures var r := fs.Symlink(es[n].data, Path(n));
        r.Ok? && Grows(fs, r.value) && FilesInv(r.value, n + 1) && Accounted(r.value, n + 1)
    {
      hide SpotOf, NamesDirectory, Makes, Request.Target;
      PathLeads(n);
      var fs' := fs.Symlink(es[n].data, Path(n)).value;
      assert LinkAt(Place(n), n);
      GrowthKeeps(fs, fs', n);
      OneMore(fs', n);
    }

    /** The new file of member `n`. */
    ghost function WithFile(fs: FileSystem, n: nat, data: Bytes): FileSystem
      requires n < |es| && Selected(n)
    {
      fs.(files := fs.files[Place(n) := fs.next], inodes := fs.inodes[fs.next := data], next := fs.next + 1)
    }

    lemma FileIsMade(fs: FileSystem, n: nat, data: Bytes)
      requires n < |es| == |leader| && leader[n] < |es| && Regular(n) && Ready(fs, n)
      requires data == es[leader[n]].data
      ensures Place(n) !in fs.files && fs.Write(Path(n), data) == Ok(WithFile(fs, n, data))
      ensures var fs' := WithFile(fs, n, data); fs'.Valid() && Grows(fs, fs') && Created(fs', n)
    {
      hide FilesInv, Accounted, Makes, SpotOf, NamesDirectory, Request.Target;
      PathLeads(n);
      ReadyFacts(fs, n);
      hide Ready;
    }

    lemma FileAccounted(fs: FileSystem, n: nat, data: Bytes)
      requires n < |es| && Regular(n) && Accounted(fs, n + 1)
      ensures Accounted(WithFile(fs, n, data), n + 1)
    {
      hide SpotOf, Makes, LinkAt;
      assert FileAt(Place(n), n);
    }

    lemma FileShares(fs: FileSystem, n: nat, data: Bytes, i: nat)
      requires n < |es| == |leader| && i < n && Regular(n) && FilesInv(fs, n) && Place(n) !in fs.files
      requires Regular(i) ==> leader[i] != leader[n]
      ensures SharesRightly(WithFile(fs, n, data), i, n)
    {
      hide SpotOf;
      assert Created(fs, i);
    }

    lemma CreateFile(fs: FileSystem, n: nat, data: Bytes)
      requires n < |es| == |leader| && leader[n] < |es| && Regular(n) && Ready(fs, n)
      requires RightContent(Buffered(data), n)
      ensures var r := fs.Write(Path(n), data);
        r.Ok? && Grows(fs, r.value) && FilesInv(r.value, n + 1) && Accounted(r.value, n + 1)
    {
      FileIsMade(fs, n, data);
      assert FilesInv(fs, n) && Accounted(fs, n + 1);
      assert forall i :: 0 <= i < n && Regular(i) ==> leader[i] != leader[n];
      hide *;
      var fs' := WithFile(fs, n, data);
      FileAccounted(fs, n, data);
      GrowthKeeps(fs, fs', n);
      forall i | 0 <= i < n
        ensures SharesRightly(fs', i, n)
      {
        FileShares(fs, n, data, i);
      }
      OneMore(fs', n);
    }

    /** A link to the file of member `m` shares an inode with whatever that file does. */
    lemma LinkShares(fs: FileSystem, n: nat, m: nat, i: nat)
      requires n < |es| == |leader| && m < n && i < n && leader[m] == leader[n] && Regular(n) && Regular(m)
      requires FilesInv(fs, n) && Place(m) in fs.files && Place(n) !in fs.files
      ensures SharesRightly(WithLink(fs, n, m), i, n)
    {
      hide SpotOf, Request.Target, FileSystem.Valid;
      assert Created(fs, i);
      if i < m {
        assert SharesRightly(fs, i, m);
      } else if m < i {
        assert SharesRightly(fs, m, i);
      }
    }

    /** The link of member `n` to the file of member `m`. */
    ghost function WithLink(fs: FileSystem, n: nat, m: nat): FileSystem
      requires n < |es| && m < |es| && Selected(n) && Selected(m) && Place(m) in fs.files
    {
      fs.(files := fs.files[Place(n) := fs.files[Place(m)]])
    }

    lemma LinkIsMade(fs: FileSystem, n: nat, m: nat)
      requires n < |es| == |leader| && leader[n] < |es| && Regular(n) && Ready(fs, n)
      requires m < n && leader[m] == leader[n] && Regular(m)
      ensures Place(m) in fs.files && fs.Link(Path(m), Path(n)) == Ok(WithLink(fs, n, m))
      ensures var fs' := WithLink(fs, n, m); fs'.Valid() && Grows(fs, fs') && Created(fs', n)
      ensures Place(n) !in fs.files
    {
      hide FilesInv, Accounted, Makes, SpotOf, NamesDirectory, Request.Target;
      PathLeads(n);
      PathLeads(m);
      ReadyFacts(fs, n);
      hide Ready;
      FileIsThere(fs, n, m);
    }

    lemma FileIsThere(fs: FileSystem, n: nat, m: nat)
      requires m < n <= |es| == |leader| && FilesInv(fs, n) && Regular(m)
      ensures Place(m) in fs.files && fs.files[Place(m)] >= fs0.next && fs.Valid()
      ensures leader[m] < |es| && fs.inodes[fs.files[Place(m)]] == es[leader[m]].data
    {
      hide Makes, SpotOf, SharesRightly;
      assert Created(fs, m);
    }

    lemma CreateLink(fs: FileSystem, n: nat, src: UnpackSdk.Path)
      requires n < |es| == |leader| && leader[n] < |es| && Regular(n) && Ready(fs, n)
      requires RightContent(AtPath(src), n)
      ensures var r := fs.Link(src, Path(n));
        r.Ok? && Grows(fs, r.value) && FilesInv(r.value, n + 1) && Accounted(r.value, n + 1)
    {
      var m :| 0 <= m < n && leader[m] == leader[n] && Regular(m) && src == Path(m);
      LinkIsMade(fs, n, m);
      assert FilesInv(fs, n) && Accounted(fs, n + 1);
      hide *;
      var fs' := WithLink(fs, n, m);
      LinkAccounted(fs, n, m);
      GrowthKeeps(fs, fs', n);
      forall i | 0 <= i < n
        ensures SharesRightly(fs', i, n)
      {
        LinkShares(fs, n, m, i);
      }
      OneMore(fs', n);
    }

    lemma LinkAccounted(fs: FileSystem, n: nat, m: nat)
      requires n < |es| == |leader| && Regular(n) && Accounted(fs, n + 1)
      requires m < n && Regular(m) && Place(m) in fs.files
      ensures Accounted(WithLink(fs, n, m), n + 1)
    {
      hide SpotOf, Makes, LinkAt;
      assert FileAt(Place(n), n);
    }

    /** What is behind the directories of a member that is none itself. */
    function Behind(fs: FileSystem, n: nat, content: Held): Result<FileSystem, UnpackSdk.Error>
      requires n < |es| && Selected(n)
    {
      if IsLnk(es[n]) then fs.Symlink(es[n].data, Path(n))
      else if IsReg(es[n]) then
        match content
        case AtPath(src) => fs.Link(src, Path(n))
        case Buffered(data) => fs.Write(Path(n), data)
      else Err(UnsupportedMode)
    }

    lemma PlaceParts(fs: FileSystem, n: nat, content: Held, fs1: FileSystem)
      requires n < |es| && Selected(n) && !IsDir(es[n])
      requires if Dirname(Path(n)) == [] then fs1 == fs else fs.MakeDirs(Dirname(Path(n))) == Ok(fs1)
      ensures UnpackSdk.Place(fs, es[n], Path(n), content) == Behind(fs1, n, content)
    {
      hide IsDir, IsReg, IsLnk, Dirname, FileSystem.MakeDirs, FileSystem.Symlink, FileSystem.Link, FileSystem.Write;
    }

    lemma MakeParent(fs: FileSystem, n: nat) returns (fs1: FileSystem)
      requires CleanPaths() && n < |es| == |leader| && Selected(n) && !IsDir(es[n])
      requires FilesInv(fs, n) && Accounted(fs, n)
      ensures if Dirname(Path(n)) == [] then fs1 == fs else fs.MakeDirs(Dirname(Path(n))) == Ok(fs1)
      ensures Grows(fs, fs1) && Ready(fs1, n)
    {
      hide CleanPaths, FilesInv, Accounted, SpotOf, Dirname, NamesDirectory, Makes, Request.Target, Request.Dest,
        FileSystem.MakeDirs;
      fs1 := fs;
      var parent := Dirname(Path(n));
      if parent == [] {
        PathIsNotEmpty(n);
        AccountedMore(fs, n);
        PathIsFree(fs, n);
        NeedsNone(n);
      } else {
        MakeDirs(fs, parent, n);
        fs1 := fs.MakeDirs(parent).value;
      }
    }

    lemma FillPlace(fs: FileSystem, n: nat, content: Held)
      requires CleanPaths() && n < |es| == |leader| && leader[n] < |es| && Selected(n) && !IsDir(es[n])
      requires Ready(fs, n) && (Regular(n) ==> RightContent(content, n))
      ensures var r := Behind(fs, n, content);
        r.Ok? && Grows(fs, r.value) && FilesInv(r.value, n + 1) && Accounted(r.value, n + 1)
    {
      assert IsReg(es[n]) || IsLnk(es[n]);
      hide CleanPaths, Ready, FilesInv, Accounted, RightContent, IsDir, IsReg, IsLnk, Grows, Request.Dest,
        FileSystem.Symlink, FileSystem.Link, FileSystem.Write;
      if IsLnk(es[n]) {
        CreateSymlink(fs, n);
      } else {
        match content {
          case Buffered(data) => CreateFile(fs, n, data);
          case AtPath(src) => CreateLink(fs, n, src);
        }
      }
    }

    lemma PlaceStep(fs: FileSystem, n: nat, content: Held)
      requires CleanPaths() && n < |es| == |leader| && leader[n] < |es| && Selected(n)
      requires FilesInv(fs, n) && Accounted(fs, n)
      requires Regular(n) ==> RightContent(content, n)
      ensures var r := UnpackSdk.Place(fs, es[n], Path(n), content);
        r.Ok? && Grows(fs, r.value) && FilesInv(r.value, n + 1) && Accounted(r.value, n + 1)
    {
      hide *;
      if IsDir(es[n]) {
        DirPlace(fs, n, content);
        NeedsItself(n);
        MakeDirs(fs, Path(n), n);
        CreateDir(fs.MakeDirs(Path(n)).value, n);
      } else {
        var fs1 := MakeParent(fs, n);
        PlaceParts(fs, n, content, fs1);
        FillPlace(fs1, n, content);
        GrowsOn(fs, fs1, Behind(fs1, n, content).value);
      }
    }

    lemma DirPlace(fs: FileSystem, n: nat, content: Held)
      requires n < |es| && Selected(n) && IsDir(es[n])
      ensures UnpackSdk.Place(fs, es[n], Path(n), content) == fs.MakeDirs(Path(n))
    {
    }

    lemma NeedsItself(n: nat)
      requires CleanPaths() && n < |es| && Selected(n) && IsDir(es[n])
      ensures Needs(Path(n), n)
    {
      PathIsNotEmpty(n);
    }

    // ----- Whole extractions -----

    /** What holds after the first `n` members. */
    ghost predicate Inv(st: State, n: nat)
      requires n <= |es| == |leader|
    {
      st.error == None && TableInv(st.table, n) && FilesInv(st.fs, n) && Accounted(st.fs, n) && Grows(fs0, st.fs)
    }

    lemma SkipStep(fs: FileSystem, n: nat)
      requires n < |es| == |leader| && FilesInv(fs, n) && Accounted(fs, n) && !Selected(n)
      ensures FilesInv(fs, n + 1) && Accounted(fs, n + 1)
    {
      AccountedMore(fs, n);
      OneMore(fs, n);
    }

    lemma StepKeepsInv(st: State, n: nat)
      requires CompleteGroups() && CleanPaths() && n < |es| && Inv(st, n)
      ensures Inv(Step(q, st, es[n]), n + 1)
    {
      if es[n].name == [] {
        SkipKeepsTable(st.table, n);
        SkipStep(st.fs, n);
      } else {
        TableStep(st.table, n);
        if Selected(n) {
          PlaceStep(st.fs, n, Routing(st.table, n).content);
        } else {
          SkipStep(st.fs, n);
        }
      }
    }

    lemma StartInv()
      requires |leader| == |es| && fs0.Valid()
      ensures Inv(At(0), 0)
    {
      assert es[..0] == [];
    }

    lemma {:induction false} RunKeepsInv(n: nat)
      requires CompleteGroups() && CleanPaths() && n <= |es|
      ensures Inv(At(n), n)
    {
      assert |leader| == |es| && fs0.Valid();
      hide *;
      if n == 0 {
        StartInv();
      } else {
        RunKeepsInv(n - 1);
        AtSnoc(n - 1);
        StepKeepsInv(At(n - 1), n - 1);
      }
    }
  }

  /** The promised outcome of a job: every selected member is in place, and nothing else changed. */
  ghost predicate Extracted(job: Job, fs: FileSystem)
    requires |job.leader| == |job.es|
  {
    && fs.Valid()
    && (forall i :: 0 <= i < |job.es| ==> job.Created(fs, i))
    && (forall i, j :: 0 <= i < j < |job.es| ==> job.SharesRightly(fs, i, j))
    && Grows(job.fs0, fs) && job.Accounted(fs, |job.es|)
  }

  /**
    The extraction of complete link groups to a clean directory succeeds, puts the
    leader's data in place for every selected member, whatever data the members carry,
    makes files of one group one inode, and leaves the link table empty.
  */
  lemma ExtractionCorrect(job: Job)
    requires job.CompleteGroups() && job.CleanPaths()
    ensures var st := Run(job.q, job.fs0, job.es);
      st.error == None && st.table == map[] && Extracted(job, st.fs)
  {
    var n := |job.es|;
    job.RunKeepsInv(n);
    assert job.es[..n] == job.es;
    var table := job.At(n).table;
    forall k | k in table
      ensures false
    {
      assert job.Owned(k, n);
      var l :| 0 <= l < n && job.Open(l, n) && KeyOf(job.es[l]) == k;
      var m := job.OpenHasLater(l, n);
    }
  }

  /**
    Each selected member stands at the place its name says, below the output directory: a
    file with its group's data, a link with its target, or a directory.
  */
  lemma MemberLands(job: Job, i: nat, rest: Bytes)
    requires job.CompleteGroups() && job.CleanPaths() && i < |job.es|
    requires job.es[i].name != [] && job.es[i].name == job.q.prefix + rest
    ensures var outDir, fs := job.q.outDir, Run(job.q, job.fs0, job.es).fs;
      var s :=
        if outDir == [] then Spot(false, Names(rest)) else Spot(outDir[0] == SLASH, Names(outDir) + Names(rest));
      && fs.Valid() && job.leader[i] < |job.es|
      && (IsReg(job.es[i]) ==> s in fs.files && fs.inodes[fs.files[s]] == job.es[job.leader[i]].data)
      && (IsLnk(job.es[i]) ==> s in fs.links && fs.links[s] == job.es[i].data)
      && (IsDir(job.es[i]) ==> s.names == [] || s in fs.dirs)
  {
    hide Names, Job.CleanPaths, Run;
    ExtractionCorrect(job);
    NoNames();
    assert job.es[i].name[|job.q.prefix|..] == rest && [] + Names(rest) == Names(rest);
    assert job.InGroup(i) && job.Created(Run(job.q, job.fs0, job.es).fs, i);
    var s := job.Place(i);
    if s.names != [] {
      assert s.names[..|s.names|] == s.names;
      assert IsDir(job.es[i]) ==> job.Makes(s, i);
    }
  }

  /** While groups are open, each slot counts the members of its group still to come: at least one. */
  lemma LiveCounts(job: Job, n: nat, k: Key) returns (l: nat)
    requires job.CompleteGroups() && job.CleanPaths() && n <= |job.es| && k in job.At(n).table
    ensures l < n && Linked(job.es[l]) && KeyOf(job.es[l]) == k && job.leader[l] == l
    ensures job.At(n).table[k].left == job.es[l].info.nlink - Count(job.leader, l, n) >= 1
    ensures Count(job.leader, l, n) >= 1
  {
    job.RunKeepsInv(n);
    assert job.Owned(k, n);
    l :| 0 <= l < n && job.Open(l, n) && KeyOf(job.es[l]) == k;
    assert job.Kept(job.At(n).table, l, n);
    job.CountMono(l, l + 1, n);
    hide Job.At;
  }

  /** On any stream at all, a slot is dropped before its count reaches zero. */
  lemma {:induction false} CountsStayPositive(q: UnpackSdk.Request, fs: FileSystem, es: seq<Entry>)
    ensures forall k :: k in Run(q, fs, es).table ==> Run(q, fs, es).table[k].left >= 1
  {
    if es != [] {
      CountsStayPositive(q, fs, es[..|es| - 1]);
    }
  }

  /** Nothing that exists is changed. */
  ghost predicate Grows(fs: FileSystem, fs': FileSystem) {
    && fs.dirs <= fs'.dirs && fs.next <= fs'.next
    && (forall s :: s in fs.links ==> s in fs'.links && fs'.links[s] == fs.links[s])
    && (forall s :: s in fs.files ==> s in fs'.files && fs'.files[s] == fs.files[s])
    && (forall k :: k in fs.inodes ==> k in fs'.inodes && fs'.inodes[k] == fs.inodes[k])
  }

  lemma GrowsOn(a: FileSystem, b: FileSystem, c: FileSystem)
    requires Grows(a, b) && Grows(b, c)
    ensures Grows(a, c)
  {
  }
}
