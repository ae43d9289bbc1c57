/** Preparing a release: the fields that the scan over the tags fills in. */
module ReleasePreparation {
  import opened RbmConf
  import opened Releases
  import opened Scanning
  import opened Versions
  import opened Wrappers

  class Preparation {
    const version: Version
    const numIncrementals: nat
    var lastReleases: map<Key, seq<Tag>>
    var buildNumber: nat

    constructor (version: Version, numIncrementals: nat)
      ensures this.version == version && this.numIncrementals == numIncrementals
    {
      this.version, this.numIncrementals := version, numIncrementals;
      lastReleases, buildNumber := map[], 1;
    }

    /** The fields are what the given tags call for. */
    ghost predicate Follows(names: seq<string>)
      reads this
    {
      && Readable(names)
      && lastReleases == Selected(Tags(names), version, numIncrementals)
      && buildNumber == BuildNumber(Tags(names), version)
    }

    /** Every release listed has a version that was read from its text, so equal texts are equal versions. */
    ghost predicate Valid()
      reads this
    {
      forall key :: key in lastReleases ==> AllRead(lastReleases[key])
    }

    /** Whether a list already has a version; the list is walked until it is found. */
    method Known(list: seq<Tag>, x: Version) returns (skip: bool)
      ensures skip <==> HasVersion(list, x)
    {
      for i := 0 to |list|
        invariant forall j :: 0 <= j < i ==> list[j].version.v != x.v
      {
        if list[i].version.v == x.v {
          return true;
        }
      }
      return false;
    }

    /**
      One tag: it is passed over when it is of the version being prepared, or of a version
      already listed; otherwise it may be taken.
    */
    method Consider(t: Tag, ghost ts: seq<Tag>) returns (passed: bool, taken: bool)
      requires lastReleases == Selected(ts, version, numIncrementals)
      requires buildNumber == BuildNumber(ts, version)
      modifies this
      ensures lastReleases == Selected(ts + [t], version, numIncrementals)
      ensures buildNumber == BuildNumber(ts + [t], version)
      ensures passed <==>
        t.version.v == version.v || HasVersion(Wanted(ts, version, numIncrementals, KeyOf(t)), t.version)
      ensures (taken <==> Adds(ts, version, numIncrementals, t)) && (passed ==> !taken)
    {
      hide Selected, Wanted, BuildNumber, HasVersion;
      BuildSnoc(ts, t, version);
      if t.version.v == version.v {
        CurrentIsSkipped(ts, t, version, numIncrementals);
        if buildNumber == 1 {
          buildNumber := t.build + 1;
        }
        return true, false;
      }
      SelectedSnoc(ts, t, version, numIncrementals);
      var key := KeyOf(t);
      if key !in lastReleases {
        lastReleases := lastReleases[key := []];
      }
      ghost var have := Wanted(ts, version, numIncrementals, key);
      assert have + [] == have;
      var skip := Known(lastReleases[key], t.version);
      if skip {
        assert lastReleases == lastReleases[key := have];
        return true, false;
      }
      if |lastReleases[key]| != numIncrementals {
        lastReleases := lastReleases[key := lastReleases[key] + [t]];
        return false, true;
      }
      assert lastReleases == lastReleases[key := have];
      return false, false;
    }

    /**
      `get_last_releases`, given the tag names from newest to oldest. It looks at the
      first `seen` of them, fails at a name it cannot read, and stops when enough is found.
      Stopped before the end, the table is that of all the tags exactly when they ask for no
      more than it holds, which they never do when they are of two projects.
    */
    method GetLastReleases(names: seq<string>) returns (ok: bool, ghost seen: nat)
      modifies this
      ensures seen <= |names| && Follows(names[..seen]) && Valid()
      ensures !ok ==> seen < |names| && ParseTag(names[seen]).None?
      ensures ok && seen < |names| ==> Found(Tags(names[..seen]), version, numIncrementals) == 4 * numIncrementals
      ensures UnderwayUpTo(names, seen, version, numIncrementals)
      ensures ok && numIncrementals > 0 && Readable(names) ==>
        Judged(lastReleases, seen, names, version, numIncrementals)
    {
      hide Judged, Selected, BuildNumber, Found, Adds, HasVersion, ParseTag, Wanted, KeyOf, Tags, UnderwayUpTo;
      lastReleases, buildNumber, seen := map[], 1, 0;
      var numReleases := 0;
      NothingSeen(version, numIncrementals);
      NotYetUnderway(names, version, numIncrementals);
      assert names[..0] == [];
      for i := 0 to |names|
        invariant seen == i && Follows(names[..i])
        invariant numReleases == Found(Tags(names[..i]), version, numIncrementals)
        invariant UnderwayUpTo(names, i, version, numIncrementals)
        invariant numIncrementals > 0 ==> numReleases < 4 * numIncrementals
      {
        var parsed := ParseTag(names[i]);
        if parsed.None? {
          SelectedIsRead(names[..i], version, numIncrementals);
          return false, i;
        }
        UnderwayNext(names, i, version, numIncrementals);
        var t := parsed.value;
        ghost var ts := Tags(names[..i]);
        TagsSnoc(names, i);
        FoundSnoc(ts, t, version, numIncrementals);
        var passed, taken := Consider(t, ts);
        seen := i + 1;
        if passed {
          continue;
        }
        if taken {
          numReleases := numReleases + 1;
        }
        if numReleases == numIncrementals * 4 {
          if numIncrementals > 0 && Readable(names) {
            StoppedWithAll(names, seen, version, numIncrementals);
          }
          SelectedIsRead(names[..seen], version, numIncrementals);
          return true, seen;
        }
      }
      assert names[..|names|] == names;
      if Readable(names) {
        SawAll(names, version, numIncrementals);
      }
      SelectedIsRead(names, version, numIncrementals);
      return true, |names|;
    }

    /** Enters one browser's releases in the dictionary, by version. */
    method Gather(b: string, list: seq<Tag>, order0: seq<Version>, holders0: map<Version, map<string, string>>,
                  ghost tbb: seq<Version>)
      returns (order: seq<Version>, holders: map<Version, map<string, string>>)
      requires b == TBB ==> tbb == []
      requires b in {TBB, MB} && Gathered(order0, holders0, tbb, [])
      ensures
        if b == TBB then Gathered(order, holders, VersionsOf(list), [])
        else Gathered(order, holders, tbb, VersionsOf(list))
    {
      hide Gathered;
      order, holders := order0, holders0;
      assert VersionsOf(list[..0]) == [] && TBB[0] != MB[0];
      for i := 0 to |list|
        invariant
          if b == TBB then Gathered(order, holders, VersionsOf(list[..i]), [])
          else Gathered(order, holders, tbb, VersionsOf(list[..i]))
      {
        var x := list[i].version;
        ghost var seen := VersionsOf(list[..i]);
        assert VersionsOf(list[..i + 1]) == seen + [x];
        AddHolder(order, holders, if b == TBB then seen else tbb, if b == TBB then [] else seen, b, x);
        ghost var next := holders[x := (if x in holders then holders[x] else map[])[b := x.v]];
        if x !in holders {
          order := order + [x];
          holders := holders[x := map[]];
        }
        holders := holders[x := holders[x][b := x.v]];
        assert holders == next;
      }
      assert list[..|list|] == list;
    }

    /** The items of one version: for both browsers at once, or for each that has it. */
    method ItemsFor(x: Version, held: map<string, string>, ghost tbb: seq<Version>, ghost mb: seq<Version>)
      returns (items: seq<string>)
      requires held == Holders(x, tbb, mb) && Plain(x.v)
      ensures items == ItemsOf(x, tbb, mb)
    {
      hide Holders, Plain, Only;
      BothHold(x, tbb, mb);
      NotEmpty(x.v);
      if |held| == 2 {
        return [held[TBB]];
      }
      items := [];
      if TBB in held && held[TBB] != "" {
        items := items + [Only(TBB, held[TBB])];
      }
      if MB in held && held[MB] != "" {
        items := items + [Only(MB, held[MB])];
      }
    }

    /**
      The list part of `update_rbm_conf`; it fails when a browser has no releases in the
      channel. In a build of either browser the list comes to that browser's releases.
    */
    method IncrementalFrom() returns (r: Option<seq<string>>)
      requires Valid()
      ensures r.None? <==>
        (TBB, Channel(version)) !in lastReleases || (MB, Channel(version)) !in lastReleases
      ensures r.Some? ==> forall b :: b in {TBB, MB} ==>
        Serves(r.value, b, VersionsOf(lastReleases[(b, Channel(version))]))
    {
      AreRead();
      hide Serves, Gathered, AllRead, ItemsOf, AllPlain, SortDown, Plain, Holders;
      var channel := Channel(version);
      if (TBB, channel) !in lastReleases {
        return None;
      }
      var order, holders := [], map[];
      ghost var tbb := VersionsOf(lastReleases[(TBB, channel)]);
      NothingGathered();
      order, holders := Gather(TBB, lastReleases[(TBB, channel)], order, holders, []);
      if (MB, channel) !in lastReleases {
        return None;
      }
      ghost var mb := VersionsOf(lastReleases[(MB, channel)]);
      order, holders := Gather(MB, lastReleases[(MB, channel)], order, holders, tbb);
      var sorted := SortDown(order);
      var incrementalFrom := [];
      SortedAreHeld(order, holders, sorted, tbb, mb);
      assert sorted[..0] == [];
      for i := 0 to |sorted|
        invariant incrementalFrom == Items(sorted[..i], tbb, mb)
      {
        assert sorted[..i + 1][..i] == sorted[..i];
        var items := ItemsFor(sorted[i], holders[sorted[i]], tbb, mb);
        incrementalFrom := incrementalFrom + items;
      }
      assert sorted[..|sorted|] == sorted;
      MergeServes(tbb, mb);
      return Some(incrementalFrom);
    }
  }

  /** The scan is not over: not all that could be wanted is found. */
  ghost predicate Underway(names: seq<string>, cur: Version, n: nat) {
    Readable(names) && (n > 0 ==> Found(Tags(names), cur, n) < 4 * n)
  }

  /** The scan was not over before any of the first `k` tags. */
  ghost predicate UnderwayUpTo(names: seq<string>, k: nat, cur: Version, n: nat)
    requires k <= |names|
  {
    forall j :: 0 <= j < k ==> Underway(names[..j], cur, n)
  }

  lemma UnderwayNext(names: seq<string>, k: nat, cur: Version, n: nat)
    requires k < |names| && UnderwayUpTo(names, k, cur, n) && Underway(names[..k], cur, n)
    ensures UnderwayUpTo(names, k + 1, cur, n)
  {
    hide Underway;
  }

  lemma NotYetUnderway(names: seq<string>, cur: Version, n: nat)
    ensures UnderwayUpTo(names, 0, cur, n)
  {
  }

  /** How many releases all the keys of the tags ask for. */
  ghost function Asked(names: seq<string>, cur: Version, n: nat): nat
    requires Readable(names)
  {
    WantedCount(Keys(Tags(names), cur), Tags(names), cur, n)
  }

  /** When a table made from the first `seen` tags is that of all the tags. */
  ghost predicate Judged(m: map<Key, seq<Tag>>, seen: nat, names: seq<string>, cur: Version, n: nat)
    requires Readable(names)
  {
    && (m == Selected(Tags(names), cur, n) <==> seen == |names| || Asked(names, cur, n) <= 4 * n)
    && (forall p, q :: TwoProjects(Tags(names), p, q) ==> m == Selected(Tags(names), cur, n))
  }

  ghost predicate AllRead(list: seq<Tag>) {
    AllPlain(VersionsOf(list)) && forall i :: 0 <= i < |list| ==> IsVersion(list[i].version)
  }

  lemma AreRead()
    ensures forall list :: AllRead(list) ==> AllPlain(VersionsOf(list))
  {
  }

  lemma {:induction false} WantedFrom(ts: seq<Tag>, cur: Version, n: nat, key: Key)
    ensures forall t :: t in Newest(Mine(ts, cur, key)) ==> t in ts
    ensures forall t :: t in Wanted(ts, cur, n, key) ==> t in ts
  {
    hide KeyOf, Occurs, Newest, Mine;
    if ts == [] {
      NothingMine(cur, key);
    } else {
      var init, t := ts[..|ts| - 1], ts[|ts| - 1];
      assert ts == init + [t];
      WantedFrom(init, cur, n, key);
      NewestMineSnoc(init, t, cur, key);
    }
  }

  lemma NothingMine(cur: Version, key: Key)
    ensures Newest(Mine([], cur, key)) == []
  {
  }

  lemma ListIsRead(names: seq<string>, cur: Version, n: nat, key: Key)
    requires Readable(names)
    ensures AllRead(Wanted(Tags(names), cur, n, key))
  {
    hide Wanted, ParseTag, IsVersionChar, IsVersion;
    var list := Wanted(Tags(names), cur, n, key);
    WantedFrom(Tags(names), cur, n, key);
    forall i | 0 <= i < |list|
      ensures Plain(list[i].version.v) && IsVersion(list[i].version)
    {
      assert list[i] in Tags(names);
      var k :| 0 <= k < |names| && list[i] == ParseTag(names[k]).value;
      TagIsRead(list[i]);
    }
  }

  /** What is selected was read from tag names. */
  lemma SelectedIsRead(names: seq<string>, cur: Version, n: nat)
    requires Readable(names)
    ensures var m := Selected(Tags(names), cur, n); forall key :: key in m ==> AllRead(m[key])
  {
    hide Wanted, Keys, AllRead;
    forall key | key in Keys(Tags(names), cur)
      ensures AllRead(Wanted(Tags(names), cur, n, key))
    {
      ListIsRead(names, cur, n, key);
    }
  }

  lemma TagIsRead(t: Tag)
    requires IsVersion(t.version) && All(IsVersionChar, t.version.v)
    ensures Plain(t.version.v)
  {
    hide ParseVersion, IsVersionChar;
    VersionNotEmpty(t.version.v);
  }

  lemma NothingGathered()
    ensures Gathered([], map[], [], [])
  {
  }

  /** The sorted keys are the keys, so each is found in the dictionary. */
  lemma SortedAreHeld(order: seq<Version>, holders: map<Version, map<string, string>>, sorted: seq<Version>,
                      tbb: seq<Version>, mb: seq<Version>)
    requires Gathered(order, holders, tbb, mb) && AllPlain(tbb) && AllPlain(mb) && sorted == SortDown(order)
    ensures sorted == SortDown(Dedup(tbb + mb))
    ensures forall i :: 0 <= i < |sorted| ==>
      sorted[i] in holders && holders[sorted[i]] == Holders(sorted[i], tbb, mb) && Plain(sorted[i].v)
  {
    hide Holders, Plain, SortDown, Dedup;
    SortDownSorts(order);
    DedupKeeps(tbb + mb);
    forall i | 0 <= i < |sorted|
      ensures sorted[i] in holders && Plain(sorted[i].v)
    {
      assert sorted[i] in multiset(sorted);
      assert sorted[i] in order && sorted[i] in tbb + mb;
    }
  }

  lemma NothingSeen(cur: Version, n: nat)
    ensures Readable([]) && Tags([]) == []
    ensures Selected([], cur, n) == map[] && BuildNumber([], cur) == 1 && Found([], cur, n) == 0
  {
  }

  /** One name more is read as one tag more. */
  lemma TagsSnoc(names: seq<string>, i: nat)
    requires i < |names| && Readable(names[..i]) && ParseTag(names[i]).Some?
    ensures Readable(names[..i + 1]) && Tags(names[..i + 1]) == Tags(names[..i]) + [ParseTag(names[i]).value]
  {
    hide ParseTag;
    assert names[..i + 1] == names[..i] + [names[i]];
  }

  /** When the scan stops after `k` names, nothing is missing exactly when no more is asked for. */
  lemma StoppedWithAll(names: seq<string>, k: nat, cur: Version, n: nat)
    requires n > 0 && k <= |names| && Readable(names)
    requires Found(Tags(names[..k]), cur, n) == 4 * n
    ensures Judged(Selected(Tags(names[..k]), cur, n), k, names, cur, n)
  {
    hide Selected, Found, TwoProjects, ParseTag;
    assert Tags(names)[..k] == Tags(names[..k]);
    CompleteIff(Tags(names), k, cur, n);
    if k == |names| {
      assert names[..k] == names;
    }
    forall p, q | TwoProjects(Tags(names), p, q)
      ensures Selected(Tags(names[..k]), cur, n) == Selected(Tags(names), cur, n)
    {
      EarlyEndIsHarmless(Tags(names), k, cur, n, p, q);
    }
  }

  lemma SawAll(names: seq<string>, cur: Version, n: nat)
    requires Readable(names)
    ensures Judged(Selected(Tags(names), cur, n), |names|, names, cur, n)
  {
    hide Selected, ParseTag, Asked;
  }
}
