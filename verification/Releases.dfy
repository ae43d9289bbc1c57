/** The releases that incremental updates are made from, found by one scan over the tags. */
module Releases {
  import opened ByteStrings
  import opened Versions

  type Key = (string, string)

  function KeyOf(t: Tag): Key {
    (t.project, Channel(t.version))
  }

  // ----- What is wanted -----

  predicate HasVersion(rs: seq<Tag>, v: Version) {
    exists i :: 0 <= i < |rs| && rs[i].version.v == v.v
  }

  /** The tags of one project and channel, except those of the current version. */
  function Mine(ts: seq<Tag>, cur: Version, key: Key): seq<Tag> {
    if ts == [] then []
    else
      var t := ts[|ts| - 1];
      Mine(ts[..|ts| - 1], cur, key) + (if t.version.v != cur.v && KeyOf(t) == key then [t] else [])
  }

  /** Of each version only the tag that comes first. */
  function Newest(ts: seq<Tag>): seq<Tag> {
    if ts == [] then []
    else
      var rest, t := Newest(ts[..|ts| - 1]), ts[|ts| - 1];
      if HasVersion(rest, t.version) then rest else rest + [t]
  }

  /** The first `n` versions of a key, each with its newest tag. */
  function Wanted(ts: seq<Tag>, cur: Version, n: nat, key: Key): seq<Tag> {
    Front(Newest(Mine(ts, cur, key)), n)
  }

  function Keys(ts: seq<Tag>, cur: Version): set<Key> {
    set t | t in ts && t.version.v != cur.v :: KeyOf(t)
  }

  /** The whole table, for the keys that occur. */
  function Selected(ts: seq<Tag>, cur: Version, n: nat): map<Key, seq<Tag>> {
    map key | key in Keys(ts, cur) :: Wanted(ts, cur, n, key)
  }

  /** The build to prepare: one more than the newest of the current version, if that is not 0. */
  function BuildNumber(ts: seq<Tag>, cur: Version): nat {
    if ts == [] then 1
    else
      var before, t := BuildNumber(ts[..|ts| - 1], cur), ts[|ts| - 1];
      if t.version.v == cur.v && before == 1 then t.build + 1 else before
  }

  /** Whether a tag that follows `ts` is taken. */
  predicate Adds(ts: seq<Tag>, cur: Version, n: nat, t: Tag) {
    var have := Wanted(ts, cur, n, KeyOf(t));
    t.version.v != cur.v && !HasVersion(have, t.version) && |have| != n
  }

  /** How many tags are taken. */
  function Found(ts: seq<Tag>, cur: Version, n: nat): nat {
    if ts == [] then 0
    else
      var init := ts[..|ts| - 1];
      Found(init, cur, n) + (if Adds(init, cur, n, ts[|ts| - 1]) then 1 else 0)
  }

  // ----- One tag more -----

  lemma MineSnoc(ts: seq<Tag>, t: Tag, cur: Version, key: Key)
    ensures Mine(ts + [t], cur, key)
         == Mine(ts, cur, key) + (if t.version.v != cur.v && KeyOf(t) == key then [t] else [])
  {
    assert (ts + [t])[..|ts|] == ts;
  }

  lemma NewestSnoc(ts: seq<Tag>, t: Tag)
    ensures Newest(ts + [t]) == if HasVersion(Newest(ts), t.version) then Newest(ts) else Newest(ts) + [t]
  {
    assert (ts + [t])[..|ts|] == ts;
  }

  lemma KeysSnoc(ts: seq<Tag>, t: Tag, cur: Version)
    ensures Keys(ts + [t], cur) == Keys(ts, cur) + (if t.version.v != cur.v then {KeyOf(t)} else {})
  {
    hide KeyOf;
    forall u | u in ts + [t] && u.version.v != cur.v
      ensures KeyOf(u) in Keys(ts, cur) + (if t.version.v != cur.v then {KeyOf(t)} else {})
    {
      assert u in ts || u == t;
    }
    forall u | u in ts && u.version.v != cur.v
      ensures KeyOf(u) in Keys(ts + [t], cur)
    {
      assert u in ts + [t];
    }
    assert t in ts + [t];
  }

  /** A tag changes only its own list, which it may extend. */
  lemma WantedSnoc(ts: seq<Tag>, t: Tag, cur: Version, n: nat, key: Key)
    ensures Wanted(ts + [t], cur, n, key)
         == if KeyOf(t) == key && Adds(ts, cur, n, t) then Wanted(ts, cur, n, key) + [t] else Wanted(ts, cur, n, key)
  {
    hide Mine, Newest, KeyOf;
    MineSnoc(ts, t, cur, key);
    var all := Newest(Mine(ts, cur, key));
    if t.version.v != cur.v && KeyOf(t) == key {
      NewestSnoc(Mine(ts, cur, key), t);
      if |all| < n {
        assert Front(all, n) == all && Front(all + [t], n) == all + [t];
      } else {
        assert Front(all + [t], n) == Front(all, n);
      }
    } else {
      assert Mine(ts, cur, key) + [] == Mine(ts, cur, key);
    }
  }

  lemma NothingOfAbsentKey(ts: seq<Tag>, cur: Version, n: nat, key: Key)
    requires key !in Keys(ts, cur)
    ensures Wanted(ts, cur, n, key) == []
  {
    hide Newest, KeyOf;
    NoneMine(ts, cur, key);
    assert Newest([]) == [] by { NewestOfNone(); }
  }

  lemma NewestOfNone()
    ensures Newest([]) == []
  {
  }

  lemma {:induction false} NoneMine(ts: seq<Tag>, cur: Version, key: Key)
    requires key !in Keys(ts, cur)
    ensures Mine(ts, cur, key) == []
  {
    hide KeyOf;
    if ts != [] {
      var init, t := ts[..|ts| - 1], ts[|ts| - 1];
      assert ts == init + [t];
      KeysSnoc(init, t, cur);
      NoneMine(init, cur, key);
    }
  }

  /** What a tag of another version does to the table. */
  lemma SelectedSnoc(ts: seq<Tag>, t: Tag, cur: Version, n: nat)
    requires t.version.v != cur.v
    ensures var m := Selected(ts, cur, n);
      Selected(ts + [t], cur, n)
      == m[KeyOf(t) := Wanted(ts, cur, n, KeyOf(t)) + (if Adds(ts, cur, n, t) then [t] else [])]
    ensures Wanted(ts, cur, n, KeyOf(t))
         == if KeyOf(t) in Selected(ts, cur, n) then Selected(ts, cur, n)[KeyOf(t)] else []
  {
    hide Wanted, KeyOf, Adds, Keys;
    KeysSnoc(ts, t, cur);
    forall key | key in Keys(ts + [t], cur)
      ensures Wanted(ts + [t], cur, n, key) ==
        if key == KeyOf(t) then Wanted(ts, cur, n, key) + (if Adds(ts, cur, n, t) then [t] else [])
        else Wanted(ts, cur, n, key)
    {
      WantedSnoc(ts, t, cur, n, key);
    }
    if KeyOf(t) !in Keys(ts, cur) {
      NothingOfAbsentKey(ts, cur, n, KeyOf(t));
    }
  }

  /** A tag of the current version changes nothing in the table. */
  lemma CurrentIsSkipped(ts: seq<Tag>, t: Tag, cur: Version, n: nat)
    requires t.version.v == cur.v
    ensures Selected(ts + [t], cur, n) == Selected(ts, cur, n)
  {
    hide Wanted, KeyOf, Keys;
    KeysSnoc(ts, t, cur);
    forall key | key in Keys(ts, cur)
      ensures Wanted(ts + [t], cur, n, key) == Wanted(ts, cur, n, key)
    {
      WantedSnoc(ts, t, cur, n, key);
      AddsOther(ts, t, cur, n);
    }
  }

  lemma AddsOther(ts: seq<Tag>, t: Tag, cur: Version, n: nat)
    ensures Adds(ts, cur, n, t) ==> t.version.v != cur.v
  {
  }

  lemma FoundSnoc(ts: seq<Tag>, t: Tag, cur: Version, n: nat)
    ensures Found(ts + [t], cur, n) == Found(ts, cur, n) + (if Adds(ts, cur, n, t) then 1 else 0)
  {
    assert (ts + [t])[..|ts|] == ts;
  }

  lemma BuildSnoc(ts: seq<Tag>, t: Tag, cur: Version)
    ensures BuildNumber(ts + [t], cur) ==
      if t.version.v == cur.v && BuildNumber(ts, cur) == 1 then t.build + 1 else BuildNumber(ts, cur)
  {
    assert (ts + [t])[..|ts|] == ts;
  }

  // ----- What the lists mean -----

  predicate Occurs(ts: seq<Tag>, key: Key, v: Version) {
    exists j :: 0 <= j < |ts| && KeyOf(ts[j]) == key && ts[j].version.v == v.v
  }

  /** The tag at `i` counts for the key, and is the first of its version to do so. */
  predicate FirstOfVersion(ts: seq<Tag>, cur: Version, key: Key, i: nat)
    requires i < |ts|
  {
    KeyOf(ts[i]) == key && ts[i].version.v != cur.v && !Occurs(ts[..i], key, ts[i].version)
  }

  lemma FirstsOfInit(ts: seq<Tag>, n: nat, cur: Version, key: Key)
    requires n <= |ts|
    ensures forall i :: 0 <= i < n ==> (FirstOfVersion(ts[..n], cur, key, i) <==> FirstOfVersion(ts, cur, key, i))
  {
    assert forall i :: 0 <= i < n ==> ts[..n][..i] == ts[..i] && ts[..n][i] == ts[i];
  }

  /** The positions of the tags that are first of their version. */
  function Firsts(ts: seq<Tag>, cur: Version, key: Key): (r: seq<nat>)
    ensures forall k :: 0 <= k < |r| ==> r[k] < |ts| && FirstOfVersion(ts, cur, key, r[k])
    ensures forall k, l :: 0 <= k < l < |r| ==> r[k] < r[l]
    ensures forall i :: 0 <= i < |ts| && FirstOfVersion(ts, cur, key, i) ==> i in r
  {
    if ts == [] then []
    else
      var n := |ts| - 1;
      var r := Firsts(ts[..n], cur, key);
      FirstsOfInit(ts, n, cur, key);
      if FirstOfVersion(ts, cur, key, n) then r + [n] else r
  }

  function Pick(ts: seq<Tag>, at: seq<nat>): seq<Tag>
    requires forall k :: 0 <= k < |at| ==> at[k] < |ts|
  {
    seq(|at|, k requires 0 <= k < |at| => ts[at[k]])
  }

  lemma {:induction false} NewestHas(ts: seq<Tag>, v: Version)
    ensures HasVersion(Newest(ts), v) <==> HasVersion(ts, v)
  {
    if ts != [] {
      var n := |ts| - 1;
      NewestHas(ts[..n], v);
      HasSnoc(ts[..n], ts[n], v);
      HasSnoc(Newest(ts[..n]), ts[n], v);
      assert ts == ts[..n] + [ts[n]];
    }
  }

  lemma HasSnoc(ts: seq<Tag>, t: Tag, v: Version)
    ensures HasVersion(ts + [t], v) <==> HasVersion(ts, v) || t.version.v == v.v
  {
    if HasVersion(ts, v) {
      var i :| 0 <= i < |ts| && ts[i].version.v == v.v;
      assert (ts + [t])[i] == ts[i];
    }
    assert (ts + [t])[|ts|] == t;
  }

  lemma OccursSnoc(ts: seq<Tag>, t: Tag, key: Key, v: Version)
    ensures Occurs(ts + [t], key, v) <==> Occurs(ts, key, v) || (KeyOf(t) == key && t.version.v == v.v)
  {
    hide KeyOf;
    if Occurs(ts, key, v) {
      var j :| 0 <= j < |ts| && KeyOf(ts[j]) == key && ts[j].version.v == v.v;
      assert (ts + [t])[j] == ts[j];
    }
    assert (ts + [t])[|ts|] == t;
  }

  lemma {:induction false} MineHas(ts: seq<Tag>, cur: Version, key: Key, v: Version)
    requires v.v != cur.v
    ensures HasVersion(Mine(ts, cur, key), v) <==> Occurs(ts, key, v)
  {
    hide KeyOf, Occurs, Mine, HasVersion;
    if ts == [] {
      NothingMine(cur, key, v);
    } else {
      var init, t := ts[..|ts| - 1], ts[|ts| - 1];
      assert ts == init + [t];
      MineHas(init, cur, key, v);
      MineSnoc(init, t, cur, key);
      HasSnoc(Mine(init, cur, key), t, v);
      OccursSnoc(init, t, key, v);
      assert Mine(init, cur, key) + [] == Mine(init, cur, key);
    }
  }

  lemma NothingMine(cur: Version, key: Key, v: Version)
    ensures !HasVersion(Mine([], cur, key), v) && !Occurs([], key, v)
  {
  }

  /** Whether a tag after `ts` is the first of its version is whether its version is new in the list. */
  lemma NewestMineSnoc(ts: seq<Tag>, t: Tag, cur: Version, key: Key)
    ensures Newest(Mine(ts + [t], cur, key)) == Newest(Mine(ts, cur, key)) +
      (if KeyOf(t) == key && t.version.v != cur.v && !Occurs(ts, key, t.version) then [t] else [])
  {
    hide KeyOf, HasVersion, Occurs, Newest, Mine;
    var mine := Mine(ts, cur, key);
    MineSnoc(ts, t, cur, key);
    if t.version.v != cur.v && KeyOf(t) == key {
      NewestSnoc(mine, t);
      NewestHas(mine, t.version);
      MineHas(ts, cur, key, t.version);
    } else {
      assert mine + [] == mine;
    }
  }

  /** The list of a key is the tags at the first positions of its versions, in order, cut at `n`. */
  lemma {:induction false} WantedAreFirsts(ts: seq<Tag>, cur: Version, n: nat, key: Key)
    ensures Newest(Mine(ts, cur, key)) == Pick(ts, Firsts(ts, cur, key))
    ensures Wanted(ts, cur, n, key) == Front(Pick(ts, Firsts(ts, cur, key)), n)
  {
    if ts != [] {
      hide KeyOf, Occurs, Newest, Mine, Firsts, Pick, Front;
      var m := |ts| - 1;
      var init, t := ts[..m], ts[m];
      assert ts == init + [t] && init == ts[..|ts| - 1];
      WantedAreFirsts(init, cur, n, key);
      NewestMineSnoc(init, t, cur, key);
      PickFirsts(ts, cur, key);
    }
  }

  lemma PickInit(ts: seq<Tag>, m: nat, at: seq<nat>)
    requires m <= |ts| && forall k :: 0 <= k < |at| ==> at[k] < m
    ensures Pick(ts, at) == Pick(ts[..m], at)
  {
  }

  lemma PickSnoc(ts: seq<Tag>, at: seq<nat>, m: nat)
    requires m < |ts| && forall k :: 0 <= k < |at| ==> at[k] < |ts|
    ensures Pick(ts, at + [m]) == Pick(ts, at) + [ts[m]]
  {
  }

  lemma PickFirsts(ts: seq<Tag>, cur: Version, key: Key)
    requires ts != []
    ensures var m := |ts| - 1;
      Pick(ts, Firsts(ts, cur, key))
      == Pick(ts[..m], Firsts(ts[..m], cur, key)) + (if FirstOfVersion(ts, cur, key, m) then [ts[m]] else [])
  {
    hide FirstOfVersion, Pick;
    var m := |ts| - 1;
    var before := Firsts(ts[..m], cur, key);
    PickInit(ts, m, before);
    if FirstOfVersion(ts, cur, key, m) {
      PickSnoc(ts, before, m);
    }
  }

  // ----- Tag names -----

  predicate Readable(names: seq<string>) {
    forall i :: 0 <= i < |names| ==> ParseTag(names[i]).Some?
  }

  function Tags(names: seq<string>): seq<Tag>
    requires Readable(names)
  {
    seq(|names|, i requires 0 <= i < |names| => ParseTag(names[i]).value)
  }

  // ----- Counting -----

  /** The lengths of the lists of some keys, added up. */
  ghost function Sum(keys: set<Key>, m: map<Key, seq<Tag>>): nat
    requires keys <= m.Keys
  {
    if keys == {} then 0
    else
      var key :| key in keys;
      |m[key]| + Sum(keys - {key}, m)
  }

  lemma {:induction false} SumPick(keys: set<Key>, m: map<Key, seq<Tag>>, key: Key)
    requires keys <= m.Keys && key in keys
    ensures Sum(keys, m) == |m[key]| + Sum(keys - {key}, m)
    decreases keys
  {
    var other :| other in keys && Sum(keys, m) == |m[other]| + Sum(keys - {other}, m);
    if other != key {
      SumPick(keys - {other}, m, key);
      SumPick(keys - {key}, m, other);
      assert keys - {other} - {key} == keys - {key} - {other};
    }
  }

  lemma {:induction false} SumSame(keys: set<Key>, m: map<Key, seq<Tag>>, m': map<Key, seq<Tag>>)
    requires keys <= m.Keys && keys <= m'.Keys
    requires forall key :: key in keys ==> m[key] == m'[key]
    ensures Sum(keys, m) == Sum(keys, m')
    decreases keys
  {
    if keys != {} {
      var key :| key in keys;
      SumPick(keys, m, key);
      SumPick(keys, m', key);
      SumSame(keys - {key}, m, m');
    }
  }

  lemma {:induction false} SumBound(keys: set<Key>, m: map<Key, seq<Tag>>, n: nat)
    requires keys <= m.Keys
    requires forall key :: key in keys ==> |m[key]| <= n
    ensures Sum(keys, m) <= n * |keys|
    decreases keys
  {
    if keys != {} {
      var key :| key in keys;
      SumPick(keys, m, key);
      SumBound(keys - {key}, m, n);
      assert n * |keys| == n * (|keys| - 1) + n;
    }
  }

  lemma SumUpdate(m: map<Key, seq<Tag>>, key: Key, list: seq<Tag>)
    ensures var m' := m[key := list];
      Sum(m'.Keys, m') == Sum(m.Keys, m) + |list| - (if key in m then |m[key]| else 0)
  {
    var m' := m[key := list];
    SumPick(m'.Keys, m', key);
    SumSame(m.Keys - {key}, m, m');
    assert m'.Keys - {key} == m.Keys - {key};
    if key in m {
      SumPick(m.Keys, m, key);
    } else {
      assert m.Keys - {key} == m.Keys;
    }
  }

  /** The count kept by the scan is the size of the table. */
  lemma {:induction false} FoundIsSum(ts: seq<Tag>, cur: Version, n: nat)
    ensures Found(ts, cur, n) == Sum(Selected(ts, cur, n).Keys, Selected(ts, cur, n))
  {
    hide Wanted, KeyOf, Adds, Selected, Keys;
    if ts == [] {
      NothingSelected(cur, n);
    } else {
      var init, t := ts[..|ts| - 1], ts[|ts| - 1];
      assert ts == init + [t];
      FoundIsSum(init, cur, n);
      if t.version.v == cur.v {
        CurrentIsSkipped(init, t, cur, n);
        AddsOther(init, t, cur, n);
      } else {
        SelectedSnoc(init, t, cur, n);
        SumUpdate(Selected(init, cur, n), KeyOf(t), Selected(ts, cur, n)[KeyOf(t)]);
      }
    }
  }

  lemma NothingSelected(cur: Version, n: nat)
    ensures Selected([], cur, n) == map[]
  {
  }

  // ----- The early end of the scan -----

  lemma {:induction false} FoundGrows(ts: seq<Tag>, k: nat, cur: Version, n: nat)
    requires k <= |ts|
    ensures Found(ts[..k], cur, n) <= Found(ts, cur, n)
  {
    if k < |ts| {
      assert ts[..|ts| - 1][..k] == ts[..k];
      FoundGrows(ts[..|ts| - 1], k, cur, n);
    } else {
      assert ts[..k] == ts;
    }
  }

  /** A tag that is not taken leaves the table as it was, when something is wanted of each key. */
  lemma NotTaken(ts: seq<Tag>, t: Tag, cur: Version, n: nat)
    requires n > 0 && !Adds(ts, cur, n, t)
    ensures Selected(ts + [t], cur, n) == Selected(ts, cur, n)
  {
    hide Wanted, KeyOf, Selected;
    if t.version.v == cur.v {
      CurrentIsSkipped(ts, t, cur, n);
    } else {
      SelectedSnoc(ts, t, cur, n);
      var have := Wanted(ts, cur, n, KeyOf(t));
      assert have != [] && have + [] == have;
    }
  }

  lemma {:induction false} NoneTaken(ts: seq<Tag>, k: nat, cur: Version, n: nat)
    requires n > 0 && k <= |ts| && Found(ts[..k], cur, n) == Found(ts, cur, n)
    ensures Selected(ts[..k], cur, n) == Selected(ts, cur, n)
  {
    hide Selected, Adds;
    if k < |ts| {
      var init, t := ts[..|ts| - 1], ts[|ts| - 1];
      assert ts == init + [t] && init[..k] == ts[..k];
      FoundGrows(init, k, cur, n);
      NoneTaken(init, k, cur, n);
      NotTaken(init, t, cur, n);
    } else {
      assert ts[..k] == ts;
    }
  }

  /** Stopping after `k` tags loses nothing exactly when nothing is taken after them. */
  lemma StoppingLosesNothingIff(ts: seq<Tag>, k: nat, cur: Version, n: nat)
    requires n > 0 && k <= |ts|
    ensures Selected(ts[..k], cur, n) == Selected(ts, cur, n) <==> Found(ts, cur, n) == Found(ts[..k], cur, n)
  {
    hide Selected, Found;
    FoundIsSum(ts, cur, n);
    FoundIsSum(ts[..k], cur, n);
    if Found(ts, cur, n) == Found(ts[..k], cur, n) {
      NoneTaken(ts, k, cur, n);
    }
  }

  /** What some keys ask for: of each as many versions as there are, but no more than `n`. */
  ghost function WantedCount(keys: set<Key>, ts: seq<Tag>, cur: Version, n: nat): nat {
    if keys == {} then 0
    else
      var key :| key in keys;
      Min(n, |Firsts(ts, cur, key)|) + WantedCount(keys - {key}, ts, cur, n)
  }

  lemma {:induction false} WantedCountIsSum(keys: set<Key>, ts: seq<Tag>, cur: Version, n: nat)
    requires keys <= Keys(ts, cur)
    ensures WantedCount(keys, ts, cur, n) == Sum(keys, Selected(ts, cur, n))
    decreases keys
  {
    hide Wanted, Firsts, Keys;
    if keys != {} {
      var key :| key in keys && WantedCount(keys, ts, cur, n)
        == Min(n, |Firsts(ts, cur, key)|) + WantedCount(keys - {key}, ts, cur, n);
      SumPick(keys, Selected(ts, cur, n), key);
      WantedCountIsSum(keys - {key}, ts, cur, n);
      WantedAreFirsts(ts, cur, n, key);
    }
  }

  /**
    A scan that stopped with 4n releases is complete exactly when all the keys together ask
    for no more than that.
  */
  lemma CompleteIff(ts: seq<Tag>, k: nat, cur: Version, n: nat)
    requires n > 0 && k <= |ts| && Found(ts[..k], cur, n) == 4 * n
    ensures Selected(ts[..k], cur, n) == Selected(ts, cur, n) <==> WantedCount(Keys(ts, cur), ts, cur, n) <= 4 * n
  {
    hide Found, Keys, Wanted;
    FoundIsSum(ts, cur, n);
    WantedCountIsSum(Keys(ts, cur), ts, cur, n);
    assert Selected(ts, cur, n).Keys == Keys(ts, cur);
    FoundGrows(ts, k, cur, n);
    StoppingLosesNothingIff(ts, k, cur, n);
  }

  predicate TwoProjects(ts: seq<Tag>, p: string, q: string) {
    forall i :: 0 <= i < |ts| ==> ts[i].project == p || ts[i].project == q
  }

  lemma AtMostFour(a: Key, b: Key, c: Key, d: Key, keys: set<Key>)
    requires keys <= {a, b, c, d}
    ensures |keys| <= 4
  {
    Smaller(keys, {a, b, c, d});
    Smaller({a, b, c, d}, {a, b, c} + {d});
  }

  lemma {:induction false} Smaller<T>(s: set<T>, t: set<T>)
    requires s <= t
    ensures |s| <= |t|
    decreases s
  {
    if s != {} {
      var x :| x in s;
      Smaller(s - {x}, t - {x});
    }
  }

  /** Tags of two projects have at most four keys, so at most 4n tags are taken. */
  lemma FourKeys(ts: seq<Tag>, cur: Version, n: nat, p: string, q: string)
    requires TwoProjects(ts, p, q)
    ensures Found(ts, cur, n) <= 4 * n
  {
    hide Wanted, Found;
    var m := Selected(ts, cur, n);
    FoundIsSum(ts, cur, n);
    forall key | key in m.Keys
      ensures |m[key]| <= n && key in {(p, "alpha"), (p, "release"), (q, "alpha"), (q, "release")}
    {
      WantedIsShort(ts, cur, n, key);
      var t :| t in ts && KeyOf(t) == key;
    }
    SumBound(m.Keys, m, n);
    AtMostFour((p, "alpha"), (p, "release"), (q, "alpha"), (q, "release"), m.Keys);
    MulMono(n, |m.Keys|, 4);
  }

  lemma WantedIsShort(ts: seq<Tag>, cur: Version, n: nat, key: Key)
    ensures |Wanted(ts, cur, n, key)| <= n
  {
  }

  /** With tags of two projects, stopping once 4n tags are taken loses nothing. */
  lemma EarlyEndIsHarmless(ts: seq<Tag>, k: nat, cur: Version, n: nat, p: string, q: string)
    requires n > 0 && k <= |ts| && TwoProjects(ts, p, q) && Found(ts[..k], cur, n) == 4 * n
    ensures Selected(ts[..k], cur, n) == Selected(ts, cur, n)
  {
    hide Selected, Found;
    FourKeys(ts, cur, n, p, q);
    FoundGrows(ts, k, cur, n);
    StoppingLosesNothingIff(ts, k, cur, n);
  }

  lemma NoKeys(cur: Version)
    ensures Keys([], cur) == {} && Found([], cur, 1) == 0
  {
  }

  lemma NewKeyAdds(ts: seq<Tag>, t: Tag, cur: Version)
    requires t.version.v != cur.v && KeyOf(t) !in Keys(ts, cur)
    ensures Found(ts + [t], cur, 1) == Found(ts, cur, 1) + 1 && Keys(ts + [t], cur) == Keys(ts, cur) + {KeyOf(t)}
  {
    hide Wanted, Found;
    KeysSnoc(ts, t, cur);
    NothingOfAbsentKey(ts, cur, 1, KeyOf(t));
    FoundSnoc(ts, t, cur, 1);
  }

  // ----- The build number -----

  predicate Bumps(t: Tag, cur: Version) {
    t.version.v == cur.v && t.build != 0
  }

  /** The newest tag of the current version decides the build, unless its build is 0. */
  lemma {:induction false} BuildFollowsNewest(ts: seq<Tag>, cur: Version, i: nat)
    requires i <= |ts| && forall j :: 0 <= j < i ==> !Bumps(ts[j], cur)
    ensures i == |ts| ==> BuildNumber(ts, cur) == 1
    ensures i < |ts| && Bumps(ts[i], cur) ==> BuildNumber(ts, cur) == ts[i].build + 1
  {
    if ts != [] {
      var n := |ts| - 1;
      BuildFollowsNewest(ts[..n], cur, if i < n then i else n);
    }
  }

  predicate SomeBumps(ts: seq<Tag>, cur: Version) {
    exists i :: 0 <= i < |ts| && Bumps(ts[i], cur)
  }

  /** The build number is settled by the first tags, or else by those that follow. */
  lemma {:induction false} BuildInParts(ts: seq<Tag>, k: nat, cur: Version)
    requires k <= |ts|
    ensures var first := BuildNumber(ts[..k], cur);
      BuildNumber(ts, cur) == if first != 1 then first else BuildNumber(ts[k..], cur)
  {
    if k < |ts| {
      var n := |ts| - 1;
      var init := ts[..n];
      assert init[..k] == ts[..k] && ts[k..][..n - k] == init[k..];
      BuildInParts(init, k, cur);
    } else {
      assert ts[..k] == ts;
    }
  }

  lemma {:induction false} BuildIsOneIff(ts: seq<Tag>, cur: Version)
    ensures BuildNumber(ts, cur) == 1 <==> !SomeBumps(ts, cur)
  {
    if ts != [] {
      var n := |ts| - 1;
      BuildIsOneIff(ts[..n], cur);
      assert forall i :: 0 <= i < n ==> ts[..n][i] == ts[i];
    }
  }

  /** Stopping early keeps the build number exactly when a tag before bumps it, or none behind does. */
  lemma StoppingKeepsBuildIff(ts: seq<Tag>, k: nat, cur: Version)
    requires k <= |ts|
    ensures BuildNumber(ts[..k], cur) == BuildNumber(ts, cur) <==> SomeBumps(ts[..k], cur) || !SomeBumps(ts[k..], cur)
    ensures BuildNumber(ts, cur) == 1 <==> !SomeBumps(ts[..k], cur) && !SomeBumps(ts[k..], cur)
  {
    hide *;
    BuildInParts(ts, k, cur);
    BuildIsOneIff(ts[..k], cur);
    BuildIsOneIff(ts[k..], cur);
  }
}
