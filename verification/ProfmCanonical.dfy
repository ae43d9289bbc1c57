/** What sorting a profile achieves: a canonical form that reads back as the same records. */
module ProfmCanonical {
  import opened ByteOrder
  import opened ByteStrings
  import opened Profm
  import Sorting
  import opened Wrappers

  // ----- Well-formed records -----

  function KeySize(b: Bytes): nat
    requires |b| >= 4
  {
    Le16(b[2..4])
  }

  /** The length a record says it has. */
  function Need(b: Bytes): nat
    requires |b| >= 10 && |b| >= 10 + KeySize(b)
  {
    10 + KeySize(b) + 2 * Le16(b[8 + KeySize(b)..10 + KeySize(b)])
  }

  /** A record with its key, whose class ids may fall short. */
  predicate Formed(p: Pair) {
    && |p.bytes| >= 10 && |p.bytes| >= 10 + KeySize(p.bytes)
    && p.key == p.bytes[4..4 + KeySize(p.bytes)]
    && |p.bytes| <= Need(p.bytes)
  }

  predicate Whole(p: Pair) {
    Formed(p) && |p.bytes| == Need(p.bytes)
  }

  /** The parts a formed record is made of: up to its key, the two counts, the class ids. */
  lemma FormedParts(b: Bytes, n: nat, rest: Bytes)
    requires |b| >= 10 + n
    ensures var after := Back((b + rest)[4..], n);
      && (b + rest)[2..4] == b[2..4] && (b + rest)[..4] == b[..4]
      && Front((b + rest)[4..], n) == b[4..4 + n]
      && |after| >= 6 && after[..6] == b[4 + n..10 + n] && after[4..6] == b[8 + n..10 + n]
      && after[6..] == b[10 + n..] + rest
  {
    SliceOfFront(b, rest, 2, 4);
    SliceOfFront(b, rest, 0, 4);
    DropOfFront(b, rest, 4);
    var body := (b + rest)[4..];
    SliceOfFront(b[4..], rest, 0, n);
    SliceOfSlice(b, 4, 0, n);
    DropOfFront(b[4..], rest, n);
    var after := Back(body, n);
    assert b[4..][n..] == b[4 + n..];
    SliceOfFront(b[4 + n..], rest, 0, 6);
    SliceOfSlice(b, 4 + n, 0, 6);
    SliceOfFront(b[4 + n..], rest, 4, 6);
    SliceOfSlice(b, 4 + n, 4, 6);
    DropOfFront(b[4 + n..], rest, 6);
    assert b[4 + n..][6..] == b[10 + n..];
  }

  /** Class ids that fall short by `lack` are filled up with what follows. */
  lemma FillClassIds(ids: Bytes, rest: Bytes, lack: nat)
    ensures Front(ids + rest, |ids| + lack) == ids + Front(rest, lack)
    ensures Back(ids + rest, |ids| + lack) == Back(rest, lack)
  {
  }

  lemma JoinParts(b: Bytes, n: nat, x: Bytes)
    requires |b| >= 10 + n
    ensures b[..4] + (b[4..4 + n] + b[4 + n..10 + n]) + (b[10 + n..] + x) == b + x
  {
    assert b[..4] + (b[4..4 + n] + b[4 + n..10 + n]) == b[..10 + n];
    Assoc(b[..10 + n], b[10 + n..], x);
    assert b == b[..10 + n] + b[10 + n..];
  }

  /** Parsing a record that is followed by other data takes as much of it as the record lacks. */
  lemma ParseFormed(p: Pair, rest: Bytes)
    requires Formed(p)
    ensures var lack := Need(p.bytes) - |p.bytes|;
      ParseRecord(p.bytes + rest) == Ok((Pair(p.key, p.bytes + Front(rest, lack)), Back(rest, lack)))
  {
    hide Le16;
    var b, n := p.bytes, KeySize(p.bytes);
    var lack := Need(b) - |b|;
    FormedParts(b, n, rest);
    FillClassIds(b[10 + n..], rest, lack);
    JoinParts(b, n, Front(rest, lack));
  }

  /** Every parsed record is formed, and whole unless the data ended in it. */
  lemma ParsedFormed(data: Bytes)
    requires ParseRecord(data).Ok?
    ensures Formed(ParseRecord(data).value.0)
    ensures ParseRecord(data).value.1 != [] ==> Whole(ParseRecord(data).value.0)
  {
    hide Le16;
    var (p, rest) := ParseRecord(data).value;
    var n := Le16(data[2..4]);
    var after := Back(data[4..], n);
    var ids := Front(after[6..], 2 * Le16(after[4..6]));
    SlicesOfParts(data[..4], Front(data[4..], n), after[..6], ids);
    assert data[..4][2..4] == data[2..4];
    assert after[..6][4..6] == after[4..6];
  }

  lemma SlicesOfParts(head: Bytes, key: Bytes, counts: Bytes, ids: Bytes)
    requires |head| == 4 && |counts| == 6
    ensures var b := head + (key + counts) + ids;
      && b[2..4] == head[2..4] && b[4..4 + |key|] == key && b[8 + |key|..10 + |key|] == counts[4..6]
  {
    var mid := key + counts;
    SliceOfFront(head + mid, ids, 2, 4);
    SliceOfFront(head, mid, 2, 4);
    SliceOfFront(head + mid, ids, 4, 4 + |key|);
    SliceOfFront(head + mid, ids, 8 + |key|, 10 + |key|);
    assert (head + mid)[4..4 + |key|] == key;
    assert (head + mid)[8 + |key|..10 + |key|] == counts[4..6];
  }

  lemma NothingToParse()
    ensures ParseRecord([]).Err?
  {
  }

  lemma {:induction false} AllFormed(n: nat, data: Bytes)
    requires ParseRecords(n, data).Ok?
    ensures var ps := ParseRecords(n, data).value.profiles;
      |ps| == n
      && (forall i :: 0 <= i < n ==> Formed(ps[i]))
      && (forall i :: 0 <= i < n - 1 ==> Whole(ps[i]))
  {
    hide ParseRecord, Formed, Whole;
    if n > 0 {
      ParsedFormed(data);
      var rest := ParseRecord(data).value.1;
      AllFormed(n - 1, rest);
      NothingToParse();
    }
  }

  // ----- Reading back the sorted records -----

  /** The record with a fresh index. */
  function Numbered(p: Pair, i: nat): Pair
    requires i < 0x1_0000
  {
    Pair(p.key, Pack16(i) + Body(p))
  }

  function NumberedAll(ps: seq<Pair>, from: nat): (r: seq<Pair>)
    requires from + |ps| <= 0x1_0000
    ensures |r| == |ps|
    ensures forall i :: 0 <= i < |ps| ==> r[i] == Numbered(ps[i], from + i)
  {
    if ps == [] then [] else [Numbered(ps[0], from)] + NumberedAll(ps[1..], from + 1)
  }

  lemma NumberedFormed(p: Pair, i: nat)
    requires Formed(p) && i < 0x1_0000
    ensures Formed(Numbered(p, i)) && Body(Numbered(p, i)) == Body(p)
    ensures |Numbered(p, i).bytes| == |p.bytes|
    ensures Need(Numbered(p, i).bytes) == Need(p.bytes)
  {
    var b, b', n := p.bytes, Numbered(p, i).bytes, KeySize(p.bytes);
    assert b'[2..] == b[2..];
    assert b'[2..4] == b'[2..][..2] == b[2..4];
    assert b'[4..4 + n] == b'[2..][2..2 + n] == b[4..4 + n];
    assert b'[8 + n..10 + n] == b'[2..][6 + n..8 + n] == b[8 + n..10 + n];
  }

  lemma RenumberNotEmpty(ps: seq<Pair>, from: nat)
    requires from + |ps| <= 0x1_0000 && ps != []
    ensures Renumber(ps, from) != []
  {
  }

  /**
    Renumbered records read back as themselves, numbered in order, exactly when every
    record but the last is whole.
  */
  lemma {:induction false} ReadBackIff(ps: seq<Pair>, from: nat)
    requires from + |ps| <= 0x1_0000
    requires forall p :: p in ps ==> Formed(p)
    ensures ParseRecords(|ps|, Renumber(ps, from)) == Ok(Records(NumberedAll(ps, from), []))
       <==> forall i :: 0 <= i < |ps| - 1 ==> Whole(ps[i])
  {
    hide ParseRecord, Formed, Whole;
    if ps != [] {
      FirstReadBack(ps, from);
      if Whole(ps[0]) {
        ReadBackIff(ps[1..], from + 1);
        ConsParsed(ps, from);
        WholeCons(ps);
      } else if |ps| == 1 {
        ConsParsed(ps, from);
        assert ps[1..] == [];
      } else {
        FirstDiffers(ps, from);
      }
    }
  }

  /** The first record reads back when it is whole or nothing follows, and only then. */
  lemma FirstReadBack(ps: seq<Pair>, from: nat)
    requires ps != [] && from + |ps| <= 0x1_0000 && Formed(ps[0])
    ensures ParseRecord(Renumber(ps, from)).Ok?
    ensures if Whole(ps[0]) || |ps| == 1
      then ParseRecord(Renumber(ps, from)) == Ok((Numbered(ps[0], from), Renumber(ps[1..], from + 1)))
      else ParseRecord(Renumber(ps, from)).value.0 != Numbered(ps[0], from)
  {
    hide ParseRecord;
    var head, rest := Numbered(ps[0], from), Renumber(ps[1..], from + 1);
    NumberedFormed(ps[0], from);
    ParseFormed(head, rest);
    var lack := Need(head.bytes) - |head.bytes|;
    if lack == 0 || |ps| == 1 {
      assert Front(rest, lack) == [] && Back(rest, lack) == rest;
      assert head.bytes + [] == head.bytes;
    } else {
      RenumberNotEmpty(ps[1..], from + 1);
      assert |head.bytes + Front(rest, lack)| > |head.bytes|;
    }
  }

  lemma WholeCons(ps: seq<Pair>)
    requires ps != [] && Whole(ps[0])
    ensures (forall i :: 0 <= i < |ps| - 1 ==> Whole(ps[i]))
       <==> (forall i :: 0 <= i < |ps[1..]| - 1 ==> Whole(ps[1..][i]))
  {
    hide Whole;
    assert forall i :: 0 < i < |ps| - 1 ==> ps[i] == ps[1..][i - 1];
    assert forall i :: 0 <= i < |ps| - 2 ==> ps[1..][i] == ps[i + 1];
  }

  lemma FirstDiffers(ps: seq<Pair>, from: nat)
    requires ps != [] && from + |ps| <= 0x1_0000
    requires ParseRecord(Renumber(ps, from)).Ok?
    requires ParseRecord(Renumber(ps, from)).value.0 != Numbered(ps[0], from)
    ensures ParseRecords(|ps|, Renumber(ps, from)) != Ok(Records(NumberedAll(ps, from), []))
  {
    hide ParseRecord;
  }

  lemma ConsParsed(ps: seq<Pair>, from: nat)
    requires ps != [] && from + |ps| <= 0x1_0000
    requires ParseRecord(Renumber(ps, from)) == Ok((Numbered(ps[0], from), Renumber(ps[1..], from + 1)))
    ensures ParseRecords(|ps|, Renumber(ps, from)) == Ok(Records(NumberedAll(ps, from), []))
       <==> ParseRecords(|ps| - 1, Renumber(ps[1..], from + 1)) == Ok(Records(NumberedAll(ps[1..], from + 1), []))
  {
    var r := ParseRecords(|ps| - 1, Renumber(ps[1..], from + 1));
    if r.Ok? {
      var all, tail := [Numbered(ps[0], from)] + r.value.profiles, NumberedAll(ps[1..], from + 1);
      assert all[1..] == r.value.profiles;
      assert ([Numbered(ps[0], from)] + tail)[1..] == tail;
    }
  }

  // ----- Permutations -----

  function Stripped(ps: seq<Pair>): (r: seq<Pair>)
    ensures |r| == |ps|
    ensures forall i :: 0 <= i < |ps| ==> r[i] == Pair(ps[i].key, Body(ps[i]))
  {
    if ps == [] then [] else [Pair(ps[0].key, Body(ps[0]))] + Stripped(ps[1..])
  }

  lemma StrippedSplit(a: seq<Pair>, b: seq<Pair>)
    ensures Stripped(a + b) == Stripped(a) + Stripped(b)
  {
    hide Body, Stripped;
    forall i | 0 <= i < |a + b|
      ensures Stripped(a + b)[i] == (Stripped(a) + Stripped(b))[i]
    {
    }
  }

  lemma {:induction false} FlatSplit(a: seq<Pair>, b: seq<Pair>)
    ensures |Flat(a + b)| == |Flat(a)| + |Flat(b)|
  {
    if a == [] {
      assert a + b == b;
    } else {
      FlatSplit(a[1..], b);
      assert (a + b)[1..] == a[1..] + b;
    }
  }

  lemma MultisetSplit(a: seq<Pair>, p: Pair, b: seq<Pair>)
    ensures multiset(a + [p] + b) == multiset{p} + multiset(a + b)
  {
  }

  lemma TakeOut(a: seq<Pair>, p: Pair, b: seq<Pair>)
    ensures multiset(Stripped(a + [p] + b)) == multiset{Pair(p.key, Body(p))} + multiset(Stripped(a + b))
    ensures |Flat(a + [p] + b)| == |p.bytes| + |Flat(a + b)|
  {
    StrippedSplit(a + [p], b);
    StrippedSplit(a, [p]);
    StrippedSplit(a, b);
    FlatSplit(a + [p], b);
    FlatSplit(a, [p]);
    FlatSplit(a, b);
    FlatOne(p);
    assert Stripped([p]) == [Pair(p.key, Body(p))];
    MultisetSplit(Stripped(a), Pair(p.key, Body(p)), Stripped(b));
  }

  lemma Cancel(m: multiset<Pair>, a: multiset<Pair>, b: multiset<Pair>)
    requires m + a == m + b
    ensures a == b
  {
    assert (m + a) - m == a && (m + b) - m == b;
  }

  lemma SplitAt(qs: seq<Pair>, p: Pair) returns (a: seq<Pair>, b: seq<Pair>)
    requires p in multiset(qs)
    ensures qs == a + [p] + b
  {
    var i :| 0 <= i < |qs| && qs[i] == p;
    a, b := qs[..i], qs[i + 1..];
  }

  /** Reordering records reorders their bodies and keeps their total size. */
  lemma {:induction false} ReorderedBodies(ps: seq<Pair>, qs: seq<Pair>)
    requires multiset(ps) == multiset(qs)
    ensures multiset(Stripped(ps)) == multiset(Stripped(qs)) && |Flat(ps)| == |Flat(qs)|
  {
    hide Flat, Stripped;
    assert |multiset(ps)| == |multiset(qs)|;
    if ps == [] {
      assert ps == qs;
    } else {
      var p, tail := ps[0], ps[1..];
      var a, b := SplitAt(qs, p);
      assert ps == [] + [p] + tail;
      assert [] + tail == tail;
      MultisetSplit(a, p, b);
      MultisetSplit([], p, tail);
      Cancel(multiset{p}, multiset(tail), multiset(a + b));
      ReorderedBodies(tail, a + b);
      TakeOut(a, p, b);
      TakeOut([], p, tail);
    }
  }

  lemma FlatOne(p: Pair)
    ensures Flat([p]) == p.bytes
  {
    assert [p][1..] == [];
  }

  lemma {:induction false} RenumberByBodies(ps: seq<Pair>, qs: seq<Pair>, from: nat)
    requires from + |ps| <= 0x1_0000 && Stripped(ps) == Stripped(qs)
    ensures |ps| == |qs| && Renumber(ps, from) == Renumber(qs, from)
  {
    assert |Stripped(ps)| == |Stripped(qs)|;
    if ps != [] {
      assert Stripped(ps)[0] == Stripped(qs)[0];
      assert Stripped(ps[1..]) == Stripped(ps)[1..] == Stripped(qs)[1..] == Stripped(qs[1..]);
      RenumberByBodies(ps[1..], qs[1..], from + 1);
    }
  }

  lemma {:induction false} RenumberSize(ps: seq<Pair>, from: nat)
    requires from + |ps| <= 0x1_0000 && forall p :: p in ps ==> |p.bytes| >= 10
    ensures |Renumber(ps, from)| == |Flat(ps)|
  {
    if ps != [] {
      assert ps[0] in ps;
      RenumberSize(ps[1..], from + 1);
    }
  }

  /** The size the header keeps is the size of the new data. */
  lemma SizeIsKept(ps: seq<Pair>)
    requires |ps| <= 0x1_0000 && forall p :: p in ps ==> |p.bytes| >= 10
    ensures |Sort(ps)| == |ps| && |Renumber(Sort(ps), 0)| == |Flat(ps)|
  {
    SortSorts(ps);
    ReorderedBodies(Sort(ps), ps);
    forall p | p in Sort(ps)
      ensures |p.bytes| >= 10
    {
      assert p in multiset(Sort(ps));
    }
    RenumberSize(Sort(ps), 0);
  }

  // ----- The canonical form -----

  /** Records with one key have one body. */
  predicate NoClash(rs: seq<Pair>) {
    forall i, j :: 0 <= i < |rs| && 0 <= j < |rs| && rs[i].key == rs[j].key ==> rs[i] == rs[j]
  }

  lemma NoClashOfSame(rs: seq<Pair>, ts: seq<Pair>)
    requires NoClash(rs) && multiset(rs) == multiset(ts)
    ensures NoClash(ts)
  {
    forall i, j | 0 <= i < |ts| && 0 <= j < |ts| && ts[i].key == ts[j].key
      ensures ts[i] == ts[j]
    {
      assert ts[i] in multiset(rs) && ts[j] in multiset(rs);
    }
  }

  lemma SortedBodies(ps: seq<Pair>)
    requires Sorted(ps) && NoClash(Stripped(ps))
    ensures Sorted(Stripped(ps))
  {
    var rs := Stripped(ps);
    forall i, j | 0 <= i < j < |rs|
      ensures PairLe(rs[i], rs[j])
    {
      assert PairLe(ps[i], ps[j]);
      if rs[i].key == rs[j].key {
        PairReflexive(rs[i]);
      }
    }
  }

  /** Without clashes, the order of the bodies does not depend on order or indices. */
  lemma SameBodiesSameOrder(ps: seq<Pair>, qs: seq<Pair>)
    requires multiset(Stripped(ps)) == multiset(Stripped(qs)) && NoClash(Stripped(ps))
    ensures Stripped(Sort(ps)) == Stripped(Sort(qs))
  {
    SortSorts(ps);
    SortSorts(qs);
    ReorderedBodies(ps, Sort(ps));
    ReorderedBodies(qs, Sort(qs));
    NoClashOfSame(Stripped(ps), Stripped(Sort(ps)));
    NoClashOfSame(Stripped(ps), Stripped(Sort(qs)));
    SortedBodies(Sort(ps));
    SortedBodies(Sort(qs));
    SortedUnique(Stripped(Sort(ps)), Stripped(Sort(qs)));
  }

  /** Payloads with the same records, in any order and with any indices, have the same canonical payload. */
  lemma CanonicalForm(z: Zlib, ps: seq<Pair>, qs: seq<Pair>)
    requires |ps| < 0x1_0000 && |Flat(ps)| < 0x1_0000_0000
    requires forall p :: p in ps ==> |p.bytes| >= 10
    requires forall q :: q in qs ==> |q.bytes| >= 10
    requires multiset(Stripped(ps)) == multiset(Stripped(qs)) && NoClash(Stripped(ps))
    ensures |qs| == |ps| && |Flat(qs)| == |Flat(ps)|
    ensures Canonical(z, ps) == Canonical(z, qs)
  {
    assert |multiset(Stripped(ps))| == |multiset(Stripped(qs))|;
    SameBodiesSameOrder(ps, qs);
    SizeIsKept(ps);
    SizeIsKept(qs);
    RenumberByBodies(Sort(ps), Sort(qs), 0);
  }

  // ----- Clashing keys have no canonical form -----

  /** The records `rs` with index `hi` everywhere but at `i`, where it is 0. */
  function Favour(rs: seq<Pair>, i: nat): (ps: seq<Pair>)
    ensures |ps| == |rs|
    ensures forall k :: 0 <= k < |rs| ==> ps[k] == Pair(rs[k].key, Pack16(if k == i then 0 else 1) + rs[k].bytes)
  {
    seq(|rs|, k requires 0 <= k < |rs| => Pair(rs[k].key, Pack16(if k == i then 0 else 1) + rs[k].bytes))
  }

  lemma FavourStripped(rs: seq<Pair>, i: nat)
    ensures Stripped(Favour(rs, i)) == rs
  {
    var ps := Favour(rs, i);
    forall k | 0 <= k < |rs|
      ensures Stripped(ps)[k] == rs[k]
    {
      assert Body(ps[k]) == rs[k].bytes;
    }
  }

  /** The position of the first record with a key. */
  function First(ps: seq<Pair>, key: Bytes): (f: nat)
    ensures f <= |ps| && forall k :: 0 <= k < f ==> ps[k].key != key
    ensures f < |ps| ==> ps[f].key == key
  {
    if ps == [] || ps[0].key == key then 0 else 1 + First(ps[1..], key)
  }

  /** Of two records with one key, a favoured and another, the favoured sorts first. */
  lemma FavouredLeast(rs: seq<Pair>, i: nat, k: nat)
    requires i < |rs| && k < |rs| && rs[k].key == rs[i].key
    requires PairLe(Favour(rs, i)[k], Favour(rs, i)[i])
    ensures k == i
  {
    var ps := Favour(rs, i);
    assert ps[k].bytes[0] <= ps[i].bytes[0];
    assert ps[i].bytes[0] == 0;
  }

  lemma MemberAt(ps: seq<Pair>, p: Pair) returns (k: nat)
    requires p in multiset(ps)
    ensures k < |ps| && ps[k] == p
  {
    k :| 0 <= k < |ps| && ps[k] == p;
  }

  /** The favoured record comes first among those with its key. */
  lemma FavouredFirst(rs: seq<Pair>, i: nat)
    requires i < |rs|
    ensures var ss := Sort(Favour(rs, i));
      var f := First(ss, rs[i].key);
      f < |ss| && Body(ss[f]) == rs[i].bytes
  {
    hide Favour, Sort, PairLe;
    var ps := Favour(rs, i);
    var ss := Sort(ps);
    SortSorts(ps);
    assert ps[i] in multiset(ps);
    var g := MemberAt(ss, ps[i]);
    var f := First(ss, rs[i].key);
    PairReflexive(ss[g]);
    assert f <= g && PairLe(ss[f], ss[g]);
    assert ss[f] in multiset(ss);
    var k := MemberAt(ps, ss[f]);
    FavouredLeast(rs, i, k);
    assert Body(ps[i]) == rs[i].bytes;
  }

  lemma {:induction false} FirstByKeys(ps: seq<Pair>, qs: seq<Pair>, key: Bytes)
    requires Stripped(ps) == Stripped(qs)
    ensures First(ps, key) == First(qs, key)
  {
    assert |Stripped(ps)| == |Stripped(qs)|;
    if ps != [] {
      assert Stripped(ps)[0] == Stripped(qs)[0];
      assert Stripped(ps[1..]) == Stripped(ps)[1..] == Stripped(qs)[1..] == Stripped(qs[1..]);
      FirstByKeys(ps[1..], qs[1..], key);
    }
  }

  /** Two bodies with one key: which comes first depends on the indices they came with. */
  lemma ClashMatters(rs: seq<Pair>, i: nat, j: nat)
    requires i < |rs| && j < |rs| && rs[i].key == rs[j].key && rs[i] != rs[j]
    ensures Stripped(Favour(rs, i)) == Stripped(Favour(rs, j)) == rs
    ensures Stripped(Sort(Favour(rs, i))) != Stripped(Sort(Favour(rs, j)))
  {
    FavourStripped(rs, i);
    FavourStripped(rs, j);
    FavouredFirst(rs, i);
    FavouredFirst(rs, j);
    var ss, ts := Sort(Favour(rs, i)), Sort(Favour(rs, j));
    if Stripped(ss) == Stripped(ts) {
      FirstByKeys(ss, ts, rs[i].key);
    }
  }

  /** The data that is compressed for some profiles. */
  function SortedData(ps: seq<Pair>): Bytes
    requires |ps| <= 0x1_0000
  {
    SortSorts(ps);
    Renumber(Sort(ps), 0)
  }

  /** The bodies alone fix the sorted data, whatever order and indices they come with. */
  ghost predicate HasCanonicalForm(rs: seq<Pair>) {
    forall ps, qs :: IsListing(ps, rs) && IsListing(qs, rs) ==> SortedData(ps) == SortedData(qs)
  }

  ghost predicate IsListing(ps: seq<Pair>, rs: seq<Pair>) {
    |ps| <= 0x1_0000 && multiset(Stripped(ps)) == multiset(rs)
  }

  lemma {:induction false} NumberedStripped(ps: seq<Pair>, from: nat)
    requires from + |ps| <= 0x1_0000
    ensures Stripped(NumberedAll(ps, from)) == Stripped(ps)
  {
    var qs := NumberedAll(ps, from);
    forall i | 0 <= i < |ps|
      ensures Stripped(qs)[i] == Stripped(ps)[i]
    {
      assert Body(Numbered(ps[i], from + i)) == Body(ps[i]);
    }
  }

  lemma AllWhole(ps: seq<Pair>)
    requires forall p :: p in ps ==> Whole(p)
    ensures forall p :: p in ps ==> Formed(p)
    ensures forall i :: 0 <= i < |ps| ==> Whole(ps[i])
  {
  }

  /** Whole records can be told from their renumbered bytes. */
  lemma WholeInjective(ps: seq<Pair>, qs: seq<Pair>)
    requires |ps| == |qs| <= 0x1_0000 && Renumber(ps, 0) == Renumber(qs, 0)
    requires forall p :: p in ps ==> Whole(p)
    requires forall q :: q in qs ==> Whole(q)
    ensures Stripped(ps) == Stripped(qs)
  {
    hide Stripped, Renumber, Whole, Formed, ParseRecords, NumberedAll;
    AllWhole(ps);
    AllWhole(qs);
    ReadBackIff(ps, 0);
    ReadBackIff(qs, 0);
    NumberedStripped(ps, 0);
    NumberedStripped(qs, 0);
  }

  lemma FavourWhole(rs: seq<Pair>, i: nat)
    requires forall r :: r in rs ==> Whole(Pair(r.key, Pack16(0) + r.bytes))
    ensures forall p :: p in Sort(Favour(rs, i)) ==> Whole(p)
  {
    var ps := Favour(rs, i);
    SortSorts(ps);
    forall p | p in Sort(ps)
      ensures Whole(p)
    {
      assert p in multiset(ps);
      var k :| 0 <= k < |ps| && ps[k] == p;
      assert rs[k] in rs;
      var whole := Pair(rs[k].key, Pack16(0) + rs[k].bytes);
      assert Body(whole) == rs[k].bytes;
      NumberedFormed(whole, if k == i then 0 else 1);
    }
  }

  /**
    Sorting gives whole records a canonical form exactly when no two of them share a key
    without being the same: the order of ties is that of the indices they came with.
  */
  lemma CanonicalIff(rs: seq<Pair>)
    requires |rs| <= 0x1_0000
    requires forall r :: r in rs ==> Whole(Pair(r.key, Pack16(0) + r.bytes))
    ensures HasCanonicalForm(rs) <==> NoClash(rs)
  {
    if NoClash(rs) {
      forall ps, qs | IsListing(ps, rs) && IsListing(qs, rs)
        ensures SortedData(ps) == SortedData(qs)
      {
        NoClashOfSame(rs, Stripped(ps));
        SameBodiesSameOrder(ps, qs);
        SortSorts(ps);
        RenumberByBodies(Sort(ps), Sort(qs), 0);
      }
    } else {
      var i, j :| 0 <= i < |rs| && 0 <= j < |rs| && rs[i].key == rs[j].key && rs[i] != rs[j];
      ClashMatters(rs, i, j);
      var ps, qs := Favour(rs, i), Favour(rs, j);
      assert IsListing(ps, rs) && IsListing(qs, rs);
      SortSorts(ps);
      SortSorts(qs);
      FavourWhole(rs, i);
      FavourWhole(rs, j);
      if SortedData(ps) == SortedData(qs) {
        WholeInjective(Sort(ps), Sort(qs));
      }
    }
  }

  // ----- Whole payloads -----

  lemma UnpackPacked(z: Zlib, n: nat, size: nat, raw: Bytes)
    requires z.Inverse() && n < 0x1_0000 && size == |raw| < 0x1_0000_0000 && Pack(z, n, size, raw).Ok?
    ensures Unpack(z, Pack(z, n, size, raw).value) == Ok((n, raw))
  {
    var c := z.compress(raw);
    var out := Pack(z, n, size, raw).value;
    assert out[..2] == Pack16(n) && out[2..6] == Pack32(size) && out[6..10] == Pack32(|c|) && out[10..] == c;
    Le16RoundTrip(n, []);
    Le32RoundTrip(size);
    Le32RoundTrip(|c|);
  }

  /**
    The output of an accepted payload reads back as its records, key-sorted and numbered
    from 0, exactly when at most the record that sorts last has its class ids cut short.
  */
  lemma OutputReadsBackIff(z: Zlib, data: Bytes)
    requires z.Inverse() && Profiles(z, data).Ok?
    ensures var ps := Profiles(z, data).value;
      && |Sort(ps)| == |ps| < 0x1_0000 && |Flat(ps)| < 0x1_0000_0000
      && (Canonical(z, ps).Ok? ==>
            (Profiles(z, Canonical(z, ps).value) == Ok(NumberedAll(Sort(ps), 0))
             <==> forall i :: 0 <= i < |ps| - 1 ==> Whole(Sort(ps)[i])))
  {
    hide Unpack, Pack, Formed, Whole;
    ProfilesFit(z, data);
    var ps := Profiles(z, data).value;
    SizeIsKept(ps);
    SortedFormed(z, data);
    ReadBackIff(Sort(ps), 0);
    var raw := Renumber(Sort(ps), 0);
    if Canonical(z, ps).Ok? {
      UnpackPacked(z, |ps|, |Flat(ps)|, raw);
    }
  }

  lemma SortedFormed(z: Zlib, data: Bytes)
    requires Profiles(z, data).Ok?
    ensures forall p :: p in Sort(Profiles(z, data).value) ==> Formed(p)
  {
    hide Unpack, Formed, Whole;
    var ps := Profiles(z, data).value;
    var (n, raw) := Unpack(z, data).value;
    AllFormed(n, raw);
    SortSorts(ps);
    forall p | p in Sort(ps)
      ensures Formed(p)
    {
      assert p in multiset(ps);
    }
  }

  /** Records of one key stand where the low bytes of their positions do not fall. */
  predicate InStep(ps: seq<Pair>) {
    forall i, j :: 0 <= i < j < |ps| ==> InStepAt(ps[i], ps[j], i, j)
  }

  predicate InStepAt(p: Pair, q: Pair, i: nat, j: nat) {
    p.key == q.key ==> i % 0x100 <= j % 0x100
  }

  /** New indices keep sorted records sorted exactly when records of one key are in step. */
  lemma InStepIff(ps: seq<Pair>)
    requires Sorted(ps) && |ps| <= 0x1_0000
    ensures Sorted(NumberedAll(ps, 0)) <==> InStep(ps)
  {
    hide NumberedAll, PairLe, InStepAt;
    var qs := NumberedAll(ps, 0);
    if Sorted(qs) {
      forall i, j | 0 <= i < j < |ps|
        ensures InStepAt(ps[i], ps[j], i, j)
      {
        StepsApart(ps, i, j);
      }
    }
    if InStep(ps) {
      forall i, j | 0 <= i < j < |qs|
        ensures PairLe(qs[i], qs[j])
      {
        StepsApart(ps, i, j);
      }
    }
  }

  lemma StepsApart(ps: seq<Pair>, i: nat, j: nat)
    requires Sorted(ps) && |ps| <= 0x1_0000 && i < j < |ps|
    ensures var qs := NumberedAll(ps, 0); PairLe(qs[i], qs[j]) <==> InStepAt(ps[i], ps[j], i, j)
  {
    hide Numbered, InStepAt;
    assert PairLe(ps[i], ps[j]);
    hide Sorted, PairLe;
    NumberedOrder(ps[i], ps[j], i, j);
  }

  lemma NumberedOrder(p: Pair, q: Pair, i: nat, j: nat)
    requires i < j < 0x1_0000 && PairLe(p, q)
    ensures PairLe(Numbered(p, i), Numbered(q, j)) <==> InStepAt(p, q, i, j)
  {
    hide Le;
    if p.key == q.key {
      LowByteDecides(i, j, Body(p), Body(q));
    }
  }

  lemma LowByteDecides(i: nat, j: nat, a: Bytes, b: Bytes)
    requires i < j < 0x1_0000
    ensures Le(Pack16(i) + a, Pack16(j) + b) <==> i % 0x100 <= j % 0x100
  {
    var s, t := Pack16(i) + a, Pack16(j) + b;
    assert s[1..][0] == i / 0x100 && t[1..][0] == j / 0x100;
    DivMod(0x100, i);
    DivMod(0x100, j);
  }

  /**
    Sorting twice is sorting once, for records that read back: when no two of them clash, and
    also when they do, as long as records of one key are in step.
  */
  lemma SortingIsIdempotent(z: Zlib, data: Bytes)
    requires z.Inverse() && Profiles(z, data).Ok?
    requires var ps := Profiles(z, data).value;
      && (NoClash(Stripped(ps)) || InStep(Sort(ps))) && |Sort(ps)| == |ps|
      && forall i :: 0 <= i < |ps| - 1 ==> Whole(Sort(ps)[i])
    ensures var ps := Profiles(z, data).value;
      && |ps| < 0x1_0000 && |Flat(ps)| < 0x1_0000_0000
      && (Canonical(z, ps).Ok? ==>
            var again := Profiles(z, Canonical(z, ps).value);
            && again.Ok? && |again.value| == |ps| && |Flat(again.value)| == |Flat(ps)|
            && Canonical(z, again.value) == Canonical(z, ps))
  {
    hide Profiles, Formed, Whole;
    OutputReadsBackIff(z, data);
    ProfilesFit(z, data);
    var ps := Profiles(z, data).value;
    if Canonical(z, ps).Ok? {
      ProfilesFit(z, Canonical(z, ps).value);
      if NoClash(Stripped(ps)) {
        SortedAgain(z, ps);
      } else {
        KeptInOrder(z, ps);
      }
    }
  }

  /** The new index of the record at `i` sorts before that at `j`: low byte first, within one key. */
  predicate IndexBefore(ss: seq<Pair>, i: nat, j: nat) {
    && i < |ss| && j < |ss|
    && if ss[i].key != ss[j].key then i < j
       else i % 0x100 < j % 0x100 || (i % 0x100 == j % 0x100 && i / 0x100 < j / 0x100)
  }

  function Positions(n: nat): (r: seq<nat>)
    ensures |r| == n && forall i :: 0 <= i < n ==> r[i] == i
  {
    if n == 0 then [] else Positions(n - 1) + [n - 1]
  }

  /** The positions of sorted records in the order in which a second sort takes them. */
  function SecondOrder(ss: seq<Pair>): seq<nat> {
    Sorting.Sort(Positions(|ss|), (i: nat, j: nat) => IndexBefore(ss, i, j))
  }

  /** A second sort puts in each place the record that was there, or one that differs only in its index. */
  ghost predicate StaysSorted(ss: seq<Pair>) {
    forall k :: 0 <= k < |SecondOrder(ss)| ==> SameAt(ss, k, SecondOrder(ss)[k])
  }

  predicate SameAt(ss: seq<Pair>, k: nat, at: nat) {
    k < |ss| && at < |ss| && ss[at].key == ss[k].key && Body(ss[at]) == Body(ss[k])
  }

  /**
    For whole records, sorting twice is sorting once exactly when the second order moves no
    record to the place of a different one.
  */
  lemma SortingIsIdempotentIff(z: Zlib, data: Bytes)
    requires z.Inverse() && Profiles(z, data).Ok?
    requires forall p :: p in Profiles(z, data).value ==> Whole(p)
    ensures var ps := Profiles(z, data).value;
      && |ps| < 0x1_0000 && |Flat(ps)| < 0x1_0000_0000
      && (Canonical(z, ps).Ok? ==>
            var again := Profiles(z, Canonical(z, ps).value);
            && again.Ok? && |again.value| == |ps| && |Flat(again.value)| == |Flat(ps)|
            && (Canonical(z, again.value) == Canonical(z, ps) <==> StaysSorted(Sort(ps))))
  {
    hide Profiles, Formed, Whole, StaysSorted, Canonical;
    OutputReadsBackIff(z, data);
    ProfilesFit(z, data);
    var ps := Profiles(z, data).value;
    SortedWhole(ps);
    if Canonical(z, ps).Ok? {
      ProfilesFit(z, Canonical(z, ps).value);
      SecondSortIff(z, ps);
    }
  }

  lemma SortedWhole(ps: seq<Pair>)
    requires forall p :: p in ps ==> Whole(p)
    ensures |Sort(ps)| == |ps| && forall p :: p in Sort(ps) ==> Whole(p)
    ensures forall i :: 0 <= i < |ps| ==> Whole(Sort(ps)[i])
  {
    hide Whole;
    SortSorts(ps);
    forall p | p in Sort(ps)
      ensures Whole(p)
    {
      assert p in multiset(ps);
    }
  }

  lemma NumberedWhole(ps: seq<Pair>)
    requires |ps| <= 0x1_0000 && forall p :: p in ps ==> Whole(p)
    ensures forall q :: q in NumberedAll(ps, 0) ==> Whole(q)
  {
    forall i | 0 <= i < |ps|
      ensures Whole(NumberedAll(ps, 0)[i])
    {
      assert ps[i] in ps;
      NumberedFormed(ps[i], i);
    }
  }

  lemma SecondSortIff(z: Zlib, ps: seq<Pair>)
    requires z.Inverse() && |ps| < 0x1_0000 && |Flat(ps)| < 0x1_0000_0000 && |Sort(ps)| == |ps|
    requires forall p :: p in ps ==> Whole(p) && |p.bytes| >= 10
    requires forall q :: q in NumberedAll(Sort(ps), 0) ==> |q.bytes| >= 10
    ensures var qs := NumberedAll(Sort(ps), 0);
      |Flat(qs)| == |Flat(ps)|
      && (Canonical(z, ps).Ok? ==> (Canonical(z, qs) == Canonical(z, ps) <==> StaysSorted(Sort(ps))))
  {
    hide StaysSorted, Whole, Stripped, Renumber, Canonical, Sort, Flat, NumberedAll;
    var ss := Sort(ps);
    var qs := NumberedAll(ss, 0);
    SortSorts(ps);
    SizeIsKept(ps);
    SizeIsKept(qs);
    SortSorts(qs);
    SizeOfNumbered(ps, ss);
    SortedWhole(ps);
    SameDataIff(ss);
    if Canonical(z, ps).Ok? {
      SameCanonicalIff(z, ps, qs);
    }
  }

  lemma SizeOfNumbered(ps: seq<Pair>, ss: seq<Pair>)
    requires multiset(ss) == multiset(ps) && |ss| <= 0x1_0000
    requires forall p :: p in ps ==> |p.bytes| >= 10
    requires forall q :: q in NumberedAll(ss, 0) ==> |q.bytes| >= 10
    ensures |Flat(NumberedAll(ss, 0))| == |Flat(ps)|
  {
    hide Flat, Stripped, Renumber, NumberedAll;
    var qs := NumberedAll(ss, 0);
    ReorderedBodies(ss, ps);
    NumberedStripped(ss, 0);
    RenumberByBodies(qs, ss, 0);
    assert forall p :: p in ss ==> p in multiset(ps);
    RenumberSize(ss, 0);
    RenumberSize(qs, 0);
  }

  /** Packed data is the same exactly when the data is. */
  lemma SameCanonicalIff(z: Zlib, ps: seq<Pair>, qs: seq<Pair>)
    requires z.Inverse() && |qs| == |ps| < 0x1_0000 && |Flat(qs)| == |Flat(ps)| < 0x1_0000_0000
    requires Canonical(z, ps).Ok?
    ensures Canonical(z, qs) == Canonical(z, ps) <==> SortedData(qs) == SortedData(ps)
  {
    hide Pack, Renumber, Sort, Flat, Zlib.Inverse;
    if Canonical(z, qs) == Canonical(z, ps) {
      SamePacked(z, |ps|, |Flat(ps)|, SortedData(ps), SortedData(qs));
    }
  }

  lemma SamePacked(z: Zlib, n: nat, size: nat, a: Bytes, b: Bytes)
    requires z.Inverse() && n < 0x1_0000 && size < 0x1_0000_0000
    requires Pack(z, n, size, a).Ok? && Pack(z, n, size, a) == Pack(z, n, size, b)
    ensures a == b
  {
    var out := Pack(z, n, size, a).value;
    assert out[10..] == z.compress(a) && out[10..] == z.compress(b);
    assert Some(a) == Some(b);
  }

  lemma IndexOrder(ss: seq<Pair>, i: nat, j: nat)
    requires Sorted(ss) && |ss| <= 0x1_0000 && i < |ss| && j < |ss|
    ensures var qs := NumberedAll(ss, 0); PairBefore(qs[i], qs[j]) == IndexBefore(ss, i, j)
  {
    hide NumberedAll, PairLe, Sorted;
    var qs := NumberedAll(ss, 0);
    if i < j {
      StepsApart(ss, i, j);
      OneWay(ss, i, j);
      SplitIndex(i, j);
    } else if j < i {
      StepsApart(ss, j, i);
      SplitIndex(j, i);
    } else {
      PairTotal(qs[i], qs[i]);
    }
  }

  /** Numbered records differ, so one of two sorts before the other. */
  lemma OneWay(ss: seq<Pair>, i: nat, j: nat)
    requires |ss| <= 0x1_0000 && i < j < |ss|
    ensures var qs := NumberedAll(ss, 0); PairLe(qs[j], qs[i]) <==> !PairLe(qs[i], qs[j])
  {
    hide NumberedAll, PairLe;
    var qs := NumberedAll(ss, 0);
    PairTotal(qs[i], qs[j]);
    Le16RoundTrip(i, []);
    Le16RoundTrip(j, []);
    assert qs[i].bytes[..2] == Pack16(i) && qs[j].bytes[..2] == Pack16(j);
    if PairLe(qs[i], qs[j]) && PairLe(qs[j], qs[i]) {
      PairAntisymmetric(qs[i], qs[j]);
    }
  }

  lemma SplitIndex(i: nat, j: nat)
    requires i < j
    ensures i % 0x100 == j % 0x100 ==> i / 0x100 < j / 0x100
  {
    DivMod(0x100, i);
    DivMod(0x100, j);
  }

  /** The second sort takes the numbered records in the second order. */
  lemma SecondOrderIs(ss: seq<Pair>)
    requires Sorted(ss) && |ss| <= 0x1_0000
    ensures var qs, order := NumberedAll(ss, 0), SecondOrder(ss);
      && |order| == |ss| == |Sort(qs)|
      && forall k :: 0 <= k < |ss| ==> order[k] < |ss| && Sort(qs)[k] == qs[order[k]]
  {
    hide NumberedAll, IndexBefore, PairBefore, Sorted, Sorting.Sort, Positions;
    var qs := NumberedAll(ss, 0);
    var all := Positions(|ss|);
    var f := (i: nat) => if i < |qs| then qs[i] else Pair([], []);
    var before := (i: nat, j: nat) => IndexBefore(ss, i, j);
    forall i, j | i in all && j in all
      ensures before(i, j) == PairBefore(f(i), f(j))
    {
      IndexOrder(ss, i, j);
    }
    Sorting.SortMaps(all, f, before, PairBefore);
    Sorting.SortKeeps(all, before);
    assert Sorting.Mapped(all, f) == qs;
    var order := SecondOrder(ss);
    forall k | 0 <= k < |ss|
      ensures order[k] < |ss| && Sort(qs)[k] == qs[order[k]]
    {
      assert order[k] in multiset(order);
      assert order[k] in all;
    }
  }

  lemma SameBodiesIff(ss: seq<Pair>)
    requires Sorted(ss) && |ss| <= 0x1_0000
    ensures Stripped(Sort(NumberedAll(ss, 0))) == Stripped(ss) <==> StaysSorted(ss)
  {
    hide Sorted, NumberedAll, Numbered, Stripped, SecondOrder, Sort, Body;
    SecondOrderIs(ss);
    NumberedStripped(ss, 0);
    var qs, order := NumberedAll(ss, 0), SecondOrder(ss);
    var ts := Sort(qs);
    forall k | 0 <= k < |ss|
      ensures Stripped(ts)[k] == Stripped(ss)[k] <==> SameAt(ss, k, order[k])
    {
      assert Stripped(ts)[k] == Stripped(qs)[order[k]];
    }
  }

  /** Sorting numbered records again gives the same data exactly when none moves to another's place. */
  lemma SameDataIff(ss: seq<Pair>)
    requires Sorted(ss) && |ss| <= 0x1_0000 && forall p :: p in ss ==> Whole(p)
    ensures SortedData(NumberedAll(ss, 0)) == Renumber(ss, 0) <==> StaysSorted(ss)
  {
    hide StaysSorted, Whole, Stripped, Renumber, NumberedAll, Sort;
    var qs := NumberedAll(ss, 0);
    SortSorts(qs);
    SameBodiesIff(ss);
    if SortedData(qs) == Renumber(ss, 0) {
      NumberedWhole(ss);
      SortedWhole(qs);
      WholeInjective(ss, Sort(qs));
    } else if StaysSorted(ss) {
      RenumberByBodies(Sort(qs), ss, 0);
    }
  }

  lemma SortedAgain(z: Zlib, ps: seq<Pair>)
    requires |ps| < 0x1_0000 && |Flat(ps)| < 0x1_0000_0000 && |Sort(ps)| == |ps|
    requires forall p :: p in ps ==> |p.bytes| >= 10
    requires forall q :: q in NumberedAll(Sort(ps), 0) ==> |q.bytes| >= 10
    requires NoClash(Stripped(ps))
    ensures var qs := NumberedAll(Sort(ps), 0);
      |Flat(qs)| == |Flat(ps)| && Canonical(z, qs) == Canonical(z, ps)
  {
    SortSorts(ps);
    NumberedStripped(Sort(ps), 0);
    ReorderedBodies(Sort(ps), ps);
    CanonicalForm(z, ps, NumberedAll(Sort(ps), 0));
  }

  lemma KeptInOrder(z: Zlib, ps: seq<Pair>)
    requires |ps| < 0x1_0000 && |Flat(ps)| < 0x1_0000_0000 && |Sort(ps)| == |ps|
    requires forall p :: p in ps ==> |p.bytes| >= 10
    requires forall q :: q in NumberedAll(Sort(ps), 0) ==> |q.bytes| >= 10
    requires InStep(Sort(ps))
    ensures var qs := NumberedAll(Sort(ps), 0);
      |Flat(qs)| == |Flat(ps)| && Canonical(z, qs) == Canonical(z, ps)
  {
    hide InStep, Stripped;
    SortSorts(ps);
    var ss := Sort(ps);
    var qs := NumberedAll(ss, 0);
    InStepIff(ss);
    SortSorts(qs);
    SortedUnique(Sort(qs), qs);
    NumberedStripped(ss, 0);
    RenumberByBodies(qs, ss, 0);
    SizeIsKept(ps);
    SizeIsKept(qs);
  }

  // ----- A cut record that sorts first -----

  /** A record with a key of one byte and no class ids, though it may announce some. */
  function Small(index: Byte, key: Byte, announced: Byte): (p: Pair)
    ensures |p.bytes| == 11 && p.key == [key]
  {
    Pair([key], [index, 0, 1, 0, key, 0, 0, 0, 0, announced, 0])
  }

  lemma SmallIsFormed(index: Byte, key: Byte, announced: Byte)
    ensures var p := Small(index, key, announced);
      Formed(p) && Need(p.bytes) == 11 + 2 * announced && (announced == 0 ==> Whole(p))
  {
    var b := Small(index, key, announced).bytes;
    assert b[2..4] == [1, 0];
    assert b[4..5] == [key];
    assert b[9..11] == [announced, 0];
  }

  lemma SmallNumbered(index: Byte, key: Byte, announced: Byte, i: nat)
    requires i < 0x100
    ensures Numbered(Small(index, key, announced), i) == Small(i, key, announced)
  {
    assert Body(Small(index, key, announced)) == [1, 0, key, 0, 0, 0, 0, announced, 0];
  }

  lemma SmallSorts(p: Pair, q: Pair)
    requires |p.key| == |q.key| == 1 && q.key[0] < p.key[0]
    ensures Sort([p, q]) == [q, p]
  {
    SortSorts([p, q]);
    assert multiset([p, q]) == multiset([q, p]);
    SortedUnique(Sort([p, q]), [q, p]);
  }

  /** A whole record, and one that is cut short but comes last. */
  function CutLast(): seq<Pair> {
    [Small(0, 98, 0), Small(1, 97, 1)]
  }

  lemma FlatOfTwo(p: Pair, q: Pair)
    ensures Flat([p, q]) == p.bytes + q.bytes
  {
    assert [p, q][1..] == [q];
    FlatOne(q);
  }

  lemma ParseTwo(data: Bytes, p: Pair, rest: Bytes)
    requires ParseRecord(data) == Ok((p, rest))
    ensures ParseRecord(rest).Err? ==> ParseRecords(2, data) == Err(ParseRecord(rest).error)
    ensures ParseRecord(rest).Ok? ==>
      ParseRecords(2, data) == Ok(Records([p] + [ParseRecord(rest).value.0], ParseRecord(rest).value.1))
  {
    hide ParseRecord;
    if ParseRecord(rest).Ok? {
      var (q, end) := ParseRecord(rest).value;
      assert ParseRecords(0, end) == Ok(Records([], end));
      assert [q] + [] == [q];
      assert ParseRecords(1, rest) == Ok(Records([q], end));
    }
  }

  /** A record that is whole, or cut but with nothing behind it, is read as it stands. */
  lemma SmallIsRead(p: Pair, rest: Bytes)
    requires Formed(p) && (Need(p.bytes) == |p.bytes| || rest == [])
    ensures ParseRecord(p.bytes + rest) == Ok((p, rest))
  {
    ParseFormed(p, rest);
    var lack := Need(p.bytes) - |p.bytes|;
    hide *;
    TakesNothing(rest, lack);
    assert p.bytes + [] == p.bytes;
  }

  lemma TakesNothing(rest: Bytes, lack: nat)
    requires lack == 0 || rest == []
    ensures Front(rest, lack) == [] && Back(rest, lack) == rest
  {
  }

  lemma CutLastIsRead()
    ensures ParseRecords(2, Flat(CutLast())) == Ok(Records(CutLast(), []))
  {
    hide ParseRecord, ParseRecords, Formed, Whole, Need, Small;
    var p, q := Small(0, 98, 0), Small(1, 97, 1);
    SmallIsFormed(0, 98, 0);
    SmallIsFormed(1, 97, 1);
    FlatOfTwo(p, q);
    SmallIsRead(p, q.bytes);
    SmallIsRead(q, []);
    assert q.bytes + [] == q.bytes && [p] + [q] == CutLast();
    ParseTwo(Flat(CutLast()), p, q.bytes);
  }

  /** The cut record takes the next one's index for its class id; that one is then cut itself. */
  lemma CutFirstIsRefused()
    ensures ParseRecords(2, Renumber(Sort(CutLast()), 0)) == Err(Truncated)
  {
    hide ParseRecord, ParseRecords, Formed, Whole, Need, Numbered, Sort;
    var p, q := Small(0, 97, 1), Small(1, 98, 0);
    SmallSorts(Small(0, 98, 0), Small(1, 97, 1));
    SmallNumbered(1, 97, 1, 0);
    SmallNumbered(0, 98, 0, 1);
    RenumberTwo(Small(1, 97, 1), Small(0, 98, 0));
    SmallIsFormed(0, 97, 1);
    ParseFormed(p, q.bytes);
    ParseTwo(p.bytes + q.bytes, Pair(p.key, p.bytes + Front(q.bytes, 2)), Back(q.bytes, 2));
    RestIsTruncated(q.bytes);
  }

  lemma RenumberTwo(p: Pair, q: Pair)
    ensures Renumber([p, q], 0) == Numbered(p, 0).bytes + Numbered(q, 1).bytes
  {
    assert [p, q][1..] == [q];
    assert [q][1..] == [] && Renumber([], 2) == [];
    assert Renumber([q], 1) == Numbered(q, 1).bytes + [];
    assert Numbered(q, 1).bytes + [] == Numbered(q, 1).bytes;
  }

  lemma RestIsTruncated(b: Bytes)
    requires |b| == 11 && b[4] == 98
    ensures ParseRecord(Back(b, 2)) == Err(Truncated)
  {
    var rest := Back(b, 2);
    assert rest[2..4][0] == 98;
  }

  /**
    An accepted payload whose sorted payload is refused: its last record is cut short, but
    sorts first.
  */
  lemma CutRecordIsMisread(z: Zlib)
    requires z.Inverse()
    ensures var ps := CutLast();
      && |Flat(ps)| == 22 && |Sort(ps)| == 2
      && (Pack(z, 2, 22, Flat(ps)).Ok? ==> Profiles(z, Pack(z, 2, 22, Flat(ps)).value) == Ok(ps))
      && (Canonical(z, ps).Ok? ==> Profiles(z, Canonical(z, ps).value) == Err(Truncated))
  {
    hide ParseRecords, Unpack, Pack, Renumber, Sort, Small;
    var ps := CutLast();
    CutLastIsRead();
    CutFirstIsRefused();
    FlatOfTwo(ps[0], ps[1]);
    assert forall p :: p in ps ==> |p.bytes| >= 10;
    SizeIsKept(ps);
    if Pack(z, 2, 22, Flat(ps)).Ok? {
      UnpackPacked(z, 2, 22, Flat(ps));
    }
    if Canonical(z, ps).Ok? {
      UnpackPacked(z, 2, 22, Renumber(Sort(ps), 0));
    }
  }
}
