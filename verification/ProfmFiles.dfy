/**
  Profile metadata files byte by byte: a file written of any records is accepted, and what
  is written for it holds the same records in the order of their keys.
*/
module ProfmFiles {
  import opened ByteOrder
  import opened ByteStrings
  import opened Profm
  import opened ProfmCanonical
  import Sorting
  import opened Wrappers

  // ----- Records as they are written -----

  /** A little-endian number of the given width. */
  function Digits(n: nat, width: nat): (r: Bytes)
    ensures |r| == width
  {
    if width == 0 then [] else [n % 0x100] + Digits(n / 0x100, width - 1)
  }

  lemma TwoDigits(n: nat)
    ensures Digits(n, 2) == [n % 0x100, n / 0x100 % 0x100]
  {
    assert Digits(n / 0x100, 1) == [n / 0x100 % 0x100] + Digits(n / 0x100 / 0x100, 0);
  }

  lemma FourMore(n: nat)
    ensures Digits(n, 4) == [n % 0x100, n / 0x100 % 0x100] + Digits(n / 0x100 / 0x100, 2)
  {
    assert Digits(n / 0x100, 3) == [n / 0x100 % 0x100] + Digits(n / 0x100 / 0x100, 2);
  }

  lemma DigitsArePacked(n: nat)
    ensures n < 0x1_0000 ==> Digits(n, 2) == Pack16(n)
    ensures n < 0x1_0000_0000 ==> Digits(n, 4) == Pack32(n)
  {
    hide Digits;
    var m := n / 0x100;
    var l := m / 0x100;
    TwoDigits(n);
    TwoDigits(l);
    FourMore(n);
    FourDigits(n, m, l, l / 0x100);
  }

  /** A record of a file, with type flags of four bytes and class ids of two bytes each. */
  datatype Record = Record(index: nat, key: Bytes, types: Bytes, ids: Bytes) {
    predicate Valid() {
      index < 0x1_0000 && |key| < 0x1_0000 && |types| == 4 && |ids| % 2 == 0 && |ids| / 2 < 0x1_0000
    }

    function Written(): Bytes {
      Digits(index, 2) + Digits(|key|, 2) + key + types + Digits(|ids| / 2, 2) + ids
    }
  }

  function AsPair(r: Record): Pair {
    Pair(r.key, r.Written())
  }

  function AllWritten(rs: seq<Record>): Bytes {
    if rs == [] then [] else rs[0].Written() + AllWritten(rs[1..])
  }

  /** The payload of version 002 that holds some records. */
  function Payload(z: Zlib, rs: seq<Record>): Bytes {
    var raw := AllWritten(rs);
    Digits(|rs|, 2) + Digits(|raw|, 4) + Digits(|z.compress(raw)|, 4) + z.compress(raw)
  }

  predicate Fits(z: Zlib, rs: seq<Record>) {
    && |rs| < 0x1_0000 && |AllWritten(rs)| < 0x1_0000_0000 && |z.compress(AllWritten(rs))| < 0x1_0000_0000
    && forall r :: r in rs ==> r.Valid()
  }

  // ----- They are read -----

  lemma WrittenParts(r: Record)
    ensures r.Written()
         == (Digits(r.index, 2) + Digits(|r.key|, 2)) + (r.key + (r.types + Digits(|r.ids| / 2, 2))) + r.ids
  {
  }

  lemma WrittenIsWhole(r: Record)
    requires r.Valid()
    ensures Whole(AsPair(r))
  {
    var b, n, m := r.Written(), |r.key|, |r.ids| / 2;
    WrittenParts(r);
    DigitsArePacked(n);
    DigitsArePacked(m);
    Le16RoundTrip(n, []);
    Le16RoundTrip(m, []);
    hide Pack16, Le16, Digits, Record.Written;
    var head, counts := Digits(r.index, 2) + Digits(n, 2), r.types + Digits(m, 2);
    SlicesOfParts(head, r.key, counts, r.ids);
    assert head[2..4] == Digits(n, 2) && counts[4..6] == Digits(m, 2);
  }

  /** A record is read as itself, whatever stands behind it. */
  lemma RecordIsRead(r: Record, rest: Bytes)
    requires r.Valid()
    ensures ParseRecord(r.Written() + rest) == Ok((AsPair(r), rest))
  {
    WrittenIsWhole(r);
    hide ParseRecord, Need, Record.Written;
    SmallIsRead(AsPair(r), rest);
  }

  function Pairs(rs: seq<Record>): seq<Pair> {
    Sorting.Mapped(rs, AsPair)
  }

  lemma PairsCons(rs: seq<Record>)
    requires rs != []
    ensures Pairs(rs) == [AsPair(rs[0])] + Pairs(rs[1..]) && Pairs(rs)[1..] == Pairs(rs[1..])
  {
    hide AsPair;
  }

  lemma {:induction false} RecordsAreRead(rs: seq<Record>)
    requires forall r :: r in rs ==> r.Valid()
    ensures ParseRecords(|rs|, AllWritten(rs)) == Ok(Records(Pairs(rs), []))
  {
    hide ParseRecord, Record.Written, AsPair, Record.Valid;
    if rs != [] {
      assert rs[0] in rs;
      RecordIsRead(rs[0], AllWritten(rs[1..]));
      RecordsAreRead(rs[1..]);
      PairsCons(rs);
    }
  }

  lemma {:induction false} FlatPairs(rs: seq<Record>)
    ensures Flat(Pairs(rs)) == AllWritten(rs)
  {
    hide Record.Written;
    if rs != [] {
      PairsCons(rs);
      FlatPairs(rs[1..]);
    }
  }

  lemma PayloadIsPacked(z: Zlib, rs: seq<Record>)
    requires Fits(z, rs)
    ensures Pack(z, |rs|, |AllWritten(rs)|, AllWritten(rs)) == Ok(Payload(z, rs))
  {
    var raw := AllWritten(rs);
    DigitsArePacked(|rs|);
    DigitsArePacked(|raw|);
    DigitsArePacked(|z.compress(raw)|);
  }

  lemma ProfilesAre(z: Zlib, data: Bytes, n: nat, raw: Bytes, ps: seq<Pair>)
    requires Unpack(z, data) == Ok((n, raw)) && ParseRecords(n, raw) == Ok(Records(ps, []))
    ensures Profiles(z, data) == Ok(ps)
  {
  }

  /** A payload that holds some records is accepted, with those records. */
  lemma PayloadIsRead(z: Zlib, rs: seq<Record>)
    requires z.Inverse() && Fits(z, rs)
    ensures Profiles(z, Payload(z, rs)) == Ok(Pairs(rs)) && |Pairs(rs)| == |rs| && Flat(Pairs(rs)) == AllWritten(rs)
  {
    hide Record.Valid, Payload, AllWritten, Pack, Unpack, Profiles, ParseRecords, Pairs;
    var raw := AllWritten(rs);
    PayloadIsPacked(z, rs);
    RecordsAreRead(rs);
    UnpackPacked(z, |rs|, |raw|, raw);
    ProfilesAre(z, Payload(z, rs), |rs|, raw, Pairs(rs));
    FlatPairs(rs);
    PairsLength(rs);
  }

  lemma PairsLength(rs: seq<Record>)
    ensures |Pairs(rs)| == |rs|
  {
  }

  // ----- They are sorted -----

  /** The records with the indices of their places. */
  function Reindexed(rs: seq<Record>, from: nat): (r: seq<Record>)
    ensures |r| == |rs| && forall i :: 0 <= i < |rs| ==> r[i] == rs[i].(index := from + i)
  {
    seq(|rs|, i requires 0 <= i < |rs| => rs[i].(index := from + i))
  }

  /** Sooner by its key or, for one key, by its bytes. */
  ghost predicate Sooner(r: Record, q: Record) {
    Earlier(r.key, q.key) || (r.key == q.key && Earlier(r.Written(), q.Written()))
  }

  /** No record stands behind one that it is sooner than. */
  ghost predicate InOrder(rs: seq<Record>) {
    forall i, j :: 0 <= i < j < |rs| ==> !Sooner(rs[j], rs[i])
  }

  predicate RecordBefore(r: Record, q: Record) {
    PairBefore(AsPair(r), AsPair(q))
  }

  lemma SoonerIff(r: Record, q: Record)
    ensures Sooner(r, q) <==> RecordBefore(r, q)
  {
    hide Record.Written, Earlier, Le;
    EarlierIff(r.key, q.key);
    EarlierIff(r.Written(), q.Written());
    if r.key == q.key {
      LeTotal(r.key, q.key);
    }
  }

  function Arranged(rs: seq<Record>): seq<Record> {
    Sorting.Sort(rs, RecordBefore)
  }

  /** Sorting the pairs that are parsed arranges the records they stand for. */
  lemma PairsSort(rs: seq<Record>)
    ensures Sort(Pairs(rs)) == Pairs(Arranged(rs))
    ensures multiset(Arranged(rs)) == multiset(rs) && |Arranged(rs)| == |rs|
  {
    hide AsPair, PairBefore, Sorting.Sort;
    assert forall x, y :: RecordBefore(x, y) == PairBefore(AsPair(x), AsPair(y));
    Sorting.SortMaps(rs, AsPair, RecordBefore, PairBefore);
    Sorting.SortKeeps(rs, RecordBefore);
  }

  lemma ArrangedInOrder(rs: seq<Record>)
    ensures InOrder(Arranged(rs)) && multiset(Arranged(rs)) == multiset(rs)
  {
    var os := Arranged(rs);
    PairsSort(rs);
    SortSorts(Pairs(rs));
    hide Sooner, Arranged, Sort, PairLe, AsPair;
    forall i, j | 0 <= i < j < |os|
      ensures !Sooner(os[j], os[i])
    {
      assert Pairs(os)[i] == AsPair(os[i]) && Pairs(os)[j] == AsPair(os[j]);
      SoonerIff(os[j], os[i]);
    }
  }

  lemma RenumberedRecord(r: Record, i: nat)
    requires i < 0x1_0000
    ensures Pack16(i) + Body(AsPair(r)) == r.(index := i).Written()
  {
    DigitsArePacked(i);
    hide Pack16, Digits;
    assert Back(r.Written(), 2) == Digits(|r.key|, 2) + r.key + r.types + Digits(|r.ids| / 2, 2) + r.ids;
  }

  lemma {:induction false} RenumberedPairs(rs: seq<Record>, from: nat)
    requires from + |rs| <= 0x1_0000
    ensures |Pairs(rs)| == |rs| && Renumber(Pairs(rs), from) == AllWritten(Reindexed(rs, from))
  {
    hide AsPair, Record.Written, Pack16, Body;
    if rs != [] {
      PairsCons(rs);
      RenumberedRecord(rs[0], from);
      RenumberedPairs(rs[1..], from + 1);
      assert Reindexed(rs, from)[1..] == Reindexed(rs[1..], from + 1);
    }
  }

  /**
    For the payload of any records, what is written is the payload of the same records in
    order, each with the index of its place; only a compressed size that does not fit fails.
  */
  lemma PayloadIsSorted(z: Zlib, rs: seq<Record>)
    requires z.Inverse() && Fits(z, rs)
    ensures Profiles(z, Payload(z, rs)).Ok?
    ensures var ps, os := Profiles(z, Payload(z, rs)).value, Reindexed(Arranged(rs), 0);
      && |ps| < 0x1_0000 && |Flat(ps)| < 0x1_0000_0000
      && multiset(Arranged(rs)) == multiset(rs) && InOrder(Arranged(rs))
      && Canonical(z, ps) == if Fits(z, os) then Ok(Payload(z, os)) else Err(TooLarge)
  {
    hide *;
    PayloadIsRead(z, rs);
    ProfilesFit(z, Payload(z, rs));
    ArrangedInOrder(rs);
    PairsSort(rs);
    ReindexedFits(z, rs);
    SizeIsKept(Pairs(rs));
    RenumberedPairs(Arranged(rs), 0);
    CanonicalIs(z, Pairs(rs), Reindexed(Arranged(rs), 0));
  }

  lemma ReindexedFits(z: Zlib, rs: seq<Record>)
    requires Fits(z, rs)
    ensures |rs| < 0x1_0000 && |AllWritten(rs)| < 0x1_0000_0000
    ensures forall r :: r in Reindexed(Arranged(rs), 0) ==> r.Valid()
  {
    hide AllWritten, Sorting.Sort;
    Sorting.SortKeeps(rs, RecordBefore);
    Sorting.SortedElements(Arranged(rs), rs);
    forall r | r in Reindexed(Arranged(rs), 0)
      ensures r.Valid()
    {
      var i :| 0 <= i < |rs| && r == Reindexed(Arranged(rs), 0)[i];
      assert Arranged(rs)[i] in Arranged(rs);
    }
  }

  lemma CanonicalIs(z: Zlib, ps: seq<Pair>, os: seq<Record>)
    requires |ps| == |os| < 0x1_0000 && |Flat(ps)| < 0x1_0000_0000 && |Sort(ps)| == |ps|
    requires Renumber(Sort(ps), 0) == AllWritten(os) && |AllWritten(os)| == |Flat(ps)|
    requires forall r :: r in os ==> r.Valid()
    ensures Canonical(z, ps) == if Fits(z, os) then Ok(Payload(z, os)) else Err(TooLarge)
  {
    hide Payload, AllWritten, Renumber, Sort, Record.Valid;
    if Fits(z, os) {
      PayloadIsPacked(z, os);
    }
  }
}
