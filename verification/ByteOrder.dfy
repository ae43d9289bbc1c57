/** Byte strings in Python's order, and sorted lists of pairs of them. */
module ByteOrder {
  import opened ByteStrings
  import Sorting

  /** Lexicographic order; a proper prefix comes first. */
  predicate Le(a: Bytes, b: Bytes) {
    a == [] || (b != [] && (a[0] < b[0] || (a[0] == b[0] && Le(a[1..], b[1..]))))
  }

  lemma {:induction false} LeTotal(a: Bytes, b: Bytes)
    ensures Le(a, b) || Le(b, a)
  {
    if a != [] && b != [] {
      LeTotal(a[1..], b[1..]);
    }
  }

  lemma {:induction false} LeAntisymmetric(a: Bytes, b: Bytes)
    requires Le(a, b) && Le(b, a)
    ensures a == b
  {
    if a != [] {
      LeAntisymmetric(a[1..], b[1..]);
      assert a == [a[0]] + a[1..] && b == [b[0]] + b[1..];
    }
  }

  lemma {:induction false} LeTransitive(a: Bytes, b: Bytes, c: Bytes)
    requires Le(a, b) && Le(b, c)
    ensures Le(a, c)
  {
    if a != [] && a[0] == b[0] == c[0] {
      LeTransitive(a[1..], b[1..], c[1..]);
    }
  }

  /** A pair of byte strings, compared by the first and then by the second. */
  datatype Pair = Pair(key: Bytes, bytes: Bytes)

  predicate PairLe(p: Pair, q: Pair) {
    if p.key == q.key then Le(p.bytes, q.bytes) else Le(p.key, q.key)
  }

  lemma PairTotal(p: Pair, q: Pair)
    ensures PairLe(p, q) || PairLe(q, p)
  {
    LeTotal(p.key, q.key);
    LeTotal(p.bytes, q.bytes);
  }

  lemma PairAntisymmetric(p: Pair, q: Pair)
    requires PairLe(p, q) && PairLe(q, p)
    ensures p == q
  {
    if p.key != q.key {
      LeAntisymmetric(p.key, q.key);
    } else {
      LeAntisymmetric(p.bytes, q.bytes);
    }
  }

  lemma PairTransitive(p: Pair, q: Pair, r: Pair)
    requires PairLe(p, q) && PairLe(q, r)
    ensures PairLe(p, r)
  {
    if p.key == q.key == r.key {
      LeTransitive(p.bytes, q.bytes, r.bytes);
    } else if p.key != q.key && q.key != r.key {
      LeTransitive(p.key, q.key, r.key);
      if p.key == r.key {
        LeAntisymmetric(p.key, q.key);
      }
    }
  }

  predicate Sorted(ps: seq<Pair>) {
    forall i, j :: 0 <= i < j < |ps| ==> PairLe(ps[i], ps[j])
  }

  predicate PairBefore(p: Pair, q: Pair) {
    !PairLe(q, p)
  }

  /** `sorted(ps)`. */
  function Sort(ps: seq<Pair>): seq<Pair> {
    Sorting.Sort(ps, PairBefore)
  }

  lemma PairsAreOrdered(p: Pair, q: Pair, r: Pair)
    ensures Sorting.Weak(p, q, r, PairBefore)
  {
    hide PairLe;
    PairTotal(p, p);
    PairTotal(p, q);
    PairTotal(q, r);
    PairTotal(p, r);
    if PairLe(r, p) && !PairLe(q, p) {
      if PairLe(r, q) {
      } else {
        PairTransitive(q, r, p);
      }
    }
    if PairLe(q, p) && PairLe(r, q) {
      PairTransitive(r, q, p);
    }
  }

  lemma SortSorts(ps: seq<Pair>)
    ensures Sorted(Sort(ps)) && multiset(Sort(ps)) == multiset(ps) && |Sort(ps)| == |ps|
  {
    hide PairLe, Sorting.Sort, Sorting.Weak;
    forall i, j, k | 0 <= i < |ps| && 0 <= j < |ps| && 0 <= k < |ps|
      ensures Sorting.Weak(ps[i], ps[j], ps[k], PairBefore)
    {
      PairsAreOrdered(ps[i], ps[j], ps[k]);
    }
    Sorting.SortOrders(ps, PairBefore);
    Sorting.SortKeeps(ps, PairBefore);
    var ss := Sort(ps);
    assert forall i, j :: 0 <= i < j < |ss| ==> !PairBefore(ss[j], ss[i]);
  }

  lemma PairReflexive(p: Pair)
    ensures PairLe(p, p)
  {
    PairTotal(p, p);
  }

  lemma HeadLeast(ps: seq<Pair>, p: Pair)
    requires Sorted(ps) && p in multiset(ps)
    ensures PairLe(ps[0], p)
  {
    var i :| 0 <= i < |ps| && ps[i] == p;
    PairReflexive(p);
  }

  lemma TailMultiset(ps: seq<Pair>)
    requires ps != []
    ensures multiset(ps[1..]) == multiset(ps) - multiset{ps[0]}
  {
    assert ps == [ps[0]] + ps[1..];
  }

  /** Only one list with the given elements is sorted. */
  lemma {:induction false} SortedUnique(ps: seq<Pair>, qs: seq<Pair>)
    requires Sorted(ps) && Sorted(qs) && multiset(ps) == multiset(qs)
    ensures ps == qs
  {
    assert |multiset(ps)| == |multiset(qs)|;
    if ps != [] {
      HeadLeast(ps, qs[0]);
      HeadLeast(qs, ps[0]);
      PairAntisymmetric(ps[0], qs[0]);
      TailMultiset(ps);
      TailMultiset(qs);
      SortedUnique(ps[1..], qs[1..]);
      assert ps == [ps[0]] + ps[1..] && qs == [qs[0]] + qs[1..];
    }
  }

  // ----- What stands first -----

  /** Of two byte strings that have gone the same way so far: `s` ends first, or goes on with a smaller byte. */
  predicate Ahead(s: Bytes, t: Bytes) {
    t != [] && (s == [] || s[0] < t[0])
  }

  lemma {:induction false} AheadDecides(c: Bytes, s: Bytes, t: Bytes)
    requires Ahead(s, t)
    ensures !Le(c + t, c + s)
  {
    if c == [] {
      assert c + t == t && c + s == s;
    } else {
      assert (c + t)[0] == (c + s)[0] == c[0];
      assert (c + t)[1..] == c[1..] + t && (c + s)[1..] == c[1..] + s;
      AheadDecides(c[1..], s, t);
    }
  }

  /** Two different byte strings go the same way up to a place where one of them is ahead. */
  lemma {:induction false} PartWays(a: Bytes, b: Bytes) returns (c: Bytes, s: Bytes, t: Bytes)
    requires a != b
    ensures a == c + s && b == c + t && (Ahead(s, t) || Ahead(t, s))
  {
    if a == [] || b == [] || a[0] != b[0] {
      c, s, t := [], a, b;
    } else {
      assert a == [a[0]] + a[1..] && b == [b[0]] + b[1..];
      c, s, t := PartWays(a[1..], b[1..]);
      Assoc([a[0]], c, s);
      Assoc([b[0]], c, t);
      c := [a[0]] + c;
    }
  }

  /** One byte string is ahead of the other behind what they begin with alike. */
  ghost predicate Earlier(a: Bytes, b: Bytes) {
    exists k :: 0 <= k <= |a| && k <= |b| && a[..k] == b[..k] && Ahead(a[k..], b[k..])
  }

  lemma EarlierIff(a: Bytes, b: Bytes)
    ensures Earlier(a, b) <==> !Le(b, a)
  {
    hide Le;
    if Earlier(a, b) {
      var k :| 0 <= k <= |a| && k <= |b| && a[..k] == b[..k] && Ahead(a[k..], b[k..]);
      AheadDecides(a[..k], a[k..], b[k..]);
      assert a == a[..k] + a[k..] && b == b[..k] + b[k..];
    } else if a == b {
      LeTotal(a, b);
    } else {
      var c, s, t := PartWays(a, b);
      assert a[..|c|] == c == b[..|c|] && a[|c|..] == s && b[|c|..] == t;
      AheadDecides(c, t, s);
      LeTotal(a, b);
    }
  }

  lemma InFront(ps: seq<Pair>, j: nat, i: nat)
    requires j <= i < |Sort(ps)|
    ensures PairLe(Sort(ps)[j], Sort(ps)[i])
  {
    hide PairLe, Sort;
    SortSorts(ps);
    PairReflexive(Sort(ps)[i]);
  }

  /** After sorting, a key stands in front of every key that it is ahead of. */
  lemma AheadByKey(ps: seq<Pair>, i: nat, j: nat, c: Bytes, s: Bytes, t: Bytes)
    requires i < |Sort(ps)| && j < |Sort(ps)|
    requires Sort(ps)[i].key == c + s && Sort(ps)[j].key == c + t && Ahead(s, t)
    ensures i < j
  {
    hide Le, Sort;
    if j <= i {
      InFront(ps, j, i);
      AheadDecides(c, s, t);
      LeTotal(c + s, c + s);
    }
  }

  /** Of the pairs of one key, those whose bytes are ahead stand in front. */
  lemma AheadByBytes(ps: seq<Pair>, i: nat, j: nat, c: Bytes, s: Bytes, t: Bytes)
    requires i < |Sort(ps)| && j < |Sort(ps)| && Sort(ps)[i].key == Sort(ps)[j].key
    requires Sort(ps)[i].bytes == c + s && Sort(ps)[j].bytes == c + t && Ahead(s, t)
    ensures i < j
  {
    hide Le, Sort;
    if j <= i {
      InFront(ps, j, i);
      AheadDecides(c, s, t);
    }
  }
}
