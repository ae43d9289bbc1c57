/** Stable sorting by an order that need only compare: Python's `sorted` and `list.sort`. */
module Sorting {
  predicate Weak<T>(x: T, y: T, z: T, before: (T, T) -> bool) {
    && !before(x, x)
    && (before(x, y) && before(y, z) ==> before(x, z))
    && (before(x, z) ==> before(x, y) || before(y, z))
  }

  /** On the elements of a list the order is a strict weak order. */
  ghost predicate WeakOrderOn<T>(xs: seq<T>, before: (T, T) -> bool) {
    forall i, j, k :: 0 <= i < |xs| && 0 <= j < |xs| && 0 <= k < |xs| ==> Weak(xs[i], xs[j], xs[k], before)
  }

  predicate Ordered<T>(xs: seq<T>, before: (T, T) -> bool) {
    forall i, j :: 0 <= i < j < |xs| ==> !before(xs[j], xs[i])
  }

  function Insert<T>(x: T, xs: seq<T>, before: (T, T) -> bool): seq<T> {
    if xs == [] then [x]
    else if !before(xs[0], x) then [x] + xs
    else [xs[0]] + Insert(x, xs[1..], before)
  }

  function Sort<T>(xs: seq<T>, before: (T, T) -> bool): seq<T> {
    if xs == [] then [] else Insert(xs[0], Sort(xs[1..], before), before)
  }

  lemma {:induction false} InsertKeeps<T>(x: T, xs: seq<T>, before: (T, T) -> bool)
    ensures multiset(Insert(x, xs, before)) == multiset{x} + multiset(xs)
  {
    if xs != [] && before(xs[0], x) {
      InsertKeeps(x, xs[1..], before);
      assert xs == [xs[0]] + xs[1..];
    }
  }

  lemma {:induction false} SortKeeps<T>(xs: seq<T>, before: (T, T) -> bool)
    ensures multiset(Sort(xs, before)) == multiset(xs) && |Sort(xs, before)| == |xs|
  {
    hide Insert;
    if xs != [] {
      SortKeeps(xs[1..], before);
      InsertKeeps(xs[0], Sort(xs[1..], before), before);
      assert xs == [xs[0]] + xs[1..];
    }
    assert |multiset(Sort(xs, before))| == |multiset(xs)|;
  }

  /** The order is a weak one on any list with the same elements, and on part of the list. */
  lemma WeakOrderWithin<T>(xs: seq<T>, ys: seq<T>, before: (T, T) -> bool)
    requires WeakOrderOn(xs, before) && forall y :: y in ys ==> y in xs
    ensures WeakOrderOn(ys, before)
  {
    forall i, j, k | 0 <= i < |ys| && 0 <= j < |ys| && 0 <= k < |ys|
      ensures Weak(ys[i], ys[j], ys[k], before)
    {
      assert ys[i] in xs && ys[j] in xs && ys[k] in xs;
      var i' :| 0 <= i' < |xs| && xs[i'] == ys[i];
      var j' :| 0 <= j' < |xs| && xs[j'] == ys[j];
      var k' :| 0 <= k' < |xs| && xs[k'] == ys[k];
      assert Weak(xs[i'], xs[j'], xs[k'], before);
    }
  }

  /** Nothing in an ordered list precedes what its first element does not precede. */
  lemma NonePrecedes<T>(x: T, xs: seq<T>, before: (T, T) -> bool)
    requires xs != [] && Ordered(xs, before) && WeakOrderOn([x] + xs, before) && !before(xs[0], x)
    ensures Ordered([x] + xs, before)
  {
    hide Weak;
    var all := [x] + xs;
    forall j | 0 <= j < |xs|
      ensures !before(xs[j], x)
    {
      if j > 0 {
        assert Weak(all[j + 1], all[1], all[0], before);
        KeepsOff(xs[j], xs[0], x, before);
      }
    }
  }

  lemma KeepsOff<T>(x: T, y: T, z: T, before: (T, T) -> bool)
    requires Weak(x, y, z, before) && !before(x, y) && !before(y, z)
    ensures !before(x, z)
  {
  }

  lemma OrderedCons<T>(y: T, tail: seq<T>, before: (T, T) -> bool)
    requires Ordered(tail, before) && forall z :: z in tail ==> !before(z, y)
    ensures Ordered([y] + tail, before)
  {
    var all := [y] + tail;
    forall i, j | 0 <= i < j < |all|
      ensures !before(all[j], all[i])
    {
      assert all[j] == tail[j - 1] && tail[j - 1] in tail;
      assert i > 0 ==> all[i] == tail[i - 1];
    }
  }

  lemma Asymmetric<T>(x: T, y: T, before: (T, T) -> bool)
    requires Weak(x, y, x, before) && before(x, y)
    ensures !before(y, x)
  {
  }

  lemma {:induction false} InsertOrders<T>(x: T, xs: seq<T>, before: (T, T) -> bool)
    requires Ordered(xs, before) && WeakOrderOn([x] + xs, before)
    ensures Ordered(Insert(x, xs, before), before)
  {
    hide Weak, WeakOrderOn;
    if xs == [] {
    } else if !before(xs[0], x) {
      NonePrecedes(x, xs, before);
    } else {
      WeakAtFront(x, xs, before);
      InsertOrders(x, xs[1..], before);
      InsertKeeps(x, xs[1..], before);
      var tail := Insert(x, xs[1..], before);
      forall z | z in tail
        ensures !before(z, xs[0])
      {
        assert z in multiset(tail);
        if z == x {
          Asymmetric(xs[0], x, before);
        } else {
          assert z in xs[1..];
        }
      }
      OrderedCons(xs[0], tail, before);
    }
  }

  lemma WeakAtFront<T>(x: T, xs: seq<T>, before: (T, T) -> bool)
    requires xs != [] && WeakOrderOn([x] + xs, before)
    ensures WeakOrderOn([x] + xs[1..], before) && Weak(xs[0], x, xs[0], before)
  {
    hide Weak;
    var all := [x] + xs;
    WeakOrderWithin(all, [x] + xs[1..], before);
    assert Weak(all[1], all[0], all[1], before);
  }

  lemma {:induction false} SortOrders<T>(xs: seq<T>, before: (T, T) -> bool)
    requires WeakOrderOn(xs, before)
    ensures Ordered(Sort(xs, before), before)
  {
    hide Insert, Ordered;
    if xs == [] {
      NothingOrdered(before);
    } else {
      var rest := Sort(xs[1..], before);
      WeakOrderWithin(xs, xs[1..], before);
      SortOrders(xs[1..], before);
      SortKeeps(xs[1..], before);
      forall y | y in [xs[0]] + rest
        ensures y in xs
      {
        InTail(xs, rest, y);
      }
      WeakOrderWithin(xs, [xs[0]] + rest, before);
      InsertOrders(xs[0], rest, before);
    }
  }

  lemma NothingOrdered<T>(before: (T, T) -> bool)
    ensures Ordered([], before)
  {
  }

  lemma SortedElements<T>(xs: seq<T>, ys: seq<T>)
    requires multiset(xs) == multiset(ys)
    ensures forall x :: x in xs <==> x in ys
  {
    forall x
      ensures x in xs <==> x in ys
    {
      assert x in xs <==> x in multiset(xs);
      assert x in ys <==> x in multiset(ys);
    }
  }

  lemma InTail<T>(xs: seq<T>, tail: seq<T>, y: T)
    requires xs != [] && multiset(tail) == multiset(xs[1..]) && y in [xs[0]] + tail
    ensures y in xs
  {
    if y != xs[0] {
      assert y in tail;
      assert y in multiset(tail);
      assert y in xs[1..];
    }
  }

  // ----- Renaming -----

  function Mapped<S, T>(xs: seq<S>, f: S -> T): seq<T> {
    seq(|xs|, i requires 0 <= i < |xs| => f(xs[i]))
  }

  lemma MappedCons<S, T>(x: S, xs: seq<S>, f: S -> T)
    ensures Mapped([x] + xs, f) == [f(x)] + Mapped(xs, f)
  {
  }

  lemma {:induction false} InsertMaps<S, T>(x: S, xs: seq<S>, f: S -> T, before: (S, S) -> bool,
                                           before': (T, T) -> bool)
    requires forall y :: y in xs ==> before(y, x) == before'(f(y), f(x))
    ensures Insert(f(x), Mapped(xs, f), before') == Mapped(Insert(x, xs, before), f)
  {
    if xs == [] {
      MappedCons(x, [], f);
      assert [x] + [] == [x];
    } else {
      var tail := xs[1..];
      assert xs == [xs[0]] + tail && xs[0] in xs;
      MappedCons(xs[0], tail, f);
      assert Mapped(xs, f)[1..] == Mapped(tail, f);
      if before(xs[0], x) {
        InsertMaps(x, tail, f, before, before');
        MappedCons(xs[0], Insert(x, tail, before), f);
      } else {
        MappedCons(x, xs, f);
      }
    }
  }

  /** Renamed elements are sorted like the elements themselves. */
  lemma {:induction false} SortMaps<S, T>(xs: seq<S>, f: S -> T, before: (S, S) -> bool, before': (T, T) -> bool)
    requires forall x, y :: x in xs && y in xs ==> before(x, y) == before'(f(x), f(y))
    ensures Sort(Mapped(xs, f), before') == Mapped(Sort(xs, before), f)
  {
    hide Insert;
    if xs != [] {
      var tail := xs[1..];
      assert xs == [xs[0]] + tail && xs[0] in xs;
      MappedCons(xs[0], tail, f);
      assert Mapped(xs, f)[1..] == Mapped(tail, f);
      SortMaps(tail, f, before, before');
      SortKeeps(tail, before);
      forall y | y in Sort(tail, before)
        ensures y in xs
      {
        InTail(xs, Sort(tail, before), y);
      }
      InsertMaps(xs[0], Sort(tail, before), f, before, before');
    }
  }

  // ----- Stability -----

  function Those<T>(xs: seq<T>, p: T -> bool): seq<T> {
    if xs == [] then [] else (if p(xs[0]) then [xs[0]] else []) + Those(xs[1..], p)
  }

  lemma ThoseCons<T>(x: T, xs: seq<T>, p: T -> bool)
    ensures Those([x] + xs, p) == (if p(x) then [x] else []) + Those(xs, p)
  {
    assert ([x] + xs)[1..] == xs;
  }

  lemma {:induction false} InsertIsStable<T>(x: T, xs: seq<T>, before: (T, T) -> bool, p: T -> bool)
    requires forall y :: y in xs ==> (p(x) && p(y) ==> !before(y, x))
    ensures Those(Insert(x, xs, before), p) == Those([x] + xs, p)
  {
    hide Those;
    if xs == [] {
      assert [x] + xs == [x];
    } else if before(xs[0], x) {
      var tail := xs[1..];
      InsertIsStable(x, tail, before, p);
      ThoseCons(x, tail, p);
      ThoseCons(xs[0], tail, p);
      ThoseCons(xs[0], Insert(x, tail, before), p);
      ThoseCons(x, xs, p);
      assert xs == [xs[0]] + tail && xs[0] in xs;
    }
  }

  /** Elements that tie keep their order. */
  lemma {:induction false} SortIsStable<T>(xs: seq<T>, before: (T, T) -> bool, p: T -> bool)
    requires forall x, y :: x in xs && y in xs ==> (p(x) && p(y) ==> !before(x, y))
    ensures Those(Sort(xs, before), p) == Those(xs, p)
  {
    hide Insert;
    if xs != [] {
      SortIsStable(xs[1..], before, p);
      var tail := Sort(xs[1..], before);
      SortKeeps(xs[1..], before);
      forall y | y in tail
        ensures y in xs
      {
        InTail(xs, tail, y);
      }
      assert xs[0] in xs;
      InsertIsStable(xs[0], tail, before, p);
      ThoseCons(xs[0], tail, p);
    }
  }
}
