/**
  Archives that are cut into stretches: which cuts the reads of `uncpio` and of its
  consumer do not notice.
*/
module CpioCuts {
  import opened ByteStrings
  import opened Cpio
  import opened CpioReach
  import opened CpioStream
  import opened Streams
  import opened Wrappers

  // ----- What lies behind some bytes -----

  /** The stretches behind the first `n` bytes. */
  function After(ss: seq<Bytes>, n: nat): (r: seq<Bytes>)
    requires ss != []
    ensures r != []
    decreases |ss|
  {
    if n <= |ss[0]| then [ss[0][n..]] + ss[1..]
    else if |ss| == 1 then [[]]
    else After(ss[1..], n - |ss[0]|)
  }

  lemma {:induction false} AfterConcat(ss: seq<Bytes>, n: nat)
    requires ss != []
    ensures Concat(After(ss, n)) == Back(Concat(ss), n)
    ensures AllInReach(ss) ==> AllInReach(After(ss, n))
    decreases |ss|
  {
    FirstStretch(ss);
    if n <= |ss[0]| {
      FirstStretch(After(ss, n));
      assert After(ss, n)[1..] == ss[1..];
    } else if |ss| == 1 {
      OneStretch([]);
    } else {
      FirstStretch(ss[1..]);
      AfterConcat(ss[1..], n - |ss[0]|);
    }
  }

  lemma {:induction false} AfterAfter(ss: seq<Bytes>, m: nat, n: nat)
    requires ss != []
    ensures After(After(ss, m), n) == After(ss, m + n)
    decreases |ss|
  {
    if m <= |ss[0]| {
      var t := After(ss, m);
      assert t[1..] == ss[1..];
      assert m + n <= |ss[0]| ==> ss[0][m..][n..] == ss[0][m + n..];
    } else if |ss| > 1 {
      AfterAfter(ss[1..], m - |ss[0]|, n);
    }
  }

  // ----- Reading a buffer at a time -----

  /** One read gets `n` bytes, or all there are. */
  predicate Uncut(ss: seq<Bytes>, n: nat)
    requires ss != []
  {
    n <= |ss[0]| || AllInReach(ss)
  }

  /**
    Reads of `size` bytes get past every stretch among the first `limit` bytes: none of them
    ends where a stretch does.
  */
  predicate Passes(ss: seq<Bytes>, limit: nat, size: nat)
    requires ss != [] && size > 0
    decreases |ss|
  {
    Uncut(ss, limit) || (|ss[0]| % size != 0 && |ss| > 1 && Passes(ss[1..], limit - |ss[0]|, size))
  }

  lemma LessIsPassed(ss: seq<Bytes>, n: nat, limit: nat, size: nat)
    requires ss != [] && 0 < size && n <= |ss[0]| && (n == size || limit <= |ss[0]|) && n <= limit
    ensures Passes([ss[0][n..]] + ss[1..], limit - n, size) == Passes(ss, limit, size)
  {
    var t := [ss[0][n..]] + ss[1..];
    assert t[1..] == ss[1..];
    if n == size {
      SameRemainder(|ss[0]|, size);
    }
  }

  lemma SameRemainder(n: nat, size: nat)
    requires 0 < size <= n
    ensures (n - size) % size == n % size
  {
    DivMod(size, n);
    DivModUnique(size, n / size - 1, n % size, n - size);
  }

  /** What the first of the reads gives and leaves. */
  lemma FirstRead(w: Window, size: nat)
    requires w.Valid() && size > 0
    ensures var n := Min(size, w.limit);
      View(w, Some(size)) ==
        if n <= |w.ss[0]| then Viewing(w.ss[0][..n], Window([w.ss[0][n..]] + w.ss[1..], w.limit - n))
        else Viewing(w.ss[0], Window(if |w.ss| == 1 then [[]] else w.ss[1..], w.limit - |w.ss[0]|))
  {
  }

  /** What reads that get past every stretch give, and where they end. */
  ghost predicate Passed(w: Window, v: Viewing)
    requires w.Valid() && v.w.Valid()
  {
    && v.data == w.Whole() && Concat(v.w.ss) == w.Behind() && v.w.limit == w.limit - |v.data|
    && (w.limit <= |Concat(w.ss)| ==> v.w.ss == After(w.ss, w.limit))
    && (AllInReach(w.ss) || w.limit > |Concat(w.ss)| ==> AllInReach(v.w.ss))
  }

  lemma PassedOn(w: Window, n: nat, v: Viewing, data: Bytes)
    requires w.Valid() && v.w.Valid() && n <= |w.ss[0]| && n <= w.limit && data == w.ss[0][..n] + v.data
    requires Passed(Window([w.ss[0][n..]] + w.ss[1..], w.limit - n), v)
    ensures Passed(w, Viewing(data, v.w))
  {
    hide After, Concat, AllInReach;
    var t := [w.ss[0][n..]] + w.ss[1..];
    AfterFirst(w.ss, n, w.limit - n);
    WindowMoves(Concat(w.ss), w.limit, w.ss[0][..n], Concat(t));
  }

  lemma AfterFirst(ss: seq<Bytes>, n: nat, m: nat)
    requires ss != [] && n <= |ss[0]|
    ensures var t := [ss[0][n..]] + ss[1..];
      && Concat(ss) == ss[0][..n] + Concat(t) && After(t, m) == After(ss, n + m)
      && AllInReach(t) == AllInReach(ss)
  {
    var t := [ss[0][n..]] + ss[1..];
    FirstStretch(ss);
    FirstStretch(t);
    assert t[1..] == ss[1..] && t == After(ss, n);
    AfterAfter(ss, n, m);
    hide After, Concat;
    Assoc(ss[0][..n], ss[0][n..], Concat(ss[1..]));
    assert ss[0][..n] + ss[0][n..] == ss[0];
  }

  lemma PassedNext(w: Window, v: Viewing, data: Bytes)
    requires w.Valid() && v.w.Valid() && w.limit > |w.ss[0]| && |w.ss| > 1 && data == w.ss[0] + v.data
    requires Passed(Window(w.ss[1..], w.limit - |w.ss[0]|), v)
    ensures Passed(w, Viewing(data, v.w))
  {
    FirstStretch(w.ss);
    FirstStretch(w.ss[1..]);
    hide Concat;
    WindowMoves(Concat(w.ss), w.limit, w.ss[0], Concat(w.ss[1..]));
  }

  lemma PassedNothing(w: Window)
    requires w.Valid() && w.limit == 0
    ensures Passed(w, Viewing([], w))
  {
    assert [w.ss[0][0..]] + w.ss[1..] == w.ss;
  }

  lemma PassedAll(w: Window, left: seq<Bytes>)
    requires w.Valid() && w.limit > 0 && Concat(w.ss) == [] && left == (if |w.ss| == 1 then [[]] else w.ss[1..])
    ensures Passed(w, Viewing([], Window(left, w.limit)))
  {
    FirstStretch(w.ss);
    FirstStretch(left);
    OneStretch([]);
  }

  lemma ExhaustUnfold(w: Window, size: nat)
    requires w.Valid() && size > 0
    ensures var first := View(w, Some(size));
      Exhaust(w, size) ==
        if first.data == [] then first
        else Viewing(first.data + Exhaust(first.w, size).data, Exhaust(first.w, size).w)
  {
    hide View;
  }

  lemma {:induction false} ExhaustThrough(w: Window, size: nat)
    requires w.Valid() && size > 0 && Passes(w.ss, w.limit, size)
    ensures Passed(w, Exhaust(w, size))
    decreases w.limit
  {
    hide View, Exhaust, Passed, Concat;
    ExhaustUnfold(w, size);
    FirstRead(w, size);
    FirstStretch(w.ss);
    var n := Min(size, w.limit);
    if n <= |w.ss[0]| {
      var w' := Window([w.ss[0][n..]] + w.ss[1..], w.limit - n);
      if n == 0 {
        PassedNothing(w);
        assert w' == w by { assert [w.ss[0][0..]] + w.ss[1..] == w.ss; }
      } else {
        LessIsPassed(w.ss, n, w.limit, size);
        ExhaustThrough(w', size);
        PassedOn(w, n, Exhaust(w', size), Exhaust(w, size).data);
      }
    } else if w.ss[0] == [] {
      assert AllInReach(w.ss) && [] + Concat(w.ss[1..]) == Concat(w.ss[1..]);
      PassedAll(w, View(w, Some(size)).w.ss);
    } else {
      ExhaustPastFirst(w, size);
    }
  }

  lemma ExhaustPastFirst(w: Window, size: nat)
    requires w.Valid() && size > 0 && Passes(w.ss, w.limit, size) && |w.ss[0]| < Min(size, w.limit) && w.ss[0] != []
    ensures Passed(w, Exhaust(w, size))
    decreases w.limit, 0
  {
    var w' := Window(if |w.ss| == 1 then [[]] else w.ss[1..], w.limit - |w.ss[0]|);
    if AllInReach(w.ss) {
      NothingAhead(w.ss);
    }
    hide View, Exhaust, Passed, Concat;
    ExhaustUnfold(w, size);
    FirstRead(w, size);
    ExhaustThrough(w', size);
    if |w.ss| > 1 {
      PassedNext(w, Exhaust(w', size), Exhaust(w, size).data);
    } else {
      PassedLast(w, Exhaust(w', size), Exhaust(w, size).data);
    }
  }

  lemma NothingAhead(ss: seq<Bytes>)
    requires ss != [] && AllInReach(ss)
    ensures AllInReach(if |ss| == 1 then [[]] else ss[1..])
  {
    if |ss| > 1 {
      FirstStretch(ss[1..]);
    } else {
      OneStretch([]);
    }
  }

  lemma PassedLast(w: Window, v: Viewing, data: Bytes)
    requires w.Valid() && v.w.Valid() && |w.ss| == 1 && w.limit > |w.ss[0]| && data == w.ss[0] + v.data
    requires Passed(Window([[]], w.limit - |w.ss[0]|), v)
    ensures Passed(w, Viewing(data, v.w))
  {
    FirstStretch(w.ss);
    OneStretch([]);
    assert v.data == [];
  }

  /** When one of the reads ends where a stretch does, what follows is not read. */
  lemma {:induction false} ExhaustStops(w: Window, size: nat)
    requires w.Valid() && size > 0 && !Passes(w.ss, w.limit, size)
    ensures |Exhaust(w, size).data| < |w.Whole()|
    decreases w.limit
  {
    hide View, Exhaust, Concat;
    ExhaustUnfold(w, size);
    FirstRead(w, size);
    FirstStretch(w.ss);
    var n := Min(size, w.limit);
    if n <= |w.ss[0]| {
      var w' := Window([w.ss[0][n..]] + w.ss[1..], w.limit - n);
      if n > 0 {
        LessIsPassed(w.ss, n, w.limit, size);
        ExhaustStops(w', size);
        FirstStretch(w'.ss);
        assert w'.ss[1..] == w.ss[1..];
      }
    } else if w.ss[0] != [] {
      var w' := Window(w.ss[1..], w.limit - |w.ss[0]|);
      assert |w.ss[0]| % size == |w.ss[0]| by { DivModUnique(size, 0, |w.ss[0]|, |w.ss[0]|); }
      ExhaustStops(w', size);
    }
  }

  /** Reading a buffer at a time gets all of a window exactly when no read ends where a stretch does. */
  lemma ExhaustIff(w: Window, size: nat)
    requires w.Valid() && size > 0
    ensures Exhaust(w, size).data == w.Whole() <==> Passes(w.ss, w.limit, size)
  {
    hide Exhaust, Passes;
    if Passes(w.ss, w.limit, size) {
      ExhaustThrough(w, size);
    } else {
      ExhaustStops(w, size);
    }
  }

  // ----- Items -----

  /** How many bytes are looked at to find the item at the start of `s`. */
  function Looked(s: Bytes): nat {
    if Front(s, 6) != MAGIC then 6
    else match ParseHead(s) case Err(_) => 6 + HEADER_SIZE case Ok(h) => 6 + HEADER_SIZE + h.namesize
  }

  /** A cut behind what is looked at is not noticed in finding the item. */
  lemma ItemWhole(ss: seq<Bytes>)
    requires ss != [] && Uncut(ss, Looked(Concat(ss)))
    ensures match ParseItem(Concat(ss))
      case Err(e) => ItemAt(ss) == Err(e)
      case Ok(Trailer(_)) => ItemAt(ss) == Ok(EndOfArchive)
      case Ok(Member(name, info, size, rest)) =>
        && ItemAt(ss).Ok? && ItemAt(ss).value.MemberAt?
        && var m := ItemAt(ss).value;
        && m.name == name && m.info == info && m.contents.limit == size && Concat(m.contents.ss) == rest
        && (if AllInReach(ss) then AllInReach(m.contents.ss) else m.contents.ss == After(ss, Looked(Concat(ss))))
  {
    hide ParseHead, ParseItem, ItemAt, Concat;
    if AllInReach(ss) {
      ItemInReach(ss);
      if ItemAt(ss).Ok? && ItemAt(ss).value.MemberAt? {
        ItemStaysInReach(ss);
      }
    } else {
      ItemInFirst(ss);
    }
  }

  lemma ItemStaysInReach(ss: seq<Bytes>)
    requires ss != [] && AllInReach(ss) && ItemAt(ss).Ok? && ItemAt(ss).value.MemberAt?
    ensures AllInReach(ItemAt(ss).value.contents.ss)
  {
    hide ParseHeader, ReadFrom, AllInReach, NameItem;
    ExactReads(ss, Some(6));
    var magic := ReadFrom(ss, Some(6));
    ExactReads(magic.left, Some(HEADER_SIZE));
    var header := ReadFrom(magic.left, Some(HEADER_SIZE));
    ExactReads(header.left, Some(ParseHeader(header.data).value.namesize));
  }

  lemma ItemInFirst(ss: seq<Bytes>)
    requires ss != [] && Looked(Concat(ss)) <= |ss[0]|
    ensures match ParseItem(Concat(ss))
      case Err(e) => ItemAt(ss) == Err(e)
      case Ok(Trailer(_)) => ItemAt(ss) == Ok(EndOfArchive)
      case Ok(Member(name, info, size, rest)) =>
        ItemAt(ss) == Ok(MemberAt(name, info, Window(After(ss, Looked(Concat(ss))), size)))
        && Concat(After(ss, Looked(Concat(ss)))) == rest
  {
    var s := Concat(ss);
    FirstStretch(ss);
    if Front(s, 6) != MAGIC {
      WrongMagic(ss);
    } else {
      hide ParseHead, ItemAt, Concat, HeadAt;
      if ParseHead(s).Err? {
        HeadThenCut(ss);
        NoItemWithoutHead(ss);
      } else {
        ItemThenCut(ss);
      }
    }
  }

  lemma NoItemWithoutHead(ss: seq<Bytes>)
    requires ss != []
    ensures HeadAt(ss).Err? ==> ItemAt(ss) == Err(HeadAt(ss).error)
    ensures ParseHead(Concat(ss)).Err? ==> ParseItem(Concat(ss)) == Err(ParseHead(Concat(ss)).error)
  {
    hide HeadAt, ParseHead, Concat;
  }

  lemma WrongMagic(ss: seq<Bytes>)
    requires ss != [] && Front(Concat(ss), 6) != MAGIC && 6 <= |ss[0]|
    ensures ParseItem(Concat(ss)).Err? && ItemAt(ss) == Err(ParseItem(Concat(ss)).error)
  {
    hide Concat, ParseHeader;
    FirstStretch(ss);
    var s := Concat(ss);
    assert Front(s, 6) == ss[0][..6];
    assert MAGIC[..4] <= ss[0][..6] <==> MAGIC[..4] <= s;
  }

  /** A cut that the reads of the next item notice: they find another item, or none. */
  lemma ItemCut(ss: seq<Bytes>)
    requires ss != [] && ParseItem(Concat(ss)).Ok? && !Uncut(ss, Looked(Concat(ss)))
    ensures match ItemAt(ss)
      case Err(_) => true
      case Ok(EndOfArchive) => ParseItem(Concat(ss)).value.Member?
      case Ok(MemberAt(name, _, _)) => ParseItem(Concat(ss)).value.Member? ==> ParseItem(Concat(ss)).value.name != name
  {
    hide ItemAt, Concat;
    FirstIsShorter(ss);
    ItemParts(Concat(ss));
    if |ss[0]| < 6 + HEADER_SIZE {
      ShortMagic(ss);
    } else {
      ItemCutInName(ss);
    }
  }
}
