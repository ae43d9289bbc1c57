/** Which ids are found in a Fluent file, and what renaming them does to it. */
module BrandingRenames {
  import opened BrandingStrings
  import opened Scanning
  import opened Wrappers

  // ----- Ids are found exactly at line starts -----

  /** The bounds of the chunks that are ids, for chunks that begin at `off`. */
  function Spans(chunks: seq<Chunk>, off: nat): seq<(nat, nat)> {
    if chunks == [] then []
    else
      var end := off + |chunks[0].text|;
      (if chunks[0].isId then [(off, end)] else []) + Spans(chunks[1..], end)
  }

  /** The ids of a Fluent file: at every line start from `i` on, the id that stands there. */
  function LineIds(s: string, i: nat): seq<(nat, nat)>
    requires i <= |s|
    decreases |s| - i
  {
    var here := if LineStart(s, i) && FluentId(s[i..]).Some? then [(i, i + FluentId(s[i..]).value.1)] else [];
    if i == |s| then here else here + LineIds(s, i + 1)
  }

  predicate IsId(x: string) {
    var a := Dash(x);
    a < |x| && IsLetter(x[a]) && All(IsIdChar, x[a + 1..])
  }

  /** A match is an id, and then blanks and an equals sign. */
  lemma MatchIsId(t: string)
    requires FluentId(t).Some?
    ensures var n := FluentId(t).value.1; IsId(t[..n]) && Assigns(t[n..])
  {
    var n := FluentId(t).value.1;
    var a := Dash(t);
    assert t[..n][a + 1..] == t[a + 1..][..n - a - 1];
    assert Dash(t[..n]) == a;
  }

  /** An id followed by blanks and an equals sign is found. */
  lemma IdIsMatched(x: string, w: string)
    requires IsId(x) && Assigns(w)
    ensures FluentId(x + w) == Some((0, |x|))
  {
    var a, t := Dash(x), x + w;
    assert Dash(t) == a && t[a] == x[a] && t[a + 1..] == x[a + 1..] + w;
    AssignsIsNoIdChar(w);
    assert (x[a + 1..] + w)[..|x| - a - 1] == x[a + 1..];
    SpanIs(t[a + 1..], IsIdChar, |x| - a - 1);
    assert t[|x|..] == w;
  }

  lemma AssignsIsNoIdChar(w: string)
    requires Assigns(w)
    ensures w != [] && !IsIdChar(w[0]) && w[0] != '-' && FluentId(w).None?
  {
    var n := Span(w, IsBlank);
    if n > 0 {
      assert w[..n][0] == w[0];
    }
  }

  /** No line starts inside an id, or right after it. */
  lemma NoLineInId(s: string, i: nat, k: nat)
    requires i < |s| && FluentId(s[i..]).Some? && i < k <= i + FluentId(s[i..]).value.1
    ensures !LineStart(s, k)
  {
    hide FluentId, Assigns;
    var t := s[i..];
    MatchIsId(t);
    var x := t[..FluentId(t).value.1];
    assert x[k - 1 - i] == s[k - 1];
    IdHasNoNewline(x, k - 1 - i);
  }

  lemma IdHasNoNewline(x: string, k: nat)
    requires IsId(x) && k < |x|
    ensures x[k] != '\n'
  {
    var a := Dash(x);
    if k > a {
      assert x[a + 1..][k - a - 1] == x[k];
    }
  }

  lemma {:induction false} SkipId(s: string, i: nat, k: nat)
    requires i < |s| && FluentId(s[i..]).Some? && i < k <= i + FluentId(s[i..]).value.1
    ensures LineIds(s, i + 1) == LineIds(s, k)
  {
    hide FluentId;
    if k > i + 1 {
      SkipId(s, i, k - 1);
      NoLineInId(s, i, k - 1);
    }
  }

  /** The rest of the text may be searched on its own: where it begins, no id begins. */
  predicate Synced(s: string, o: nat)
    requires o <= |s|
  {
    o == 0 || FluentId(s[o..]).None?
  }

  lemma DropOfDrop(s: string, o: nat, i: nat)
    requires o + i <= |s|
    ensures s[o..][i..] == s[o + i..]
  {
  }

  /** What a search of the rest from `i` should give. */
  predicate FindsId(s: string, o: nat, i: nat, found: Option<(nat, nat)>)
    requires o + i <= |s|
  {
    match found
    case None => LineIds(s, o + i) == []
    case Some((a, b)) =>
      a <= b <= |s| - o && FluentId(s[o + a..]) == Some((0, b - a))
      && LineIds(s, o + i) == [(o + a, o + b)] + LineIds(s, o + a + 1)
  }

  lemma IdHere(s: string, i: nat)
    requires i <= |s| && LineStart(s, i) && FluentId(s[i..]).Some?
    ensures var n := FluentId(s[i..]).value.1;
      i + n <= |s| && i < |s| && LineIds(s, i) == [(i, i + n)] + LineIds(s, i + 1)
  {
    hide FluentId;
  }

  lemma NoIdHere(s: string, i: nat)
    requires i <= |s| && (LineStart(s, i) ==> FluentId(s[i..]).None?)
    ensures LineIds(s, i) == if i < |s| then LineIds(s, i + 1) else []
  {
    hide FluentId;
  }

  lemma RestStarts(s: string, o: nat, i: nat)
    requires o + i <= |s| && Synced(s, o)
    ensures var found := LineStart(s[o..], i) && FluentId(s[o..][i..]).Some?;
      && (found ==> LineStart(s, o + i) && FluentId(s[o + i..]) == FluentId(s[o..][i..]))
      && (!found ==> LineStart(s, o + i) ==> FluentId(s[o + i..]).None?)
  {
    hide FluentId;
    DropOfDrop(s, o, i);
    assert i > 0 ==> s[o..][i - 1] == s[o + i - 1];
  }

  /** Searching a synced rest finds the next id of the whole text. */
  lemma {:induction false} SearchIsNext(s: string, o: nat, i: nat)
    requires o + i <= |s| && Synced(s, o)
    ensures FindsId(s, o, i, Search(Fluent, s[o..], i))
    decreases |s| - i
  {
    hide FluentId, LineIds, LineStart, Synced;
    RestStarts(s, o, i);
    if LineStart(s[o..], i) && IdIn(Fluent, s[o..][i..]).Some? {
      IdHere(s, o + i);
    } else {
      NoIdHere(s, o + i);
      if i < |s[o..]| {
        SearchIsNext(s, o, i + 1);
      }
    }
  }

  lemma {:induction false} SuffixFinds(s: string, o: nat)
    requires o <= |s| && Synced(s, o)
    ensures Spans(Parse(Fluent, s[o..]), o) == LineIds(s, o)
    decreases |s| - o
  {
    hide FluentId, Search, LineIds, Assigns, IsId, Spans;
    var t := s[o..];
    SearchIsNext(s, o, 0);
    match Search(Fluent, t, 0) {
      case None => SpansOne(t, o);
      case Some((a, b)) =>
        AfterId(s, o + a, b - a);
        assert t[b..] == s[o + b..];
        SuffixFinds(s, o + b);
        SkipId(s, o + a, o + b);
        SpansTwo(t[..a], t[a..b], Parse(Fluent, t[b..]), o);
    }
  }

  /** Right after an id no id begins. */
  lemma AfterId(s: string, i: nat, n: nat)
    requires i <= |s| && FluentId(s[i..]) == Some((0, n))
    ensures i + n <= |s| && Synced(s, i + n)
  {
    hide FluentId, Assigns, IsId;
    MatchIsId(s[i..]);
    assert s[i..][n..] == s[i + n..];
    AssignsIsNoIdChar(s[i + n..]);
  }

  lemma SpansOne(t: string, o: nat)
    ensures Spans([Chunk(t, false)], o) == []
  {
    assert [Chunk(t, false)][1..] == [];
  }

  lemma SpansTwo(pre: string, id: string, rest: seq<Chunk>, o: nat)
    ensures Spans([Chunk(pre, false), Chunk(id, true)] + rest, o)
         == [(o + |pre|, o + |pre| + |id|)] + Spans(rest, o + |pre| + |id|)
  {
    var all := [Chunk(pre, false), Chunk(id, true)] + rest;
    assert all[1..] == [Chunk(id, true)] + rest && all[1..][1..] == rest;
  }

  /**
    Although each search begins in the middle of a line, and a line start is assumed there,
    the ids found in a Fluent file are those at the line starts of the whole file.
  */
  lemma FoundAtLineStarts(s: string)
    ensures Spans(Parse(Fluent, s), 0) == LineIds(s, 0)
  {
    assert s[0..] == s;
    SuffixFinds(s, 0);
  }

  /** In a properties file a value after a blank is taken for an id: "a b" has two. */
  lemma PropertyValueIsTakenForId()
    ensures Parse(Properties, "a b") ==
      [Chunk("", false), Chunk("a", true), Chunk(" ", false), Chunk("b", true), Chunk("", false)]
  {
    SpanIs("a b", IsSpace, 0);
    SpanIs("a b"[1..], IsKeyChar, 0);
    assert "a b"[0..] == "a b" && "a b"[1..] == " b" && "a b"[0..1] == "a";
    assert Search(Properties, "a b", 0) == Some((0, 1));
    SpanIs(" b", IsSpace, 1);
    SpanIs("", IsKeyChar, 0);
    assert " b"[0..] == " b" && " b"[2..] == "" && " b"[1..2] == "b" && " b"[..1] == " ";
    assert PropertyId(" b") == Some((1, 2));
    assert Search(Properties, " b", 0) == Some((1, 2));
    SpanIs("", IsSpace, 0);
    assert ""[0..] == "" && PropertyId("") == None;
    assert Search(Properties, "", 0) == None;
  }

  // ----- Renaming -----

  lemma {:induction false} OwnerOwns(part: string, ids: seq<string>)
    ensures match Owner(part, ids)
      case None => forall id :: id in ids ==> !(id <= part)
      case Some(id) => id in ids && id <= part
  {
    if ids != [] {
      OwnerOwns(part, ids[1..]);
      assert forall id :: id in ids ==> id == ids[0] || id in ids[1..];
    }
  }

  /** The first rename id that an id begins with takes its suffix off, or retires it; without one it stays. */
  lemma {:induction false} RenameIs(part: string, ids: seq<string>, suffix: string, k: nat)
    requires k <= |ids| && forall j :: 0 <= j < k ==> !(ids[j] <= part)
    ensures k == |ids| ==> Rename(part, ids, suffix) == part
    ensures k < |ids| && ids[k] <= part ==>
      Rename(part, ids, suffix) == if part == ids[k] + suffix then ids[k] else part + "_UNUSED"
  {
    OwnerAt(part, ids, k);
  }

  lemma {:induction false} OwnerAt(part: string, ids: seq<string>, k: nat)
    requires k <= |ids| && forall j :: 0 <= j < k ==> !(ids[j] <= part)
    ensures k == |ids| ==> Owner(part, ids) == None
    ensures k < |ids| && ids[k] <= part ==> Owner(part, ids) == Some(ids[k])
  {
    if k > 0 {
      OwnerAt(part, ids[1..], k - 1);
    }
  }

  /** A part that is renamed without its suffix is changed. */
  predicate Retired(part: string, ids: seq<string>, suffix: string) {
    var owner := Owner(part, ids);
    owner.Some? && part != owner.value + suffix
  }

  /**
    Two ids can end as one: an id in use that ends in "_UNUSED", and the id that is retired
    under that very name.
  */
  predicate Clashes(ids: seq<string>, suffix: string) {
    exists i :: 0 <= i < |ids| && ClashesAt(ids[i], ids, suffix)
  }

  predicate ClashesAt(id: string, ids: seq<string>, suffix: string) {
    && Owner(id + suffix, ids) == Some(id)
    && EndsWith(id, UNUSED) && Retired(id[..|id| - |UNUSED|], ids, suffix)
  }

  lemma SameEnd(a: string, b: string, end: string)
    requires a + end == b + end
    ensures a == b
  {
    assert a == (a + end)[..|a|] && b == (b + end)[..|b|];
  }

  lemma EndsWithUnused(a: string)
    ensures EndsWith(a + UNUSED, UNUSED) && (a + UNUSED)[..|a|] == a
  {
  }

  /** Only a clash can make two ids one. */
  lemma OnlyClashesMerge(p: string, q: string, ids: seq<string>, suffix: string)
    requires !Clashes(ids, suffix) && Rename(p, ids, suffix) == Rename(q, ids, suffix)
    ensures p == q
  {
    if Retired(p, ids, suffix) && Retired(q, ids, suffix) {
      SameEnd(p, q, UNUSED);
    } else if Retired(p, ids, suffix) {
      RetiredAlone(p, q, ids, suffix);
    } else if Retired(q, ids, suffix) {
      RetiredAlone(q, p, ids, suffix);
    } else {
      NoneRetired(p, q, ids, suffix);
    }
  }

  lemma RetiredAlone(p: string, q: string, ids: seq<string>, suffix: string)
    requires !Clashes(ids, suffix) && Retired(p, ids, suffix) && !Retired(q, ids, suffix)
    ensures Rename(p, ids, suffix) != Rename(q, ids, suffix)
  {
    OwnerOwns(p, ids);
    OwnerOwns(q, ids);
    EndsWithUnused(p);
    var owner := Owner(p, ids).value;
    if Owner(q, ids).None? {
      assert owner <= p + UNUSED;
    } else {
      var id := Owner(q, ids).value;
      var i :| 0 <= i < |ids| && ids[i] == id;
      assert !ClashesAt(ids[i], ids, suffix);
    }
  }

  lemma NoneRetired(p: string, q: string, ids: seq<string>, suffix: string)
    requires !Retired(p, ids, suffix) && !Retired(q, ids, suffix)
    requires Rename(p, ids, suffix) == Rename(q, ids, suffix)
    ensures p == q
  {
    OwnerOwns(p, ids);
    OwnerOwns(q, ids);
  }

  /** An id that clashes stands for two. */
  lemma ClashMerges(id: string, ids: seq<string>, suffix: string)
    requires ClashesAt(id, ids, suffix)
    ensures |UNUSED| <= |id|
    ensures var q := id[..|id| - |UNUSED|];
      Rename(q, ids, suffix) == Rename(id + suffix, ids, suffix) && q != id + suffix
  {
    var q := id[..|id| - |UNUSED|];
    assert q + UNUSED == id;
    assert Rename(q, ids, suffix) == id && Rename(id + suffix, ids, suffix) == id;
    assert |q| < |id + suffix|;
  }

  /** Renaming never makes one id of two exactly when the ids to rename have no clash. */
  lemma InjectiveIff(ids: seq<string>, suffix: string)
    ensures (forall p, q :: Rename(p, ids, suffix) == Rename(q, ids, suffix) ==> p == q) <==> !Clashes(ids, suffix)
  {
    hide Rename, ClashesAt;
    if Clashes(ids, suffix) {
      var i :| 0 <= i < |ids| && ClashesAt(ids[i], ids, suffix);
      ClashMerges(ids[i], ids, suffix);
    } else {
      forall p, q | Rename(p, ids, suffix) == Rename(q, ids, suffix)
        ensures p == q
      {
        OnlyClashesMerge(p, q, ids, suffix);
      }
    }
  }

  predicate PrefixFree(ids: seq<string>) {
    forall i, j :: 0 <= i < |ids| && 0 <= j < |ids| && ids[i] <= ids[j] ==> ids[i] == ids[j]
  }

  /**
    When none of the ids begins with another, nothing clashes, and an id can stand in the
    output only in place of that id with the suffix.
  */
  lemma PrefixFreeIsSafe(ids: seq<string>, suffix: string)
    requires PrefixFree(ids)
    ensures !Clashes(ids, suffix)
    ensures forall p, id :: id in ids ==> (Rename(p, ids, suffix) == id <==> p == id + suffix)
  {
    forall i | 0 <= i < |ids|
      ensures !ClashesAt(ids[i], ids, suffix)
    {
      NoClashAt(ids, i, suffix);
    }
    forall p, id | id in ids
      ensures Rename(p, ids, suffix) == id <==> p == id + suffix
    {
      OnlyFromSuffixed(p, id, ids, suffix);
    }
  }

  lemma NoClashAt(ids: seq<string>, i: nat, suffix: string)
    requires PrefixFree(ids) && i < |ids|
    ensures !ClashesAt(ids[i], ids, suffix)
  {
    var id := ids[i];
    assert forall j :: 0 <= j < |ids| && ids[j] <= id ==> |ids[j]| == |id|;
    if EndsWith(id, UNUSED) {
      OwnerOwns(id[..|id| - |UNUSED|], ids);
    }
  }

  lemma OnlyFromSuffixed(p: string, id: string, ids: seq<string>, suffix: string)
    requires PrefixFree(ids) && id in ids
    ensures Rename(p, ids, suffix) == id <==> p == id + suffix
  {
    OwnerOwns(p, ids);
    var i :| 0 <= i < |ids| && ids[i] == id;
    if Owner(p, ids).Some? {
      var owner := Owner(p, ids).value;
      var j :| 0 <= j < |ids| && ids[j] == owner;
      assert owner <= p + UNUSED;
      assert owner <= id ==> |owner| == |id|;
      if p == id + suffix {
        assert id <= p;
        PrefixesCompare(owner, id, p);
      }
    }
  }

  lemma PrefixesCompare(a: string, b: string, s: string)
    requires a <= s && b <= s
    ensures a <= b || b <= a
  {
    if |a| <= |b| {
      assert a == s[..|a|] && b == s[..|b|] && b[..|a|] == a;
    } else {
      assert a == s[..|a|] && b == s[..|b|] && a[..|b|] == b;
    }
  }
}
