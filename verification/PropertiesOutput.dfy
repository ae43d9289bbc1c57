/** The renamed properties file, parsed again: the same chunks, with the ids renamed. */
module PropertiesOutput {
  import opened BrandingKeys
  import opened BrandingOutput
  import opened BrandingRenames
  import opened BrandingStrings
  import opened ByteStrings
  import opened Scanning
  import opened Wrappers

  // ----- What a match is -----

  predicate IsKey(x: string) {
    x != [] && StartsKey(x[0]) && All(IsKeyChar, x)
  }

  /** No key goes on here. */
  predicate Ended(w: string) {
    w == [] || !IsKeyChar(w[0])
  }

  lemma MatchIsKey(t: string)
    requires PropertyId(t).Some?
    ensures var (a, b) := PropertyId(t).value;
      All(IsSpace, t[..a]) && IsKey(t[a..b]) && Ended(t[b..])
  {
    var (a, b) := PropertyId(t).value;
    var n := b - a - 1;
    assert All(IsKeyChar, t[a + 1..][..n]);
    forall k | 0 <= k < b - a
      ensures IsKeyChar(t[a..b][k])
    {
      assert k > 0 ==> t[a..b][k] == t[a + 1..][..n][k - 1];
    }
    assert b < |t| ==> t[a + 1..][n] == t[b];
  }

  lemma KeyIsMatched(pre: string, id: string, w: string)
    requires All(IsSpace, pre) && IsKey(id) && Ended(w)
    ensures PropertyId(pre + (id + w)) == Some((|pre|, |pre| + |id|))
  {
    hide Span;
    var t := pre + (id + w);
    assert t[..|pre|] == pre && t[|pre|] == id[0];
    SpanIs(t, IsSpace, |pre|);
    var rest, n := t[|pre| + 1..], |id| - 1;
    assert rest == id[1..] + w && rest[..n] == id[1..];
    assert forall k :: 0 <= k < n ==> id[1..][k] == id[k + 1];
    SpanIs(rest, IsKeyChar, n);
  }

  /** A word that begins in `u` decides whether there is a match. */
  lemma WordDecides(u: string, v: string)
    requires Span(u, IsSpace) < |u|
    ensures PropertyId(u + v).Some? <==> StartsKey(u[Span(u, IsSpace)])
  {
    hide Span;
    SpanLocal(u, v, IsSpace);
  }

  // ----- What a search finds -----

  /** The search ends at line start `i`, where a match follows that begins at `a`. */
  predicate FoundFrom(s: string, i: nat, a: nat, b: nat)
    requires i <= |s|
  {
    && i <= a < b <= |s| && LineStart(s, i) && PropertyId(s[i..]) == Some((a - i, b - i))
    && forall k :: 0 <= k < i && LineStart(s, k) ==> PropertyId(s[k..]).None?
  }

  lemma {:induction false} SearchFinds(s: string, from: nat, a: nat, b: nat) returns (i: nat)
    requires from <= |s| && Search(Properties, s, from) == Some((a, b))
    requires forall k :: 0 <= k < from && LineStart(s, k) ==> PropertyId(s[k..]).None?
    ensures i <= |s| && FoundFrom(s, i, a, b)
    decreases |s| - from
  {
    hide PropertyId;
    if LineStart(s, from) && IdIn(Properties, s[from..]).Some? {
      i := from;
    } else {
      i := SearchFinds(s, from + 1, a, b);
    }
  }

  lemma {:induction false} SearchGets(s: string, from: nat, i: nat, a: nat, b: nat)
    requires from <= i <= |s| && FoundFrom(s, i, a, b)
    ensures Search(Properties, s, from) == Some((a, b))
    decreases i - from
  {
    hide PropertyId;
    if from < i {
      SearchGets(s, from + 1, i, a, b);
    }
  }

  /** Where no match begins before a match that begins behind `pre`, none does when the rest is another. */
  lemma StillNoMatch(s: string, k: nat, a: nat, v: string)
    requires k < a < |s| && PropertyId(s[k..]).None? && StartsKey(s[a])
    ensures PropertyId((s[..a] + v)[k..]).None?
  {
    hide PropertyId, Span;
    var u := s[k..a];
    assert s[k..] == u + s[a..] && (s[..a] + v)[k..] == u + v;
    WordStarts(u, s[a..]);
    WordDecides(u, s[a..]);
    WordDecides(u, v);
  }

  /** White space alone would have led to the match behind it. */
  lemma WordStarts(u: string, v: string)
    requires v != [] && StartsKey(v[0]) && PropertyId(u + v).None?
    ensures Span(u, IsSpace) < |u|
  {
    hide Span;
    if Span(u, IsSpace) == |u| {
      assert u[..|u|] == u && (u + v)[..|u|] == u && (u + v)[|u|] == v[0];
      SpanIs(u + v, IsSpace, |u|);
    }
  }

  lemma FoundKey(s: string, i: nat, a: nat, b: nat)
    requires i <= |s| && FoundFrom(s, i, a, b)
    ensures i <= a < b <= |s|
    ensures All(IsSpace, s[i..a]) && IsKey(s[a..b]) && StartsKey(s[a]) && Ended(s[b..])
  {
    hide PropertyId;
    MatchIsKey(s[i..]);
    assert s[i..][..a - i] == s[i..a] && s[i..][a - i..b - i] == s[a..b] && s[i..][b - i..] == s[b..];
    assert s[a..b][0] == s[a];
  }

  /** Up to what was found, lines start where they did. */
  lemma SameStarts(s: string, a: nat, v: string, k: nat)
    requires k <= a <= |s|
    ensures LineStart(s[..a] + v, k) == LineStart(s, k) && (s[..a] + v)[k..] == s[k..a] + v
  {
    assert k > 0 ==> (s[..a] + v)[k - 1] == s[k - 1];
  }

  lemma NoneStarts(s: string, i: nat, a: nat, b: nat, v: string, k: nat)
    requires i <= |s| && FoundFrom(s, i, a, b) && k < i && LineStart(s[..a] + v, k)
    ensures PropertyId((s[..a] + v)[k..]).None?
  {
    SameStarts(s, a, v, k);
    assert PropertyId(s[k..]).None? && a < |s|;
    FoundKey(s, i, a, b);
    hide *;
    StillNoMatch(s, k, a, v);
  }

  lemma FoundFirst(s: string, i: nat, a: nat, b: nat, v: string, n: nat)
    requires i <= a <= |s| && FoundFrom(s, i, a, b) && n > 0
    requires PropertyId(s[i..a] + v) == Some((a - i, a - i + n))
    ensures FoundFrom(s[..a] + v, i, a, a + n)
  {
    hide PropertyId;
    var t := s[..a] + v;
    SameStarts(s, a, v, i);
    forall k | 0 <= k < i && LineStart(t, k)
      ensures PropertyId(t[k..]).None?
    {
      NoneStarts(s, i, a, b, v, k);
    }
  }

  /** A key stands at the start of `v`, and ends after `n` characters. */
  predicate KeyAt(v: string, n: nat) {
    0 < n <= |v| && IsKey(v[..n]) && Ended(v[n..])
  }

  lemma KeyInFront(id: string, w: string)
    requires IsKey(id) && Ended(w)
    ensures KeyAt(id + w, |id|)
  {
    assert (id + w)[..|id|] == id && (id + w)[|id|..] == w;
  }

  /** Behind the same white space another id is matched. */
  lemma MatchedAgain(s: string, i: nat, a: nat, v: string, n: nat)
    requires i <= a <= |s| && All(IsSpace, s[i..a]) && KeyAt(v, n)
    ensures PropertyId(s[i..a] + v) == Some((a - i, a - i + n))
  {
    assert v == v[..n] + v[n..];
    hide *;
    KeyIsMatched(s[i..a], v[..n], v[n..]);
  }

  /** The first id of a text is found again when it and what follows are changed. */
  lemma KeyFoundAgain(s: string, a: nat, b: nat, v: string, n: nat)
    requires Search(Properties, s, 0) == Some((a, b)) && KeyAt(v, n)
    ensures Search(Properties, s[..a] + v, 0) == Some((a, a + n))
  {
    hide *;
    var i := SearchFinds(s, 0, a, b);
    FoundKey(s, i, a, b);
    MatchedAgain(s, i, a, v, n);
    FoundFirst(s, i, a, b, v, n);
    SearchGets(s[..a] + v, 0, i, a, a + n);
  }

  // ----- Renamed ids -----

  /** A part that gives up its suffix leaves something. */
  predicate LeavesKey(part: string, ids: seq<string>, suffix: string) {
    var owner := Owner(part, ids);
    owner.Some? && part == owner.value + suffix ==> owner.value != []
  }

  lemma RenameIsKeyIff(part: string, ids: seq<string>, suffix: string)
    requires IsKey(part)
    ensures IsKey(Rename(part, ids, suffix)) <==> LeavesKey(part, ids, suffix)
  {
    OwnerOwns(part, ids);
    var owner := Owner(part, ids);
    if owner.Some? {
      assert forall k :: 0 <= k < |owner.value| ==> owner.value[k] == part[k];
    }
    assert forall k :: 0 <= k < |UNUSED| ==> IsKeyChar(UNUSED[k]);
  }

  /** What follows an id still ends it once it is renamed itself. */
  lemma StillEnded(w: string, ids: seq<string>, suffix: string)
    requires Ended(w)
    ensures Ended(Print(Renamed(Properties, w, ids, suffix)))
  {
    hide Search, PropertyId, Rename, Print, Renamed;
    match Search(Properties, w, 0) {
      case None => RenamedOne(Properties, w, ids, suffix);
      case Some((a, b)) =>
        RenamedMore(Properties, w, ids, suffix, a, b);
        var i := SearchFinds(w, 0, a, b);
        FoundKey(w, i, a, b);
        assert a > 0;
    }
  }

  // ----- The output -----

  lemma {:induction false} FoundAreKeys(s: string)
    ensures forall x :: x in IdsOf(Parse(Properties, s)) ==> IsKey(x)
    decreases |s|
  {
    hide IsKey, Search, IdsOf, FoundFrom;
    match Search(Properties, s, 0) {
      case None => IdsOfOne(s);
      case Some((a, b)) =>
        FoundAreKeys(s[b..]);
        IdsOfTwo(s[..a], s[a..b], Parse(Properties, s[b..]));
        var i := SearchFinds(s, 0, a, b);
        FoundKey(s, i, a, b);
    }
  }

  predicate AllLeaveKeys(parts: seq<string>, ids: seq<string>, suffix: string) {
    forall part :: part in parts ==> LeavesKey(part, ids, suffix)
  }

  lemma FirstKeyRenamed(s: string, ids: seq<string>, suffix: string, a: nat, b: nat)
    requires Search(Properties, s, 0) == Some((a, b)) && LeavesKey(s[a..b], ids, suffix)
    ensures var id, w := Rename(s[a..b], ids, suffix), Print(Renamed(Properties, s[b..], ids, suffix));
      Search(Properties, s[..a] + (id + w), 0) == Some((a, a + |id|))
  {
    hide *;
    var i := SearchFinds(s, 0, a, b);
    FoundKey(s, i, a, b);
    RenameIsKeyIff(s[a..b], ids, suffix);
    StillEnded(s[b..], ids, suffix);
    var id, w := Rename(s[a..b], ids, suffix), Print(Renamed(Properties, s[b..], ids, suffix));
    KeyInFront(id, w);
    KeyFoundAgain(s, a, b, id + w, |id|);
  }

  /** When no id is renamed to nothing, parsing the output finds the renamed ids and no other. */
  lemma {:induction false} KeysParse(s: string, ids: seq<string>, suffix: string)
    requires AllLeaveKeys(IdsOf(Parse(Properties, s)), ids, suffix)
    ensures Parse(Properties, Print(Renamed(Properties, s, ids, suffix))) == Renamed(Properties, s, ids, suffix)
    decreases |s|
  {
    hide Rename, Renamed, Search, Print, IdsOf, LeavesKey;
    match Search(Properties, s, 0) {
      case None => RenamedOne(Properties, s, ids, suffix);
      case Some((a, b)) =>
        var pre, id, w := s[..a], s[a..b], s[b..];
        IdsOfTwo(pre, id, Parse(Properties, w));
        assert LeavesKey(id, ids, suffix);
        KeysParse(w, ids, suffix);
        hide *;
        FirstKeyRenamed(s, ids, suffix, a, b);
        RenamedMore(Properties, s, ids, suffix, a, b);
        ParseTwo(Properties, pre, Rename(id, ids, suffix), Print(Renamed(Properties, w, ids, suffix)));
    }
  }

  lemma RenamedAreKeys(before: seq<string>, ids: seq<string>, suffix: string)
    requires forall x :: x in before ==> IsKey(x)
    requires forall x :: x in RenameIds(before, ids, suffix) ==> IsKey(x)
    ensures AllLeaveKeys(before, ids, suffix)
  {
    hide IsKey, Rename, LeavesKey;
    forall part | part in before
      ensures LeavesKey(part, ids, suffix)
    {
      var i :| 0 <= i < |before| && before[i] == part;
      assert RenameIds(before, ids, suffix)[i] == Rename(part, ids, suffix);
      RenameIsKeyIff(part, ids, suffix);
    }
  }

  /**
    The output has the chunks of the input, with the ids renamed, exactly when no id of the
    file is the suffix alone, behind an empty rename id that owns it.
  */
  lemma KeysParseAsRenamedIff(s: string, ids: seq<string>, suffix: string)
    ensures Parse(Properties, Print(Renamed(Properties, s, ids, suffix))) == Renamed(Properties, s, ids, suffix)
       <==> AllLeaveKeys(IdsOf(Parse(Properties, s)), ids, suffix)
  {
    hide Parse, Print, IdsOf, AllLeaveKeys, IsKey, RenameIds;
    var before := IdsOf(Parse(Properties, s));
    FoundAreKeys(s);
    FoundAreKeys(Print(Renamed(Properties, s, ids, suffix)));
    IdsOfRenamed(Parse(Properties, s), ids, suffix);
    if Parse(Properties, Print(Renamed(Properties, s, ids, suffix))) == Renamed(Properties, s, ids, suffix) {
      RenamedAreKeys(before, ids, suffix);
    }
    if AllLeaveKeys(before, ids, suffix) {
      KeysParse(s, ids, suffix);
    }
  }

  /** Then the ids of the output are the renamed ids of the file, and stay distinct if they were. */
  lemma OutputKeys(s: string, ids: seq<string>, suffix: string)
    requires AllLeaveKeys(IdsOf(Parse(Properties, s)), ids, suffix)
    ensures var before := IdsOf(Parse(Properties, s));
      var after := IdsOf(Parse(Properties, Print(RenameAll(Parse(Properties, s), ids, suffix))));
      && after == RenameIds(before, ids, suffix)
      && (!Clashes(ids, suffix) && AllDistinct(before) ==> AllDistinct(after))
  {
    hide Rename, Parse, AllLeaveKeys, Clashes, IdsOf, RenameAll, RenameIds, AllDistinct, Print;
    KeysParse(s, ids, suffix);
    var before := IdsOf(Parse(Properties, s));
    IdsOfRenamed(Parse(Properties, s), ids, suffix);
    if !Clashes(ids, suffix) && AllDistinct(before) {
      StayDistinct(before, ids, suffix);
    }
  }
}
