/** The renamed Fluent file, parsed again: the same chunks, with the ids renamed. */
module BrandingOutput {
  import opened BrandingRenames
  import opened BrandingStrings
  import opened ByteStrings
  import opened Scanning
  import opened Wrappers

  // ----- What a match depends on -----

  lemma AssignsLocal(u: string, v: string)
    requires Assigns(u) || Span(u, IsBlank) < |u|
    ensures Assigns(u + v) == Assigns(u)
  {
    SpanLocal(u, v, IsBlank);
  }

  lemma DashIs(t: string)
    requires t != []
    ensures Dash(t) == if t[0] == '-' then 1 else 0
  {
  }

  /** A match that could begin in `u` is decided before the newline that ends `u`. */
  lemma NewlineDecides(u: string, v: string)
    requires u != [] && u[|u| - 1] == '\n'
    ensures FluentId(u + v).Some? == FluentId(u).Some?
  {
    var a, t := Dash(u), u + v;
    DashIs(u);
    DashIs(t);
    assert t[0] == u[0];
    hide *;
    assert t[a] == u[a] && t[a + 1..] == u[a + 1..] + v;
    IdBehindLetter(u, a);
    IdBehindLetter(t, a);
    if u[a + 1..] != [] {
      NewlineEndsRuns(u[a + 1..], v);
    } else {
      NewlineIsNoLetter();
    }
  }

  lemma NewlineIsNoLetter()
    ensures !IsLetter('\n')
  {
  }

  lemma IdBehindLetter(t: string, a: nat)
    requires a == Dash(t) < |t|
    ensures FluentId(t).Some? <==> IsLetter(t[a]) && Assigns(t[a + 1..][Span(t[a + 1..], IsIdChar)..])
  {
    hide Span, Assigns, Dash;
    var n := Span(t[a + 1..], IsIdChar);
    assert t[a + 1..][n..] == t[a + 1 + n..];
  }

  lemma NewlineEndsRuns(tail: string, v: string)
    requires tail != [] && tail[|tail| - 1] == '\n'
    ensures var n := Span(tail, IsIdChar);
      Span(tail + v, IsIdChar) == n && Assigns((tail + v)[n..]) == Assigns(tail[n..])
  {
    hide Span, Assigns;
    NewlineEnds(tail, IsIdChar);
    SpanLocal(tail, v, IsIdChar);
    var w := tail[Span(tail, IsIdChar)..];
    assert (tail + v)[Span(tail, IsIdChar)..] == w + v && w[|w| - 1] == '\n';
    NewlineEnds(w, IsBlank);
    AssignsLocal(w, v);
  }

  lemma NewlineEnds(s: string, p: char -> bool)
    requires s != [] && s[|s| - 1] == '\n' && !p('\n')
    ensures Span(s, p) < |s|
  {
    var n := Span(s, p);
    assert forall k :: 0 <= k < n ==> p(s[..n][k]) && s[..n][k] == s[k];
  }

  // ----- What a search finds -----

  predicate NoneBefore(s: string, k: nat)
    requires k <= |s|
  {
    forall i :: 0 <= i < k && LineStart(s, i) ==> FluentId(s[i..]).None?
  }

  lemma {:induction false} SearchSkips(s: string, i: nat)
    requires i <= |s|
    ensures match Search(Fluent, s, i)
      case None => forall k :: i <= k < |s| && LineStart(s, k) ==> FluentId(s[k..]).None?
      case Some((a, b)) =>
        LineStart(s, a) && FluentId(s[a..]) == Some((0, b - a))
        && forall k :: i <= k < a && LineStart(s, k) ==> FluentId(s[k..]).None?
    decreases |s| - i
  {
    hide FluentId;
    if !(LineStart(s, i) && IdIn(Fluent, s[i..]).Some?) && i < |s| {
      SearchSkips(s, i + 1);
    }
  }

  lemma {:induction false} SearchReaches(s: string, a: nat, n: nat, i: nat)
    requires i <= a <= |s| && LineStart(s, a) && FluentId(s[a..]) == Some((0, n)) && NoneBefore(s, a)
    ensures Search(Fluent, s, i) == Some((a, a + n))
    decreases a - i
  {
    hide FluentId;
    if i < a {
      SearchReaches(s, a, n, i + 1);
    }
  }

  /** Where no id begins before the newline that ends `pre`, none does when the rest is changed. */
  lemma StillNone(pre: string, v: string, v': string, i: nat)
    requires NoneBefore(pre + v, |pre|) && i < |pre| && pre[|pre| - 1] == '\n' && LineStart(pre + v', i)
    ensures FluentId((pre + v')[i..]).None?
  {
    hide FluentId;
    assert i > 0 ==> (pre + v)[i - 1] == pre[i - 1] == (pre + v')[i - 1];
    assert LineStart(pre + v, i);
    var u := pre[i..];
    assert (pre + v)[i..] == u + v && (pre + v')[i..] == u + v' && u[|u| - 1] == '\n';
    NewlineDecides(u, v);
    NewlineDecides(u, v');
  }

  /** The first id of a text is found again when it is replaced and what follows is changed. */
  lemma FoundAgain(pre: string, v: string, id: string, w: string)
    requires IsId(id) && Assigns(w) && NoneBefore(pre + v, |pre|) && LineStart(pre + v, |pre|)
    ensures Search(Fluent, pre + (id + w), 0) == Some((|pre|, |pre| + |id|))
  {
    hide FluentId, IsId, Assigns, Search;
    var s := pre + (id + w);
    assert pre != [] ==> (pre + v)[|pre| - 1] == pre[|pre| - 1] == s[|pre| - 1];
    forall i | 0 <= i < |pre| && LineStart(s, i)
      ensures FluentId(s[i..]).None?
    {
      StillNone(pre, v, id + w, i);
    }
    assert s[|pre|..] == id + w;
    IdIsMatched(id, w);
    SearchReaches(s, |pre|, |id|, 0);
  }

  // ----- Renamed ids -----

  /** A part that gives up its suffix leaves an id. */
  predicate LeavesId(part: string, ids: seq<string>, suffix: string) {
    var owner := Owner(part, ids);
    owner.Some? && part == owner.value + suffix ==> IsId(owner.value)
  }

  lemma RenameIsIdIff(part: string, ids: seq<string>, suffix: string)
    requires IsId(part)
    ensures IsId(Rename(part, ids, suffix)) <==> LeavesId(part, ids, suffix)
  {
    hide IsId;
    OwnerOwns(part, ids);
    UnusedIsId(part);
  }

  lemma UnusedIsId(part: string)
    requires IsId(part)
    ensures IsId(part + UNUSED)
  {
    var a := Dash(part);
    assert Dash(part + UNUSED) == a;
    assert (part + UNUSED)[a + 1..] == part[a + 1..] + UNUSED;
    assert forall i :: 0 <= i < |UNUSED| ==> IsIdChar(UNUSED[i]);
  }

  // ----- The output -----

  function Renamed(kind: Kind, s: string, ids: seq<string>, suffix: string): seq<Chunk> {
    RenameAll(Parse(kind, s), ids, suffix)
  }

  lemma RenamedOne(kind: Kind, s: string, ids: seq<string>, suffix: string)
    requires Search(kind, s, 0).None?
    ensures Renamed(kind, s, ids, suffix) == [Chunk(s, false)] && Print(Renamed(kind, s, ids, suffix)) == s
  {
    PrintOne(Chunk(s, false));
    assert Renamed(kind, s, ids, suffix) == [Chunk(s, false)];
  }

  lemma RenameTwo(pre: string, id: string, rest: seq<Chunk>, ids: seq<string>, suffix: string)
    ensures RenameAll([Chunk(pre, false), Chunk(id, true)] + rest, ids, suffix)
         == [Chunk(pre, false), Chunk(Rename(id, ids, suffix), true)] + RenameAll(rest, ids, suffix)
  {
    hide Rename;
  }

  lemma RenamedMore(kind: Kind, s: string, ids: seq<string>, suffix: string, a: nat, b: nat)
    requires Search(kind, s, 0) == Some((a, b))
    ensures var id, rest := Rename(s[a..b], ids, suffix), Renamed(kind, s[b..], ids, suffix);
      && Renamed(kind, s, ids, suffix) == [Chunk(s[..a], false), Chunk(id, true)] + rest
      && Print(Renamed(kind, s, ids, suffix)) == s[..a] + (id + Print(rest))
  {
    hide Rename, RenameAll, Search, Print;
    var id, rest := Rename(s[a..b], ids, suffix), Renamed(kind, s[b..], ids, suffix);
    RenameTwo(s[..a], s[a..b], Parse(kind, s[b..]), ids, suffix);
    PrintTwo(Chunk(s[..a], false), Chunk(id, true), rest);
  }

  /** What follows an id still begins with the equals sign once it is renamed itself. */
  lemma StillAssigns(w: string, ids: seq<string>, suffix: string)
    requires Assigns(w)
    ensures Assigns(Print(Renamed(Fluent, w, ids, suffix)))
  {
    hide FluentId, Rename, IsId, Assigns;
    AssignsIsNoIdChar(w);
    SearchSkips(w, 0);
    assert w[0..] == w;
    match Search(Fluent, w, 0) {
      case None => RenamedOne(Fluent, w, ids, suffix);
      case Some((a, b)) =>
        RenamedMore(Fluent, w, ids, suffix, a, b);
        AssignsBefore(w, a);
        AssignsLocal(w[..a], Rename(w[a..b], ids, suffix) + Print(Renamed(Fluent, w[b..], ids, suffix)));
    }
  }

  lemma AssignsBefore(w: string, a: nat)
    requires Assigns(w) && 0 < a <= |w| && w[a - 1] == '\n'
    ensures Assigns(w[..a])
  {
    var n := Span(w, IsBlank);
    assert forall k :: 0 <= k < n ==> IsBlank(w[..n][k]) && w[..n][k] == w[k];
    assert n < a - 1;
    assert w[..a][..n] == w[..n];
    SpanIs(w[..a], IsBlank, n);
  }

  function IdsOf(chunks: seq<Chunk>): seq<string> {
    if chunks == [] then []
    else (if chunks[0].isId then [chunks[0].text] else []) + IdsOf(chunks[1..])
  }

  predicate AllLeaveIds(parts: seq<string>, ids: seq<string>, suffix: string) {
    forall part :: part in parts ==> LeavesId(part, ids, suffix)
  }

  lemma IdsOfTwo(pre: string, id: string, rest: seq<Chunk>)
    ensures IdsOf([Chunk(pre, false), Chunk(id, true)] + rest) == [id] + IdsOf(rest)
  {
    var all := [Chunk(pre, false), Chunk(id, true)] + rest;
    assert all[1..] == [Chunk(id, true)] + rest && all[1..][1..] == rest;
  }

  lemma {:induction false} ParsedAreIds(s: string)
    ensures forall x :: x in IdsOf(Parse(Fluent, s)) ==> IsId(x)
    decreases |s|
  {
    hide IsId, Search, FluentId, Assigns, IdsOf;
    SearchSkips(s, 0);
    match Search(Fluent, s, 0) {
      case None => IdsOfOne(s);
      case Some((a, b)) =>
        ParsedAreIds(s[b..]);
        IdsOfTwo(s[..a], s[a..b], Parse(Fluent, s[b..]));
        MatchIsId(s[a..]);
        assert s[a..][..b - a] == s[a..b];
    }
  }

  lemma IdsOfOne(s: string)
    ensures IdsOf([Chunk(s, false)]) == []
  {
  }

  /** The first id of a file is found where it is written renamed. */
  lemma FirstRenamed(s: string, ids: seq<string>, suffix: string, a: nat, b: nat)
    requires Search(Fluent, s, 0) == Some((a, b)) && LeavesId(s[a..b], ids, suffix)
    ensures var id, w := Rename(s[a..b], ids, suffix), Print(Renamed(Fluent, s[b..], ids, suffix));
      Search(Fluent, s[..a] + (id + w), 0) == Some((a, a + |id|))
  {
    hide FluentId, Rename, IsId, Assigns, Renamed, Search, Print, LeavesId;
    var pre, id, w := s[..a], s[a..b], s[b..];
    FoundFirst(s, a, b);
    MatchIsId(s[a..]);
    CutThrice(s, a, b);
    hide NoneBefore, LineStart;
    RenameIsIdIff(id, ids, suffix);
    StillAssigns(w, ids, suffix);
    FoundAgain(pre, id + w, Rename(id, ids, suffix), Print(Renamed(Fluent, w, ids, suffix)));
  }

  lemma FoundFirst(s: string, a: nat, b: nat)
    requires Search(Fluent, s, 0) == Some((a, b))
    ensures LineStart(s, a) && FluentId(s[a..]) == Some((0, b - a)) && NoneBefore(s, a)
  {
    hide FluentId, Search, LineStart;
    SearchSkips(s, 0);
  }

  lemma CutThrice(s: string, a: nat, b: nat)
    requires a <= b <= |s|
    ensures s[a..][..b - a] == s[a..b] && s[a..][b - a..] == s[b..] && s == s[..a] + (s[a..b] + s[b..])
  {
  }

  lemma ParseTwo(kind: Kind, pre: string, id: string, w: string)
    requires Search(kind, pre + (id + w), 0) == Some((|pre|, |pre| + |id|))
    ensures Parse(kind, pre + (id + w)) == [Chunk(pre, false), Chunk(id, true)] + Parse(kind, w)
  {
    hide Search;
    var s := pre + (id + w);
    assert s[..|pre|] == pre && s[|pre|..|pre| + |id|] == id && s[|pre| + |id|..] == w;
  }

  /** When every id that gives up its suffix leaves an id, parsing the output finds the renamed ids and no other. */
  lemma {:induction false} OutputParses(s: string, ids: seq<string>, suffix: string)
    requires AllLeaveIds(IdsOf(Parse(Fluent, s)), ids, suffix)
    ensures Parse(Fluent, Print(Renamed(Fluent, s, ids, suffix))) == Renamed(Fluent, s, ids, suffix)
    decreases |s|
  {
    hide FluentId, Rename, IsId, Assigns, Renamed, Search, Print, IdsOf, LeavesId;
    match Search(Fluent, s, 0) {
      case None => RenamedOne(Fluent, s, ids, suffix);
      case Some((a, b)) =>
        var pre, id, w := s[..a], s[a..b], s[b..];
        IdsOfTwo(pre, id, Parse(Fluent, w));
        assert LeavesId(id, ids, suffix);
        OutputParses(w, ids, suffix);
        hide *;
        FirstRenamed(s, ids, suffix, a, b);
        RenamedMore(Fluent, s, ids, suffix, a, b);
        ParseTwo(Fluent, pre, Rename(id, ids, suffix), Print(Renamed(Fluent, w, ids, suffix)));
    }
  }

  /**
    The output has the chunks of the input, with the ids renamed, exactly when every id of
    the file that gives up its suffix leaves an id.
  */
  lemma OutputParsesAsRenamedIff(s: string, ids: seq<string>, suffix: string)
    ensures Parse(Fluent, Print(Renamed(Fluent, s, ids, suffix))) == Renamed(Fluent, s, ids, suffix)
       <==> AllLeaveIds(IdsOf(Parse(Fluent, s)), ids, suffix)
  {
    hide IsId, Parse, Print, Rename, LeavesId, IdsOf;
    var before := IdsOf(Parse(Fluent, s));
    ParsedAreIds(s);
    ParsedAreIds(Print(Renamed(Fluent, s, ids, suffix)));
    IdsOfRenamed(Parse(Fluent, s), ids, suffix);
    if Parse(Fluent, Print(Renamed(Fluent, s, ids, suffix))) == Renamed(Fluent, s, ids, suffix) {
      forall part | part in before
        ensures LeavesId(part, ids, suffix)
      {
        var i :| 0 <= i < |before| && before[i] == part;
        assert RenameIds(before, ids, suffix)[i] == Rename(part, ids, suffix);
        RenameIsIdIff(part, ids, suffix);
      }
    } else if AllLeaveIds(before, ids, suffix) {
      OutputParses(s, ids, suffix);
    }
  }

  function RenameIds(xs: seq<string>, ids: seq<string>, suffix: string): seq<string> {
    seq(|xs|, i requires 0 <= i < |xs| => Rename(xs[i], ids, suffix))
  }

  lemma {:induction false} IdsOfRenamed(chunks: seq<Chunk>, ids: seq<string>, suffix: string)
    ensures IdsOf(RenameAll(chunks, ids, suffix)) == RenameIds(IdsOf(chunks), ids, suffix)
  {
    hide Rename;
    if chunks != [] {
      IdsOfRenamed(chunks[1..], ids, suffix);
      assert RenameAll(chunks, ids, suffix)[1..] == RenameAll(chunks[1..], ids, suffix);
    }
  }

  /** Then the ids of the output are the renamed ids of the file, and stay distinct if they were. */
  lemma OutputIds(s: string, ids: seq<string>, suffix: string)
    requires AllLeaveIds(IdsOf(Parse(Fluent, s)), ids, suffix)
    ensures var before := IdsOf(Parse(Fluent, s));
      var after := IdsOf(Parse(Fluent, Print(RenameAll(Parse(Fluent, s), ids, suffix))));
      && after == RenameIds(before, ids, suffix)
      && (!Clashes(ids, suffix) && AllDistinct(before) ==> AllDistinct(after))
  {
    hide Rename, Parse, AllLeaveIds, Clashes, IdsOf, RenameAll, RenameIds, AllDistinct, Print;
    OutputParses(s, ids, suffix);
    var before := IdsOf(Parse(Fluent, s));
    IdsOfRenamed(Parse(Fluent, s), ids, suffix);
    if !Clashes(ids, suffix) && AllDistinct(before) {
      StayDistinct(before, ids, suffix);
    }
  }

  lemma StayDistinct(before: seq<string>, ids: seq<string>, suffix: string)
    requires !Clashes(ids, suffix) && AllDistinct(before)
    ensures AllDistinct(RenameIds(before, ids, suffix))
  {
    hide Rename, Clashes;
    forall i, j | 0 <= i < j < |before|
      ensures Rename(before[i], ids, suffix) != Rename(before[j], ids, suffix)
    {
      if Rename(before[i], ids, suffix) == Rename(before[j], ids, suffix) {
        OnlyClashesMerge(before[i], before[j], ids, suffix);
      }
    }
  }
}
