/** Which keys are found in a properties file: those of its lines, or values taken for more of them. */
module BrandingKeys {
  import opened BrandingRenames
  import opened BrandingStrings
  import opened Scanning
  import opened Wrappers

  // ----- The keys of the lines -----

  /** White space within a line. */
  predicate IsLineSpace(c: char) {
    IsSpace(c) && c != '\n'
  }

  predicate StartsKey(c: char) {
    IsKeyChar(c) && c != '!' && c != '#'
  }

  /** The key of the line at the start of `t`: it begins at the first character that is not white space. */
  function LineKey(t: string): (r: Option<(nat, nat)>)
    ensures r.Some? ==> r.value.0 < r.value.1 <= |t|
  {
    var a := Span(t, IsLineSpace);
    if a < |t| && StartsKey(t[a]) then Some((a, a + 1 + Span(t[a + 1..], IsKeyChar))) else None
  }

  /** The keys of the lines that start at `i` or later. */
  function LineKeys(s: string, i: nat): (r: seq<(nat, nat)>)
    requires i <= |s|
    ensures forall k :: k in r ==> i <= k.0 < k.1 <= |s|
    decreases |s| - i
  {
    var here :=
      if LineStart(s, i) && LineKey(s[i..]).Some? then
        [(i + LineKey(s[i..]).value.0, i + LineKey(s[i..]).value.1)]
      else [];
    if i == |s| then here else here + LineKeys(s, i + 1)
  }

  /** On the same line, blanks follow and then a character that can start a key. */
  predicate ValueFollows(w: string) {
    var n := Span(w, IsLineSpace);
    0 < n < |w| && StartsKey(w[n])
  }

  // ----- Lines without keys -----

  /** No line starts from `i` up to and with `k`. */
  predicate OneLine(s: string, i: nat, k: nat)
    requires i <= k <= |s|
  {
    forall j :: i <= j <= k ==> !LineStart(s, j)
  }

  lemma {:induction false} SkipLine(s: string, i: nat, k: nat)
    requires i <= k <= |s| && (i == k || OneLine(s, i, k - 1))
    ensures LineKeys(s, i) == LineKeys(s, k)
    decreases k - i
  {
    hide LineKey;
    if i < k {
      assert !LineStart(s, i);
      assert i + 1 < k ==> OneLine(s, i + 1, k - 1);
      SkipLine(s, i + 1, k);
      assert [] + LineKeys(s, i + 1) == LineKeys(s, i + 1);
    }
  }

  /** A run of white space, and the key behind it. */
  predicate KeyBehind(t: string, a: nat, b: nat) {
    && a < b <= |t| && All(IsSpace, t[..a]) && StartsKey(t[a]) && b == a + 1 + Span(t[a + 1..], IsKeyChar)
  }

  lemma PropertyIdIs(t: string)
    ensures PropertyId(t).Some? ==> KeyBehind(t, PropertyId(t).value.0, PropertyId(t).value.1)
    ensures PropertyId(t).None? ==> LineKey(t).None?
  {
    var a := Span(t, IsLineSpace);
    if a < |t| && StartsKey(t[a]) {
      assert forall i :: 0 <= i < a ==> IsLineSpace(t[..a][i]);
      assert t[..a] == t[..a] && All(IsSpace, t[..a]);
      SpanIs(t, IsSpace, a);
    }
  }

  /** Characters of a key are on its line. */
  lemma KeyHasNoNewline(t: string, a: nat, b: nat, k: nat)
    requires KeyBehind(t, a, b) && a <= k < b
    ensures t[k] != '\n'
  {
    if k > a {
      assert t[a + 1..][..b - a - 1][k - a - 1] == t[k];
    }
  }

  lemma KeyOfLine(t: string, a: nat, b: nat)
    requires KeyBehind(t, a, b) && '\n' !in t[..a]
    ensures LineKey(t) == Some((a, b))
  {
    assert forall i :: 0 <= i < a ==> IsLineSpace(t[..a][i]);
    SpanIs(t, IsLineSpace, a);
  }

  lemma BlankLine(t: string, a: nat, b: nat)
    requires KeyBehind(t, a, b) && '\n' in t[..a]
    ensures LineKey(t).None?
  {
    var n := Span(t, IsLineSpace);
    var i :| 0 <= i < a && t[..a][i] == '\n';
    AllInSpan(t, IsLineSpace);
    assert n <= i && t[..a][n] == t[n];
  }

  lemma AllInSpan(t: string, p: char -> bool)
    ensures forall i :: 0 <= i < Span(t, p) ==> p(t[i])
  {
    var n := Span(t, p);
    assert forall i :: 0 <= i < n ==> p(t[..n][i]);
  }

  lemma KeyBehindNext(t: string, a: nat, b: nat)
    requires KeyBehind(t, a, b) && a > 0
    ensures KeyBehind(t[1..], a - 1, b - 1)
  {
    var u, space := t[1..], t[..a];
    assert u[..a - 1] == space[1..] && u[a - 1] == t[a] && u[a..] == t[a + 1..];
    SpaceNext(space);
  }

  lemma SpaceNext(space: string)
    requires space != [] && All(IsSpace, space)
    ensures All(IsSpace, space[1..])
  {
  }

  /** The first key behind some white space is a line's, when a line starts in front of it. */
  lemma {:induction false} KeyIsNext(s: string, p: nat, a: nat, b: nat)
    requires p <= |s| && KeyBehind(s[p..], a, b) && (LineStart(s, p) || '\n' in s[p..][..a])
    ensures LineKeys(s, p) == [(p + a, p + b)] + LineKeys(s, p + b)
    decreases a
  {
    hide KeyBehind, LineKey, LineKeys;
    var t := s[p..];
    BehindBounds(t, a, b);
    if '\n' in t[..a] {
      BlankLine(t, a, b);
      NoKeyHere(s, p);
      KeyBehindNext(t, a, b);
      assert t[1..] == s[p + 1..] && t[0] == s[p] && t[..a] == [t[0]] + t[1..][..a - 1];
      KeyIsNext(s, p + 1, a - 1, b - 1);
    } else {
      KeyOfLine(t, a, b);
      KeyHere(s, p);
      forall j | p + 1 <= j <= p + b
        ensures !LineStart(s, j)
      {
        assert s[j - 1] == t[j - 1 - p];
        if j - 1 - p < a {
          assert t[..a][j - 1 - p] == t[j - 1 - p];
        } else {
          KeyHasNoNewline(t, a, b, j - 1 - p);
        }
      }
      SkipLine(s, p + 1, p + b);
    }
  }

  lemma BehindBounds(t: string, a: nat, b: nat)
    requires KeyBehind(t, a, b)
    ensures a < b <= |t|
  {
  }

  lemma NoKeyHere(s: string, i: nat)
    requires i < |s| && (!LineStart(s, i) || LineKey(s[i..]).None?)
    ensures LineKeys(s, i) == LineKeys(s, i + 1)
  {
    hide LineKey;
    assert [] + LineKeys(s, i + 1) == LineKeys(s, i + 1);
  }

  lemma KeyHere(s: string, i: nat)
    requires i < |s| && LineStart(s, i) && LineKey(s[i..]).Some?
    ensures var key := LineKey(s[i..]).value;
      LineKeys(s, i) == [(i + key.0, i + key.1)] + LineKeys(s, i + 1)
  {
    hide LineKey;
  }

  // ----- Searching the rest of a text -----

  /**
    The rest of a text is searched as if a line started there: with the same result, when
    one does, or no value follows.
  */
  predicate Aligned(s: string, o: nat)
    requires o <= |s|
  {
    o == 0 || (!LineStart(s, o) && (o < |s| ==> !IsKeyChar(s[o])) && !ValueFollows(s[o..]))
  }

  lemma ValueOnLine(t: string, a: nat, b: nat)
    requires KeyBehind(t, a, b) && a > 0 && '\n' !in t[..a]
    ensures ValueFollows(t)
  {
    KeyOfLine(t, a, b);
  }

  lemma AlignedSkips(s: string, o: nat, a: nat, b: nat)
    requires o <= |s| && Aligned(s, o) && KeyBehind(s[o..], a, b)
    ensures LineStart(s, o) || '\n' in s[o..][..a]
  {
    hide ValueFollows;
    if a > 0 && '\n' !in s[o..][..a] {
      ValueOnLine(s[o..], a, b);
    }
  }

  /** More of a key stands here, or none did before. */
  predicate KeyGoesOn(s: string, i: nat) {
    i > |s| || i == 0 || s[i - 1] == '\n' || (i < |s| && IsKeyChar(s[i]))
  }

  lemma KeyEnds(s: string, p: nat, a: nat, b: nat)
    requires p <= |s| && KeyBehind(s[p..], a, b)
    ensures !KeyGoesOn(s, p + b)
  {
    var t := s[p..];
    KeyHasNoNewline(t, a, b, b - 1);
    assert b < |t| ==> t[a + 1..][b - a - 1] == t[b];
  }

  /** What a search from `i` should give. */
  ghost predicate FindsNext(s: string, o: nat, i: nat, found: Option<(nat, nat)>)
    requires o + i <= |s|
  {
    match found
    case None => LineKeys(s, o + i) == []
    case Some((a, b)) =>
      o + b <= |s| && LineKeys(s, o + i) == [(o + a, o + b)] + LineKeys(s, o + b) && !KeyGoesOn(s, o + b)
  }

  lemma FoundHere(s: string, o: nat, i: nat)
    requires o + i <= |s| && Aligned(s, o) && LineStart(s[o..], i) && PropertyId(s[o..][i..]).Some?
    ensures var (a, b) := PropertyId(s[o..][i..]).value; FindsNext(s, o, i, Some((i + a, i + b)))
  {
    hide PropertyId, LineKeys, LineKey, KeyBehind, Aligned, KeyGoesOn;
    DropOfDrop(s, o, i);
    var (a, b) := PropertyId(s[o + i..]).value;
    PropertyIdIs(s[o + i..]);
    if i == 0 {
      AlignedSkips(s, o, a, b);
    }
    KeyIsNext(s, o + i, a, b);
    KeyEnds(s, o + i, a, b);
  }

  lemma NothingHere(s: string, o: nat, i: nat)
    requires o + i <= |s| && (LineStart(s[o..], i) ==> PropertyId(s[o..][i..]).None?)
    ensures LineKeys(s, o + i) == if o + i < |s| then LineKeys(s, o + i + 1) else []
  {
    hide PropertyId, LineKey;
    DropOfDrop(s, o, i);
    PropertyIdIs(s[o + i..]);
    if o + i < |s| {
      NoKeyHere(s, o + i);
    } else {
      NoKeyAtEnd(s);
    }
  }

  lemma NoKeyAtEnd(s: string)
    ensures LineKeys(s, |s|) == []
  {
  }

  /** Searching an aligned rest finds the next key of the whole text. */
  lemma {:induction false} SearchIsNextKey(s: string, o: nat, i: nat)
    requires o + i <= |s| && Aligned(s, o)
    ensures FindsNext(s, o, i, Search(Properties, s[o..], i))
    decreases |s| - i
  {
    hide PropertyId, LineKeys, Aligned, KeyGoesOn, FindsNext;
    if LineStart(s[o..], i) && PropertyId(s[o..][i..]).Some? {
      FoundHere(s, o, i);
    } else {
      NothingHere(s, o, i);
      if i < |s| - o {
        SearchIsNextKey(s, o, i + 1);
      }
      FindsSame(s, o, i);
    }
  }

  lemma FindsSame(s: string, o: nat, i: nat)
    requires o + i <= |s| && LineKeys(s, o + i) == if o + i < |s| then LineKeys(s, o + i + 1) else []
    ensures o + i == |s| ==> FindsNext(s, o, i, None)
    ensures o + i < |s| ==> forall found :: FindsNext(s, o, i + 1, found) ==> FindsNext(s, o, i, found)
  {
    hide LineKeys;
  }

  // ----- When only the keys are found -----

  /** No key of a line is followed, on its line, by blanks and a character that can start a key. */
  ghost predicate NoValueFollows(s: string, keys: seq<(nat, nat)>) {
    forall k :: k in keys ==> k.1 <= |s| && !ValueFollows(s[k.1..])
  }

  /** A value behind a key is found before the rest of the line ends. */
  lemma ValueIsFound(s: string, o: nat)
    requires 0 < o <= |s| && !KeyGoesOn(s, o) && ValueFollows(s[o..])
    ensures Search(Properties, s[o..], 0).Some?
    ensures var a := o + Search(Properties, s[o..], 0).value.0; forall k :: k in LineKeys(s, o) ==> a < k.0
  {
    var w := s[o..];
    var n := Span(w, IsLineSpace);
    BlanksThenKey(w);
    SameLine(s, o, n);
    hide *;
    SkipLine(s, o, o + n + 1);
  }

  lemma BlanksThenKey(w: string)
    requires ValueFollows(w)
    ensures var n := Span(w, IsLineSpace); Search(Properties, w, 0).Some? && Search(Properties, w, 0).value.0 == n < |w|
  {
    hide Span;
    var n := Span(w, IsLineSpace);
    LineSpaceIsSpace(w[..n]);
    StartsBehindSpace(w[n]);
    SpanIs(w, IsSpace, n);
    assert w[0..] == w;
  }

  lemma LineSpaceIsSpace(s: string)
    requires All(IsLineSpace, s)
    ensures All(IsSpace, s)
  {
  }

  lemma StartsBehindSpace(c: char)
    requires StartsKey(c)
    ensures !IsSpace(c)
  {
  }

  /** Blanks behind a key are on its line. */
  lemma SameLine(s: string, o: nat, n: nat)
    requires 0 < o && o + n <= |s| && !KeyGoesOn(s, o) && All(IsLineSpace, s[o..][..n])
    ensures OneLine(s, o, o + n)
  {
    forall j | o <= j <= o + n
      ensures !LineStart(s, j)
    {
      assert j > o ==> s[o..][..n][j - 1 - o] == s[j - 1];
    }
  }

  lemma {:induction false} KeysOnlyIff(s: string, o: nat)
    requires o <= |s| && Aligned(s, o)
    ensures Spans(Parse(Properties, s[o..]), o) == LineKeys(s, o) <==> NoValueFollows(s, LineKeys(s, o))
    decreases |s| - o
  {
    hide PropertyId, Search, LineKeys, ValueFollows, KeyGoesOn, Spans, Aligned, NoValueFollows;
    SearchIsNextKey(s, o, 0);
    match Search(Properties, s[o..], 0) {
      case None =>
        SpansOne(s[o..], o);
        NoKeysNoValues(s);
      case Some((a, b)) =>
        MoreSpans(s, o, a, b);
        var keys, found := LineKeys(s, o + b), Spans(Parse(Properties, s[o + b..]), o + b);
        KeysCons(s, (o + a, o + b), keys, found);
        if ValueFollows(s[o + b..]) {
          ValueIsFound(s, o + b);
          FirstSpan(s[o + b..], o + b);
        } else {
          NowAligned(s, o + b);
          KeysOnlyIff(s, o + b);
        }
    }
  }

  lemma KeysCons(s: string, key: (nat, nat), keys: seq<(nat, nat)>, found: seq<(nat, nat)>)
    requires key.1 <= |s|
    ensures [key] + found == [key] + keys <==> found == keys
    ensures NoValueFollows(s, [key] + keys) <==> !ValueFollows(s[key.1..]) && NoValueFollows(s, keys)
  {
    hide ValueFollows;
    assert ([key] + found)[1..] == found && ([key] + keys)[1..] == keys;
    assert ([key] + keys)[0] == key && key in [key] + keys;
  }

  lemma NoKeysNoValues(s: string)
    ensures NoValueFollows(s, [])
  {
  }

  lemma MoreSpans(s: string, o: nat, a: nat, b: nat)
    requires o <= |s| && Search(Properties, s[o..], 0) == Some((a, b))
    ensures o + b <= |s|
    ensures Spans(Parse(Properties, s[o..]), o)
         == [(o + a, o + b)] + Spans(Parse(Properties, s[o + b..]), o + b)
  {
    hide Search, Spans;
    var t := s[o..];
    assert t[b..] == s[o + b..];
    SpansTwo(t[..a], t[a..b], Parse(Properties, t[b..]), o);
  }

  lemma NowAligned(s: string, o: nat)
    requires !KeyGoesOn(s, o) && !ValueFollows(s[o..])
    ensures Aligned(s, o)
  {
  }

  lemma FirstSpan(t: string, o: nat)
    requires Search(Properties, t, 0).Some?
    ensures var r := Spans(Parse(Properties, t), o); r != [] && r[0].0 == o + Search(Properties, t, 0).value.0
  {
    hide Search, Spans;
    var (a, b) := Search(Properties, t, 0).value;
    SpansTwo(t[..a], t[a..b], Parse(Properties, t[b..]), o);
  }

  /**
    The ids found in a properties file are the keys of its lines exactly when no key is
    followed, on its own line, by white space and a character that could start a key.
  */
  lemma FoundAreKeysIff(s: string)
    ensures Spans(Parse(Properties, s), 0) == LineKeys(s, 0) <==> NoValueFollows(s, LineKeys(s, 0))
  {
    assert s[0..] == s;
    KeysOnlyIff(s, 0);
  }
}
