/** Where the ids of branding strings stand, character by character. */
module BrandingIds {
  import opened BrandingKeys
  import opened BrandingRenames
  import opened BrandingStrings
  import opened Scanning
  import opened Wrappers

  // ----- Fluent files -----

  /** At `i` a line starts with an id up to `n`; blanks up to `m` and an equals sign follow it. */
  predicate FluentLine(s: string, i: nat, n: nat, m: nat) {
    && i < n <= m < |s| && (i == 0 || s[i - 1] == '\n')
    && IsId(s[i..n]) && s[m] == '=' && forall k :: n <= k < m ==> s[k] == ' '
  }

  lemma AssignsIff(s: string, n: nat)
    requires n <= |s|
    ensures Assigns(s[n..]) <==> exists m :: n <= m < |s| && s[m] == '=' && forall k :: n <= k < m ==> s[k] == ' '
  {
    var w := s[n..];
    if Assigns(w) {
      var m := n + Span(w, IsBlank);
      AllInSpan(w, IsBlank);
      assert forall k :: n <= k < m ==> s[k] == w[k - n];
      assert s[m] == '=';
    }
    if m :| n <= m < |s| && s[m] == '=' && forall k :: n <= k < m ==> s[k] == ' ' {
      assert w[..m - n] == s[n..m];
      SpanIs(w, IsBlank, m - n);
    }
  }

  lemma FluentIdIff(s: string, i: nat, n: nat)
    requires i < n <= |s|
    ensures FluentId(s[i..]) == Some((0, n - i)) <==> IsId(s[i..n]) && Assigns(s[n..])
  {
    assert s[i..] == s[i..n] + s[n..] && s[i..][..n - i] == s[i..n] && s[i..][n - i..] == s[n..];
    if FluentId(s[i..]) == Some((0, n - i)) {
      MatchIsId(s[i..]);
    }
    if IsId(s[i..n]) && Assigns(s[n..]) {
      IdIsMatched(s[i..n], s[n..]);
    }
  }

  lemma {:induction false} LineIdsAre(s: string, from: nat, i: nat, n: nat)
    requires from <= |s|
    ensures (i, n) in LineIds(s, from)
       <==> from <= i < n <= |s| && LineStart(s, i) && FluentId(s[i..]) == Some((0, n - i))
    decreases |s| - from
  {
    hide FluentId, LineStart;
    if from < |s| {
      LineIdsAre(s, from + 1, i, n);
    }
  }

  /** The ids found in a Fluent file are those that start a line and have blanks and an equals sign behind them. */
  lemma FluentIdsAre(s: string, i: nat, n: nat)
    ensures (i, n) in Spans(Parse(Fluent, s), 0) <==> exists m :: FluentLine(s, i, n, m)
  {
    hide FluentId, LineIds, Spans, Parse, IsId, Assigns;
    FoundAtLineStarts(s);
    LineIdsAre(s, 0, i, n);
    if i < n <= |s| {
      FluentIdIff(s, i, n);
      AssignsIff(s, n);
      if m :| n <= m < |s| && s[m] == '=' && forall k :: n <= k < m ==> s[k] == ' ' {
        assert FluentLine(s, i, n, m) <==> (i == 0 || s[i - 1] == '\n') && IsId(s[i..n]);
      }
    }
  }

  // ----- Properties files -----

  /** The line that starts at `l` has white space up to `i`, and a key from there up to `n`. */
  predicate PropertyLine(s: string, l: nat, i: nat, n: nat) {
    && l <= i < n <= |s| && (l == 0 || s[l - 1] == '\n')
    && (forall k :: l <= k < i ==> IsSpace(s[k]) && s[k] != '\n')
    && s[i] != '!' && s[i] != '#' && (forall k :: i <= k < n ==> IsKeyChar(s[k]))
    && (n < |s| ==> !IsKeyChar(s[n]))
  }

  /** A greedy run ends where the first other character stands. */
  lemma RunEnds(s: string, l: nat, i: nat, p: char -> bool)
    requires l <= i <= |s|
    ensures l + Span(s[l..], p) == i <==> (forall k :: l <= k < i ==> p(s[k])) && (i < |s| ==> !p(s[i]))
  {
    var t := s[l..];
    AllInSpan(t, p);
    assert forall k :: l <= k < |s| ==> s[k] == t[k - l];
    if (forall k :: l <= k < i ==> p(s[k])) && (i < |s| ==> !p(s[i])) {
      assert t[..i - l] == s[l..i];
      SpanIs(t, p, i - l);
    }
  }

  lemma LineKeyIff(s: string, l: nat, i: nat, n: nat)
    requires l <= i < n <= |s|
    ensures LineKey(s[l..]) == Some((i - l, n - l)) <==>
      && (forall k :: l <= k < i ==> IsSpace(s[k]) && s[k] != '\n')
      && s[i] != '!' && s[i] != '#' && (forall k :: i <= k < n ==> IsKeyChar(s[k]))
      && (n < |s| ==> !IsKeyChar(s[n]))
  {
    hide Span, IsSpace;
    RunEnds(s, l, i, IsLineSpace);
    RunEnds(s, i + 1, n, IsKeyChar);
    LineKeyAt(s, l, i, n);
    KeyCharIsNoSpace(s[i]);
  }

  lemma KeyCharIsNoSpace(c: char)
    ensures IsKeyChar(c) ==> !IsSpace(c)
  {
  }

  lemma LineKeyAt(s: string, l: nat, i: nat, n: nat)
    requires l <= i < n <= |s|
    ensures LineKey(s[l..]) == Some((i - l, n - l)) <==>
      l + Span(s[l..], IsLineSpace) == i && StartsKey(s[i]) && i + 1 + Span(s[i + 1..], IsKeyChar) == n
  {
    hide IsLineSpace, StartsKey, IsKeyChar;
    var a := Span(s[l..], IsLineSpace);
    if l + a == i {
      assert s[l..][a + 1..] == s[i + 1..];
    }
  }

  predicate KeyAt(s: string, l: nat, i: nat, n: nat) {
    l <= |s| && LineStart(s, l) && l <= i < n && LineKey(s[l..]) == Some((i - l, n - l))
  }

  lemma {:induction false} KeyFromLine(s: string, from: nat, i: nat, n: nat)
    requires from <= |s|
    ensures (i, n) in LineKeys(s, from) <==> exists l :: from <= l && KeyAt(s, l, i, n)
    decreases |s| - from
  {
    hide KeyAt;
    KeyHere(s, from, i, n);
    if from < |s| {
      KeyFromLine(s, from + 1, i, n);
    } else {
      NoKeyBehind(s, i, n);
    }
  }

  lemma KeyHere(s: string, from: nat, i: nat, n: nat)
    requires from <= |s|
    ensures (i, n) in LineKeys(s, from) <==>
      KeyAt(s, from, i, n) || (from < |s| && (i, n) in LineKeys(s, from + 1))
  {
    hide LineKey, LineStart;
  }

  lemma NoKeyBehind(s: string, i: nat, n: nat)
    ensures forall l :: l > |s| ==> !KeyAt(s, l, i, n)
  {
  }

  /** The keys of the lines of a properties file are what begins behind the white space that a line begins with. */
  lemma LineKeysAre(s: string, i: nat, n: nat)
    ensures (i, n) in LineKeys(s, 0) <==> exists l :: PropertyLine(s, l, i, n)
  {
    hide LineKey, LineKeys;
    KeyFromLine(s, 0, i, n);
    forall l: nat
      ensures PropertyLine(s, l, i, n) <==> KeyAt(s, l, i, n)
    {
      if l <= i < n <= |s| {
        LineKeyIff(s, l, i, n);
      }
    }
  }
}
