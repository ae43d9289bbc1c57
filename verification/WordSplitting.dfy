/** Text helpers of the windres frontend: undoing an escaping level, and splitting a command into words. */
module WordSplitting {
  import opened ByteStrings
  import opened Quoting

  // ----- unescape_cpp -----

  /** The text without each backslash that stands right before a quote. */
  function Unescaped(s: string): string {
    if s == [] then []
    else if |s| > 1 && s[0] == BACKSLASH && s[1] == QUOTE then Unescaped(s[1..])
    else [s[0]] + Unescaped(s[1..])
  }

  method UnescapeCpp(str: string) returns (out: string)
    ensures out == Unescaped(str)
  {
    var buf := new char[|str| + 1](_ => '\0');
    var len := |str|;
    var i, outpos := 0, 0;
    assert str[0..] == str;
    while i < len - 1
      invariant outpos <= i <= len
      invariant buf[..outpos] + Unescaped(str[i..]) == Unescaped(str)
    {
      assert str[i..][1..] == str[i + 1..];
      if str[i] == BACKSLASH && str[i + 1] == QUOTE {
        i := i + 1;
        continue;
      }
      Assoc(buf[..outpos], [str[i]], Unescaped(str[i + 1..]));
      outpos := Append(buf, outpos, str[i]);
      i := i + 1;
    }
    while i < len
      invariant outpos <= i <= len && i >= len - 1
      invariant buf[..outpos] + Unescaped(str[i..]) == Unescaped(str)
    {
      assert str[i..][1..] == str[i + 1..];
      Assoc(buf[..outpos], [str[i]], Unescaped(str[i + 1..]));
      outpos := Append(buf, outpos, str[i]);
      i := i + 1;
    }
    out := buf[..outpos];
    assert str[i..] == [];
    outpos := Append(buf, outpos, '\0');
  }

  /** The level of escaping that binutils windres asks of its callers. */
  function QuotesEscaped(s: string): string {
    if s == [] then []
    else (if s[0] == QUOTE then [BACKSLASH, QUOTE] else [s[0]]) + QuotesEscaped(s[1..])
  }

  lemma UnescapeQuote(rest: string)
    ensures Unescaped([BACKSLASH, QUOTE] + rest) == [QUOTE] + Unescaped(rest)
  {
    assert ([BACKSLASH, QUOTE] + rest)[1..] == [QUOTE] + rest;
    assert ([QUOTE] + rest)[1..] == rest;
  }

  lemma UnescapeOther(c: char, rest: string)
    requires c != QUOTE && (rest == [] || rest[0] != QUOTE)
    ensures Unescaped([c] + rest) == [c] + Unescaped(rest)
  {
    assert ([c] + rest)[1..] == rest;
  }

  /** Unescaping undoes that level for every text, backslashes before quotes included. */
  lemma {:induction false} UnescapeUndoes(s: string)
    ensures Unescaped(QuotesEscaped(s)) == s
  {
    if s != [] {
      UnescapeUndoes(s[1..]);
      if s[0] == QUOTE {
        UnescapeQuote(QuotesEscaped(s[1..]));
      } else {
        UnescapeOther(s[0], QuotesEscaped(s[1..]));
      }
      assert s == [s[0]] + s[1..];
    }
  }

  // ----- split_args -----

  /** The words still to come, when `word` has been collected so far. */
  function Words(s: string, word: string, quoted: bool): seq<string>
    decreases |s|
  {
    if s == [] then (if word == [] then [] else [word])
    else if s[0] == BACKSLASH then
      if |s| > 1 then Words(s[2..], word + [s[1]], quoted) else Words([], word, quoted)
    else if s[0] == QUOTE then Words(s[1..], word, !quoted)
    else if s[0] == ' ' && !quoted then [word] + Words(s[1..], [], false)
    else Words(s[1..], word + [s[0]], quoted)
  }

  function Split(s: string): seq<string> {
    Words(s, [], false)
  }

  const INT_MAX: nat := 0x7fff_ffff

  /** At most one word for each character read. */
  lemma {:induction false} WordsBound(s: string, word: string, quoted: bool)
    ensures |Words(s, word, quoted)| <= |s| + (if word == [] then 0 else 1)
    decreases |s|
  {
    if s == [] {
    } else if s[0] == BACKSLASH {
      if |s| > 1 {
        WordsBound(s[2..], word + [s[1]], quoted);
      }
    } else if s[0] == QUOTE {
      WordsBound(s[1..], word, !quoted);
    } else if s[0] == ' ' && !quoted {
      WordsBound(s[1..], [], false);
    } else {
      WordsBound(s[1..], word + [s[0]], quoted);
    }
  }

  /** What a vector holds once `words` are stored from `start` on, as far as there is room. */
  function Stored(before: seq<string>, start: nat, maxArgs: nat, words: seq<string>): seq<string>
    requires start <= maxArgs <= |before|
  {
    var kept := Front(words, maxArgs - start);
    before[..start] + kept + before[start + |kept|..]
  }

  lemma StoredSnoc(before: seq<string>, start: nat, maxArgs: nat, words: seq<string>, word: string)
    requires start <= maxArgs <= |before|
    ensures Stored(before, start, maxArgs, words + [word])
         == if start + |words| < maxArgs then Stored(before, start, maxArgs, words)[start + |words| := word]
            else Stored(before, start, maxArgs, words)
  {
    var room := maxArgs - start;
    if |words| < room {
      assert Front(words, room) == words && Front(words + [word], room) == words + [word];
    } else {
      assert Front(words + [word], room) == Front(words, room);
    }
  }

  /** The words `done` are counted, and stored as far as there is a vector and room in it. */
  ghost predicate Holds(args: array?<string>, arg: nat, before: seq<string>, start: nat, maxArgs: nat,
                        done: seq<string>)
    reads args
  {
    && arg == Min(start + |done|, maxArgs)
    && (args != null ==>
          start <= maxArgs <= args.Length == |before| && args[..] == Stored(before, start, maxArgs, done))
  }

  lemma Held(args: array?<string>, arg: nat, before: seq<string>, start: nat, maxArgs: nat, done: seq<string>)
    requires Holds(args, arg, before, start, maxArgs, done)
    ensures arg == Min(start + |done|, maxArgs)
    ensures args != null ==>
      start <= maxArgs <= args.Length == |before| && args[..] == Stored(before, start, maxArgs, done)
  {
  }

  /**
    Ends the word in the buffer, and stores it, or only counts it when there is no vector; it
    is dropped when the vector is full.
  */
  method Store(args: array?<string>, arg: nat, maxArgs: nat, out: array<char>, outpos: nat,
               ghost before: seq<string>, ghost start: nat, ghost done: seq<string>)
    returns (arg': nat)
    requires outpos < out.Length && Holds(args, arg, before, start, maxArgs, done)
    modifies args, out
    ensures Holds(args, arg', before, start, maxArgs, done + [old(out[..outpos])])
  {
    var word := out[..outpos];
    var end := Append(out, outpos, '\0');
    arg' := arg;
    if args != null {
      StoredSnoc(before, start, maxArgs, done, word);
    }
    if arg < maxArgs {
      if args != null {
        args[arg] := word;
      }
      arg' := arg + 1;
    }
  }

  /** Before position `i` the words `done` are complete, and `word` has been collected. */
  predicate Collected(str: string, i: nat, word: string, quoted: bool, done: seq<string>)
    requires i <= |str|
  {
    Split(str) == done + Words(str[i..], word, quoted)
  }

  lemma CollectNothing(str: string)
    ensures Collected(str, 0, [], false, [])
  {
    assert str[0..] == str;
  }

  lemma CollectNext(str: string, i: nat, word: string, quoted: bool, done: seq<string>)
    requires i < |str| && Collected(str, i, word, quoted, done)
    ensures str[i] == BACKSLASH && i + 1 < |str| ==> Collected(str, i + 2, word + [str[i + 1]], quoted, done)
    ensures str[i] == BACKSLASH && i + 1 == |str| ==> Collected(str, i + 1, word, quoted, done)
    ensures str[i] == QUOTE ==> Collected(str, i + 1, word, !quoted, done)
    ensures str[i] == ' ' && !quoted ==> Collected(str, i + 1, [], false, done + [word])
    ensures str[i] != BACKSLASH && str[i] != QUOTE && (str[i] == ' ' ==> quoted) ==>
      Collected(str, i + 1, word + [str[i]], quoted, done)
  {
    var s := str[i..];
    assert s[1..] == str[i + 1..] && (i + 1 < |str| ==> s[2..] == str[i + 2..]);
    assert i + 1 == |str| ==> s[1..] == [];
    Assoc(done, [word], Words(s[1..], [], false));
  }

  lemma CollectAll(str: string, word: string, quoted: bool, done: seq<string>)
    requires Collected(str, |str|, word, quoted, done)
    ensures Split(str) == if word == [] then done else done + [word]
  {
    assert str[|str|..] == [];
  }

  lemma NothingHeld(args: array?<string>, before: seq<string>, start: nat, maxArgs: nat)
    requires start <= maxArgs && (args != null ==> maxArgs <= args.Length && args[..] == before)
    ensures Holds(args, start, before, start, maxArgs, [])
  {
    if args != null {
      assert before[..start] + [] + before[start..] == before;
    }
  }

  /** Without a vector nothing limits the count. */
  lemma SplitBound(str: string, start: nat)
    requires |str| + start <= INT_MAX
    ensures Min(start + |Split(str)|, INT_MAX) == start + |Split(str)|
  {
    WordsBound(str, [], false);
  }

  /** One turn of the loop over a command: the character at `i`, and with a backslash the one behind it. */
  method Turn(str: string, i: nat, args: array?<string>, arg: nat, max: nat, out: array<char>, outpos: nat,
              inquote: bool, ghost before: seq<string>, ghost start: nat, ghost done: seq<string>)
    returns (i': nat, arg': nat, outpos': nat, inquote': bool, ghost done': seq<string>)
    requires outpos <= i < |str| < out.Length
    requires Collected(str, i, out[..outpos], inquote, done) && Holds(args, arg, before, start, max, done)
    modifies args, out
    ensures i < i' <= |str| && outpos' <= i'
    ensures Collected(str, i', out[..outpos'], inquote', done') && Holds(args, arg', before, start, max, done')
  {
    hide *;
    i', arg', outpos', inquote', done' := i, arg, outpos, inquote, done;
    CollectNext(str, i, out[..outpos], inquote, done);
    if str[i] == BACKSLASH {
      if i + 1 < |str| {
        i' := i + 1;
        outpos' := Append(out, outpos, str[i']);
      }
    } else if str[i] == QUOTE {
      inquote' := !inquote;
    } else if str[i] == ' ' && !inquote {
      done' := done + [out[..outpos]];
      arg' := Store(args, arg, max, out, outpos, before, start, done);
      outpos' := 0;
    } else {
      outpos' := Append(out, outpos, str[i]);
    }
    i' := i' + 1;
  }

  /**
    Both passes over a command: without a vector it counts the words, with one it stores
    them from index `start` on, as many as fit below `maxArgs`.
  */
  method SplitArgs(str: string, args: array?<string>, start: nat, maxArgs: nat) returns (arg: nat)
    requires |str| + start <= INT_MAX
    requires args != null ==> start <= maxArgs <= args.Length
    modifies args
    ensures args == null ==> arg == start + |Split(str)|
    ensures args != null ==>
      && arg == Min(start + |Split(str)|, maxArgs)
      && args[..] == Stored(old(args[..]), start, maxArgs, Split(str))
  {
    var len := |str|;
    var out := new char[len + 1](_ => '\0');
    var max := if args == null then INT_MAX else maxArgs;
    var i: nat, outpos: nat, inquote := 0, 0, false;
    arg := start;
    ghost var done: seq<string> := [];
    ghost var before := if args == null then [] else args[..];
    hide *;
    NothingHeld(args, before, start, max);
    CollectNothing(str);
    assert out[..0] == [];
    while i < len
      invariant outpos <= i <= len
      invariant Collected(str, i, out[..outpos], inquote, done)
      invariant Holds(args, arg, before, start, max, done)
    {
      i, arg, outpos, inquote, done := Turn(str, i, args, arg, max, out, outpos, inquote, before, start, done);
    }
    CollectAll(str, out[..outpos], inquote, done);
    if outpos > 0 {
      ghost var word := out[..outpos];
      arg := Store(args, arg, max, out, outpos, before, start, done);
      done := done + [word];
    }
    Held(args, arg, before, start, max, done);
    SplitBound(str, start);
  }

  // ----- Which words are empty, and which are lost -----

  /** The command cut at its spaces, but for those in quotes or behind a backslash. */
  function Pieces(s: string, quoted: bool): (ps: seq<string>)
    ensures ps != []
    decreases |s|
  {
    if s == [] then [[]]
    else if s[0] == BACKSLASH then
      if |s| > 1 then Longer(s[..2], Pieces(s[2..], quoted)) else [s]
    else if s[0] == QUOTE then Longer([QUOTE], Pieces(s[1..], !quoted))
    else if s[0] == ' ' && !quoted then [[]] + Pieces(s[1..], false)
    else Longer([s[0]], Pieces(s[1..], quoted))
  }

  /** The first piece, with some text in front. */
  function Longer(text: string, ps: seq<string>): seq<string>
    requires ps != []
  {
    [text + ps[0]] + ps[1..]
  }

  function Spaced(ps: seq<string>): string
    requires ps != []
  {
    if |ps| == 1 then ps[0] else ps[0] + ([' '] + Spaced(ps[1..]))
  }

  lemma LongerSpaced(text: string, ps: seq<string>)
    requires ps != []
    ensures Spaced(Longer(text, ps)) == text + Spaced(ps)
  {
    assert Longer(text, ps)[1..] == ps[1..];
    if |ps| > 1 {
      Assoc(text, ps[0], [' '] + Spaced(ps[1..]));
    }
  }

  /** Nothing of the command is lost in cutting it. */
  lemma {:induction false} PiecesAreTheCommand(s: string, quoted: bool)
    ensures Spaced(Pieces(s, quoted)) == s
    decreases |s|
  {
    hide Longer, Spaced;
    SpacedOne(s);
    if s == [] {
    } else if s[0] == BACKSLASH {
      if |s| > 1 {
        PiecesAreTheCommand(s[2..], quoted);
        LongerSpaced(s[..2], Pieces(s[2..], quoted));
      }
    } else if s[0] == QUOTE {
      PiecesAreTheCommand(s[1..], !quoted);
      LongerSpaced([QUOTE], Pieces(s[1..], !quoted));
    } else if s[0] == ' ' && !quoted {
      PiecesAreTheCommand(s[1..], false);
      SpacedCons(Pieces(s[1..], false));
    } else {
      PiecesAreTheCommand(s[1..], quoted);
      LongerSpaced([s[0]], Pieces(s[1..], quoted));
    }
  }

  lemma SpacedOne(s: string)
    ensures Spaced([s]) == s
  {
  }

  lemma SpacedCons(ps: seq<string>)
    requires ps != []
    ensures Spaced([[]] + ps) == [' '] + Spaced(ps)
  {
    assert ([[]] + ps)[1..] == ps;
    assert [] + ([' '] + Spaced(ps)) == [' '] + Spaced(ps);
  }

  /** What a piece stands for: quotes are dropped, and a backslash gives the character behind it. */
  function Meaning(p: string): string
    decreases |p|
  {
    if p == [] then []
    else if p[0] == BACKSLASH then (if |p| > 1 then [p[1]] + Meaning(p[2..]) else [])
    else if p[0] == QUOTE then Meaning(p[1..])
    else [p[0]] + Meaning(p[1..])
  }

  function Meanings(ps: seq<string>): seq<string> {
    seq(|ps|, i requires 0 <= i < |ps| => Meaning(ps[i]))
  }

  /** An empty word at the end is not stored. */
  function EndDropped(words: seq<string>): seq<string> {
    if words != [] && words[|words| - 1] == [] then words[..|words| - 1] else words
  }

  /** The words to come are the meanings of the pieces to come, the first of them joining what was collected. */
  lemma {:induction false} WordsAreMeanings(s: string, word: string, quoted: bool)
    ensures Words(s, word, quoted) == EndDropped(Longer(word, Meanings(Pieces(s, quoted))))
    decreases |s|
  {
    hide EndDropped, Longer;
    if s == [] {
      LastWord(word, []);
    } else if s[0] == BACKSLASH {
      if |s| > 1 {
        WordsAreMeanings(s[2..], word + [s[1]], quoted);
        assert s[..2][0] == BACKSLASH && s[..2][1] == s[1];
        LongerMeaning(word, s[..2], [s[1]], Pieces(s[2..], quoted));
      } else {
        LastWord(word, s);
      }
    } else if s[0] == QUOTE {
      WordsAreMeanings(s[1..], word, !quoted);
      assert word + [] == word;
      LongerMeaning(word, [QUOTE], [], Pieces(s[1..], !quoted));
    } else if s[0] == ' ' && !quoted {
      WordsAreMeanings(s[1..], [], false);
      NextWord(word, Pieces(s[1..], false));
    } else {
      WordsAreMeanings(s[1..], word + [s[0]], quoted);
      LongerMeaning(word, [s[0]], [s[0]], Pieces(s[1..], quoted));
    }
  }

  lemma LastWord(word: string, p: string)
    requires Meaning(p) == []
    ensures EndDropped(Longer(word, Meanings([p]))) == if word == [] then [] else [word]
  {
    assert word + [] == word;
    assert Longer(word, Meanings([p])) == [word];
  }

  /** `text` stands for `meant`, whatever follows it. */
  lemma LongerMeaning(word: string, text: string, meant: string, ps: seq<string>)
    requires ps != []
    requires
      || (text == [QUOTE] && meant == [])
      || (|text| == 2 && text[0] == BACKSLASH && meant == [text[1]])
      || (|text| == 1 && text[0] != BACKSLASH && text[0] != QUOTE && meant == text)
    ensures Longer(word, Meanings(Longer(text, ps))) == Longer(word + meant, Meanings(ps))
  {
    var p := text + ps[0];
    assert p[|text|..] == ps[0];
    assert Meaning(p) == meant + Meaning(ps[0]);
    Assoc(word, meant, Meaning(ps[0]));
    assert Meanings(Longer(text, ps))[1..] == Meanings(ps)[1..];
  }

  lemma NextWord(word: string, ps: seq<string>)
    requires ps != []
    ensures EndDropped(Longer(word, Meanings([[]] + ps))) == [word] + EndDropped(Longer([], Meanings(ps)))
  {
    var rest := Longer([], Meanings(ps));
    assert [] + Meanings(ps)[0] == Meanings(ps)[0];
    assert rest == Meanings(ps);
    assert word + [] == word;
    assert Meanings([[]] + ps)[1..] == Meanings(ps);
    assert Longer(word, Meanings([[]] + ps)) == [word] + rest;
  }

  /** Nothing but quotes, and perhaps a backslash with nothing behind it. */
  predicate Blank(p: string) {
    forall i :: 0 <= i < |p| ==> p[i] == QUOTE || (p[i] == BACKSLASH && i == |p| - 1)
  }

  lemma {:induction false} MeansNothingIff(p: string)
    ensures Meaning(p) == [] <==> Blank(p)
    decreases |p|
  {
    if p != [] && p[0] == QUOTE {
      MeansNothingIff(p[1..]);
      assert forall i :: 0 <= i < |p[1..]| ==> p[1..][i] == p[i + 1];
      assert forall i :: 0 < i < |p| ==> p[i] == p[1..][i - 1];
    }
  }

  /**
    The words of any command are what its pieces mean, in order. A word is empty exactly
    when its piece is only quotes; and the last piece, but no other, gives no word at all
    when it is blank.
  */
  lemma EmptyOrLostIff(s: string)
    ensures var ps, ws := Pieces(s, false), Split(s);
      && |ws| == (if Blank(ps[|ps| - 1]) then |ps| - 1 else |ps|)
      && forall i :: 0 <= i < |ws| ==> ws[i] == Meaning(ps[i]) && (ws[i] == [] <==> Blank(ps[i]))
  {
    hide Words, Pieces, Meaning, Blank;
    var ps, ws := Pieces(s, false), Split(s);
    WordsAreMeanings(s, [], false);
    assert [] + Meanings(ps)[0] == Meanings(ps)[0];
    assert Longer([], Meanings(ps)) == Meanings(ps);
    forall i | 0 <= i < |ps|
      ensures Meaning(ps[i]) == [] <==> Blank(ps[i])
    {
      MeansNothingIff(ps[i]);
    }
  }

  /** An empty word in quotes is kept before a space, and lost at the end. */
  lemma QuotedEmptyWordIsLost()
    ensures Split("\"\" a") == ["", "a"] && Split("a \"\"") == ["a"]
  {
    WordsOfEmptyFirst();
    WordsOfEmptyLast();
  }

  lemma WordsOfEmptyFirst()
    ensures Split("\"\" a") == ["", "a"]
  {
    assert "\"\" a"[1..] == "\" a" && "\" a"[1..] == " a" && " a"[1..] == "a" && "a"[1..] == "";
    assert [] + ['a'] == "a" && Words("", "a", false) == ["a"];
    assert Words(" a", [], false) == ["", "a"];
  }

  lemma WordsOfEmptyLast()
    ensures Split("a \"\"") == ["a"]
  {
    assert "a \"\""[1..] == " \"\"" && " \"\""[1..] == "\"\"" && "\"\""[1..] == "\"" && "\""[1..] == "";
    assert [] + ['a'] == "a" && Words("\"\"", [], false) == [];
    assert Words(" \"\"", "a", false) == ["a"];
  }

  // ----- Words survive quoting -----

  /** A word with every character escaped. */
  function Armoured(word: string): string {
    if word == [] then [] else [BACKSLASH, word[0]] + Armoured(word[1..])
  }

  lemma {:induction false} WordsOfArmoured(word: string, rest: string, got: string)
    ensures Words(Armoured(word) + rest, got, false) == Words(rest, got + word, false)
    decreases |word|
  {
    if word == [] {
      assert Armoured(word) + rest == rest && got + word == got;
    } else {
      var text := Armoured(word) + rest;
      assert text[2..] == Armoured(word[1..]) + rest;
      WordsOfArmoured(word[1..], rest, got + [word[0]]);
      assert got + [word[0]] + word[1..] == got + word;
    }
  }

  /** A command line with a space after every word. */
  function Command(words: seq<string>): string {
    if words == [] then [] else Armoured(words[0]) + ([' '] + Command(words[1..]))
  }

  /** A command can carry any list of words, empty words included. */
  lemma {:induction false} SplitCommand(words: seq<string>)
    ensures Split(Command(words)) == words
  {
    if words != [] {
      var word, tail := words[0], Command(words[1..]);
      SplitCommand(words[1..]);
      WordsOfArmoured(word, [' '] + tail, []);
      assert [] + word == word;
      assert ([' '] + tail)[1..] == tail;
      assert [word] + words[1..] == words;
    }
  }
}
