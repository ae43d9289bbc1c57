/**
  Quoting arguments for Windows, where a process gets one command line and splits it
  itself.  `Escape` fills a buffer in place; the Microsoft C runtime's rules ("Parsing
  C command-line arguments") read the arguments back.
*/
module Quoting {
  import opened ByteStrings

  const BACKSLASH: char := '\\'
  const QUOTE: char := '"'

  function Slashes(n: nat): (r: string)
    ensures |r| == n && forall k :: 0 <= k < n ==> r[k] == BACKSLASH
  {
    seq(n, _ => BACKSLASH)
  }

  // ----- What escape writes -----

  /** The text written for `s` when `run` backslashes have just been written. */
  function EscapeRest(s: string, run: nat): string {
    if s == [] then Slashes(run)
    else if s[0] == BACKSLASH then [BACKSLASH] + EscapeRest(s[1..], run + 1)
    else if s[0] == QUOTE then Slashes(run) + [BACKSLASH, QUOTE] + EscapeRest(s[1..], 0)
    else [s[0]] + EscapeRest(s[1..], 0)
  }

  function Escaped(s: string): string {
    [QUOTE] + EscapeRest(s, 0) + [QUOTE]
  }

  /** How many backslashes stand right before position `i`. */
  function RunBefore(s: string, i: nat): (r: nat)
    requires i <= |s|
    ensures r <= i
  {
    if i > 0 && s[i - 1] == BACKSLASH then 1 + RunBefore(s, i - 1) else 0
  }

  /** Each backslash is written at most twice, each quote as two characters. */
  lemma {:induction false} EscapeRestLength(s: string, run: nat)
    ensures |EscapeRest(s, run)| <= 2 * |s| + run
  {
    if s != [] {
      EscapeRestLength(s[1..], if s[0] == BACKSLASH then run + 1 else 0);
    }
  }

  /** The bound is met with equality by strings of quotes and backslashes. */
  lemma {:induction false} EscapeRestLengthTight(s: string, run: nat)
    requires forall k :: 0 <= k < |s| ==> s[k] == QUOTE || s[k] == BACKSLASH
    ensures |EscapeRest(s, run)| == 2 * |s| + run
  {
    if s != [] {
      EscapeRestLengthTight(s[1..], if s[0] == BACKSLASH then run + 1 else 0);
    }
  }

  /** `*ptr++ = c`. */
  method Append(out: array<char>, ptr: nat, c: char) returns (ptr': nat)
    requires ptr < out.Length
    modifies out
    ensures ptr' == ptr + 1 && out[..ptr'] == old(out[..ptr]) + [c]
  {
    out[ptr] := c;
    ptr' := ptr + 1;
  }

  /** The backward scan from position `i - 1`, which writes one backslash for each it meets. */
  method CopyRun(str: string, i: nat, out: array<char>, start: nat) returns (ptr: nat)
    requires i <= |str| && start + RunBefore(str, i) <= out.Length
    modifies out
    ensures ptr == start + RunBefore(str, i)
    ensures out[..ptr] == old(out[..start]) + Slashes(RunBefore(str, i))
  {
    ptr := start;
    var j := i - 1;
    var more := true;
    while more
      invariant -1 <= j < i
      invariant more ==> (ptr - start) + RunBefore(str, j + 1) == RunBefore(str, i)
      invariant !more ==> ptr - start == RunBefore(str, i)
      invariant start <= ptr <= start + RunBefore(str, i)
      invariant out[..ptr] == old(out[..start]) + Slashes(ptr - start)
      decreases more, j
    {
      if j >= 0 {
        more := str[j] == BACKSLASH;
        j := j - 1;
        if more {
          OneMoreSlash(ptr - start);
          ptr := Append(out, ptr, BACKSLASH);
        }
      } else {
        more := false;
      }
    }
  }

  lemma EscapeOne(s: string, run: nat)
    requires s != []
    ensures EscapeRest(s, run)
         == (if s[0] == QUOTE then Slashes(run) + [BACKSLASH] + [s[0]] else [s[0]])
            + EscapeRest(s[1..], if s[0] == BACKSLASH then run + 1 else 0)
  {
    if s[0] == QUOTE {
      assert [BACKSLASH, QUOTE] == [BACKSLASH] + [QUOTE];
      Assoc(Slashes(run), [BACKSLASH], [QUOTE]);
    }
  }

  /** What one turn of the loop writes for `str[i]`. */
  lemma EscapeStep(str: string, i: nat, before: string, all: string)
    requires i < |str| && before + EscapeRest(str[i..], RunBefore(str, i)) == all
    ensures str[i] == QUOTE ==>
      before + Slashes(RunBefore(str, i)) + [BACKSLASH] + [str[i]]
      + EscapeRest(str[i + 1..], RunBefore(str, i + 1)) == all
    ensures str[i] != QUOTE ==> before + [str[i]] + EscapeRest(str[i + 1..], RunBefore(str, i + 1)) == all
    ensures |before| + (if str[i] == QUOTE then RunBefore(str, i) + 2 else 1) <= |all|
  {
    hide EscapeRest;
    var rest := EscapeRest(str[i + 1..], RunBefore(str, i + 1));
    assert str[i..][1..] == str[i + 1..] && str[i..][0] == str[i];
    EscapeOne(str[i..], RunBefore(str, i));
    if str[i] == QUOTE {
      var run := Slashes(RunBefore(str, i));
      Assoc(before, run + [BACKSLASH] + [str[i]], rest);
      Assoc(before, run + [BACKSLASH], [str[i]]);
      Assoc(before, run, [BACKSLASH]);
    } else {
      Assoc(before, [str[i]], rest);
    }
  }

  lemma EscapeEnd(run: nat)
    ensures EscapeRest([], run) == Slashes(run)
  {
  }

  /** Never writes past 2 * len + 3 characters, the terminator included. */
  method Escape(str: string) returns (out: array<char>, length: nat)
    ensures fresh(out) && out.Length == 2 * |str| + 3
    ensures length <= out.Length
    ensures out[..length] == Escaped(str) + ['\0']
  {
    out := new char[2 * |str| + 3](_ => '\0');
    out[0] := QUOTE;
    var ptr := 1;
    var i := 0;
    ghost var all := [QUOTE] + EscapeRest(str, 0);
    EscapeRestLength(str, 0);
    assert out[..ptr] == [QUOTE] && str[0..] == str;
    hide EscapeRest, Slashes;
    while i < |str|
      invariant i <= |str| && 0 < ptr <= |all|
      invariant out[..ptr] + EscapeRest(str[i..], RunBefore(str, i)) == all
    {
      EscapeStep(str, i, out[..ptr], all);
      if str[i] == QUOTE {
        ptr := CopyRun(str, i, out, ptr);
        ptr := Append(out, ptr, BACKSLASH);
      }
      ptr := Append(out, ptr, str[i]);
      i := i + 1;
    }
    EscapeEnd(RunBefore(str, i));
    ptr := CopyRun(str, i, out, ptr);
    ptr := Append(out, ptr, QUOTE);
    length := Append(out, ptr, '\0');
  }

  // ----- How the arguments are read back -----

  predicate White(c: char) {
    c == ' ' || c == '\t'
  }

  /** The length of the run of backslashes that starts `s`. */
  function Run(s: string): (r: nat)
    ensures r <= |s|
    ensures forall k :: 0 <= k < r ==> s[k] == BACKSLASH
    ensures r < |s| ==> s[r] != BACKSLASH
  {
    if s != [] && s[0] == BACKSLASH then 1 + Run(s[1..]) else 0
  }

  datatype Read = Read(arg: string, rest: string)

  function Put(front: string, r: Read): Read {
    Read(front + r.arg, r.rest)
  }

  /** Reads one argument: 2n backslashes and a quote are n backslashes and a delimiter, one more escapes the quote. */
  function ReadArg(s: string, quoted: bool): (r: Read)
    ensures |r.rest| <= |s|
    ensures s != [] && (quoted || !White(s[0])) ==> |r.rest| < |s|
    decreases |s|
  {
    if s == [] then Read([], [])
    else if s[0] == BACKSLASH then
      var n := Run(s);
      if n < |s| && s[n] == QUOTE then
        if n % 2 == 1 then Put(Slashes(n / 2) + [QUOTE], ReadArg(s[n + 1..], quoted))
        else Put(Slashes(n / 2), ReadArg(s[n..], quoted))
      else Put(Slashes(n), ReadArg(s[n..], quoted))
    else if s[0] == QUOTE then
      if quoted && |s| > 1 && s[1] == QUOTE then Put([QUOTE], ReadArg(s[2..], quoted))
      else ReadArg(s[1..], !quoted)
    else if !quoted && White(s[0]) then Read([], s)
    else Put([s[0]], ReadArg(s[1..], quoted))
  }

  function ReadArgs(s: string): seq<string>
    decreases |s|
  {
    if s == [] then []
    else if White(s[0]) then ReadArgs(s[1..])
    else
      var r := ReadArg(s, false);
      [r.arg] + ReadArgs(r.rest)
  }

  function JoinWithSpaces(args: seq<string>): string {
    if args == [] then []
    else if |args| == 1 then args[0]
    else args[0] + [' '] + JoinWithSpaces(args[1..])
  }

  // ----- Round trip -----

  lemma RunOf(n: nat, s: string)
    requires s != [] ==> s[0] != BACKSLASH
    ensures Run(Slashes(n) + s) == n
  {
    var t := Slashes(n) + s;
    assert forall k :: 0 <= k < n ==> t[k] == BACKSLASH;
    assert n < |t| ==> t[n] == s[0];
  }

  /** Where a run of backslashes ends. */
  lemma RunEnds(n: nat, c: char, rest: string)
    requires c != BACKSLASH
    ensures var s := Slashes(n) + [c] + rest;
      && (n > 0 ==> s[0] == BACKSLASH) && Run(s) == n && s[n] == c
      && s[n..] == [c] + rest && s[n + 1..] == rest
  {
    hide Run;
    Assoc(Slashes(n), [c], rest);
    RunOf(n, [c] + rest);
  }

  lemma ReadEvenRun(n: nat, rest: string, quoted: bool)
    ensures ReadArg(Slashes(2 * n) + [QUOTE] + rest, quoted) == Put(Slashes(n), ReadArg([QUOTE] + rest, quoted))
  {
    hide Slashes, Run;
    assert 2 * n % 2 == 0 && 2 * n / 2 == n;
    RunEnds(2 * n, QUOTE, rest);
    if n == 0 {
      ReadNoRun(rest, quoted);
    }
  }

  lemma ReadNoRun(rest: string, quoted: bool)
    ensures ReadArg(Slashes(0) + [QUOTE] + rest, quoted) == Put(Slashes(0), ReadArg([QUOTE] + rest, quoted))
  {
    hide ReadArg;
    assert Slashes(0) + [QUOTE] + rest == [QUOTE] + rest;
    PutNothing(ReadArg([QUOTE] + rest, quoted));
  }

  lemma PutNothing(r: Read)
    ensures Put(Slashes(0), r) == r
  {
  }

  lemma ReadOddRun(n: nat, rest: string, quoted: bool)
    ensures ReadArg(Slashes(2 * n + 1) + [QUOTE] + rest, quoted)
         == Put(Slashes(n) + [QUOTE], ReadArg(rest, quoted))
  {
    hide Slashes, Run;
    assert (2 * n + 1) % 2 == 1 && (2 * n + 1) / 2 == n;
    RunEnds(2 * n + 1, QUOTE, rest);
  }

  lemma ReadPlain(c: char, rest: string)
    requires c != BACKSLASH && c != QUOTE
    ensures ReadArg([c] + rest, true) == Put([c], ReadArg(rest, true))
  {
    assert ([c] + rest)[1..] == rest;
  }

  lemma ReadPlainRun(n: nat, c: char, rest: string)
    requires c != BACKSLASH && c != QUOTE
    ensures ReadArg(Slashes(n) + [c] + rest, true) == Put(Slashes(n) + [c], ReadArg(rest, true))
  {
    hide Slashes, Run;
    RunEnds(n, c, rest);
    ReadPlain(c, rest);
    Assoc(Slashes(n), [c], ReadArg(rest, true).arg);
    if n == 0 {
      PutNothing(ReadArg([c] + rest, true));
    }
  }

  lemma JoinRuns(m: nat, n: nat)
    ensures Slashes(m) + Slashes(n) == Slashes(m + n)
  {
  }

  /** The text after `run` backslashes of an escaped string are written. */
  ghost function Pending(s: string, run: nat, rest: string): string {
    Slashes(run) + EscapeRest(s, run) + [QUOTE] + rest
  }

  lemma PendingEnd(run: nat, rest: string)
    ensures Pending([], run, rest) == Slashes(2 * run) + [QUOTE] + rest
  {
    JoinRuns(run, run);
  }

  lemma PendingSlash(s: string, run: nat, rest: string)
    requires s != [] && s[0] == BACKSLASH
    ensures Pending(s, run, rest) == Pending(s[1..], run + 1, rest)
    ensures Slashes(run + 1) + s[1..] == Slashes(run) + s
  {
    OneMoreSlash(run);
    Assoc(Slashes(run), [BACKSLASH], EscapeRest(s[1..], run + 1));
    Assoc(Slashes(run), [BACKSLASH], s[1..]);
    assert s == [BACKSLASH] + s[1..];
  }

  lemma PendingQuote(s: string, run: nat, rest: string)
    requires s != [] && s[0] == QUOTE
    ensures Pending(s, run, rest) == Slashes(2 * run + 1) + [QUOTE] + Pending(s[1..], 0, rest)
  {
    var tail := EscapeRest(s[1..], 0);
    calc {
      Slashes(run) + (Slashes(run) + [BACKSLASH, QUOTE] + tail);
      { Assoc(Slashes(run), Slashes(run) + [BACKSLASH, QUOTE], tail); }
      Slashes(run) + (Slashes(run) + [BACKSLASH, QUOTE]) + tail;
      { Assoc(Slashes(run), Slashes(run), [BACKSLASH, QUOTE]); JoinRuns(run, run); }
      Slashes(2 * run) + [BACKSLASH, QUOTE] + tail;
      { Assoc(Slashes(2 * run), [BACKSLASH], [QUOTE]); OneMoreSlash(2 * run);
        assert [BACKSLASH, QUOTE] == [BACKSLASH] + [QUOTE]; }
      Slashes(2 * run + 1) + [QUOTE] + tail;
    }
    NoSlashes(tail);
    AssocTail(Slashes(2 * run + 1) + [QUOTE], tail, rest);
  }

  lemma PendingPlain(s: string, run: nat, rest: string)
    requires s != [] && s[0] != QUOTE && s[0] != BACKSLASH
    ensures Pending(s, run, rest) == Slashes(run) + [s[0]] + Pending(s[1..], 0, rest)
  {
    var tail := EscapeRest(s[1..], 0);
    Assoc(Slashes(run), [s[0]], tail);
    NoSlashes(tail);
    AssocTail(Slashes(run) + [s[0]], tail, rest);
  }

  lemma OneMoreSlash(n: nat)
    ensures Slashes(n + 1) == Slashes(n) + [BACKSLASH]
  {
  }

  lemma NoSlashes(s: string)
    ensures Slashes(0) + s == s
  {
  }

  lemma AssocTail(a: string, b: string, rest: string)
    ensures a + b + [QUOTE] + rest == a + (b + [QUOTE] + rest)
  {
  }

  /** After `run` backslashes, the escape of `s` and a closing quote read as those backslashes and `s`. */
  lemma {:induction false} ReadEscapeRest(s: string, run: nat, rest: string)
    requires rest == [] || White(rest[0])
    ensures ReadArg(Pending(s, run, rest), true) == Read(Slashes(run) + s, rest)
  {
    hide ReadArg, Slashes, Pending, EscapeRest;
    if s == [] {
      PendingEnd(run, rest);
      ReadEvenRun(run, rest, true);
      ReadClosing(rest);
      assert Slashes(run) + s == Slashes(run) + [];
    } else if s[0] == BACKSLASH {
      PendingSlash(s, run, rest);
      ReadEscapeRest(s[1..], run + 1, rest);
    } else {
      ReadEscapeRest(s[1..], 0, rest);
      NoSlashes(s[1..]);
      Assoc(Slashes(run), [s[0]], s[1..]);
      assert s == [s[0]] + s[1..];
      if s[0] == QUOTE {
        PendingQuote(s, run, rest);
        ReadOddRun(run, Pending(s[1..], 0, rest), true);
      } else {
        PendingPlain(s, run, rest);
        ReadPlainRun(run, s[0], Pending(s[1..], 0, rest));
      }
    }
  }

  lemma ReadClosing(rest: string)
    requires rest == [] || White(rest[0])
    ensures ReadArg([QUOTE] + rest, true) == Read([], rest)
  {
    assert ([QUOTE] + rest)[1..] == rest;
  }

  /** Any string, escaped, is read as exactly that one argument. */
  lemma EscapedReadsBack(s: string, rest: string)
    requires rest == [] || White(rest[0])
    ensures ReadArg(Escaped(s) + rest, false) == Read(s, rest)
  {
    var text := EscapeRest(s, 0);
    ReadEscapeRest(s, 0, rest);
    NoSlashes(s);
    NoSlashes(text);
    AssocTail([QUOTE], text, rest);
    ReadOpening(text + [QUOTE] + rest);
  }

  lemma ReadOpening(text: string)
    ensures ReadArg([QUOTE] + text, false) == ReadArg(text, true)
  {
    assert ([QUOTE] + text)[1..] == text;
  }

  function EscapeAll(args: seq<string>): seq<string> {
    seq(|args|, i requires 0 <= i < |args| => Escaped(args[i]))
  }

  /** Any list of arguments, escaped and joined with spaces, is read back as that list. */
  lemma {:induction false} EscapedListReadsBack(args: seq<string>)
    ensures ReadArgs(JoinWithSpaces(EscapeAll(args))) == args
  {
    if args != [] {
      var head, tail := args[0], args[1..];
      assert EscapeAll(args)[1..] == EscapeAll(tail);
      EscapedListReadsBack(tail);
      var rest := if tail == [] then [] else [' '] + JoinWithSpaces(EscapeAll(tail));
      assert JoinWithSpaces(EscapeAll(args)) == Escaped(head) + rest;
      EscapedReadsBack(head, rest);
      if tail != [] {
        assert rest[1..] == JoinWithSpaces(EscapeAll(tail));
      }
      assert [head] + tail == args;
    }
  }

  // ----- The program name -----

  /** Argument 0 is read by simpler rules: quotes are dropped, and a backslash is an ordinary character. */
  function ReadProgram(s: string, quoted: bool): Read {
    if s == [] || (White(s[0]) && !quoted) then Read([], s)
    else if s[0] == QUOTE then ReadProgram(s[1..], !quoted)
    else Put([s[0]], ReadProgram(s[1..], quoted))
  }

  function ReadCommand(line: string): seq<string> {
    var r := ReadProgram(line, false);
    [r.arg] + ReadArgs(r.rest)
  }

  lemma {:induction false} ProgramHasNoQuote(s: string, quoted: bool)
    ensures QUOTE !in ReadProgram(s, quoted).arg
  {
    if s == [] || (White(s[0]) && !quoted) {
    } else if s[0] == QUOTE {
      ProgramHasNoQuote(s[1..], !quoted);
    } else {
      ProgramHasNoQuote(s[1..], quoted);
    }
  }

  lemma {:induction false} ReadQuotedProgram(text: string, rest: string)
    requires QUOTE !in text && (rest == [] || White(rest[0]))
    ensures ReadProgram(text + ([QUOTE] + rest), true) == Read(text, rest)
  {
    var s := text + ([QUOTE] + rest);
    if text == [] {
      assert s == [QUOTE] + rest && s[1..] == rest;
    } else {
      ReadQuotedProgram(text[1..], rest);
      assert s[1..] == text[1..] + ([QUOTE] + rest) && s[0] == text[0] && text == [text[0]] + text[1..];
    }
  }

  /** Escaping writes a text without quotes as it is exactly when no backslash would stand before the last quote. */
  lemma {:induction false} EscapeIsPlainIff(s: string, run: nat)
    requires QUOTE !in s
    ensures QUOTE !in EscapeRest(s, run)
    ensures EscapeRest(s, run) == s <==> if s == [] then run == 0 else s[|s| - 1] != BACKSLASH
  {
    if s != [] {
      var run' := if s[0] == BACKSLASH then run + 1 else 0;
      EscapeIsPlainIff(s[1..], run');
      var more := EscapeRest(s[1..], run');
      assert s == [s[0]] + s[1..] && ([s[0]] + more)[1..] == more;
    }
  }

  /** A program's own name survives exactly when it has no quote and no backslash at its end. */
  lemma ProgramReadsBackIff(s: string, rest: string)
    requires rest == [] || White(rest[0])
    ensures var r := ReadProgram(Escaped(s) + rest, false);
      var plain := QUOTE !in s && (s == [] || s[|s| - 1] != BACKSLASH);
      (plain ==> r == Read(s, rest)) && (r.arg == s ==> plain)
  {
    hide EscapeRest;
    var text := EscapeRest(s, 0);
    ProgramHasNoQuote(Escaped(s) + rest, false);
    if QUOTE !in s {
      EscapeIsPlainIff(s, 0);
      var line := Escaped(s) + rest;
      assert line[1..] == text + ([QUOTE] + rest) && line[0] == QUOTE;
      ReadQuotedProgram(text, rest);
    }
  }

  /** A whole command line reads back exactly when the program's name survives; the arguments always do. */
  lemma CommandReadsBackIff(args: seq<string>)
    requires args != []
    ensures ReadCommand(JoinWithSpaces(EscapeAll(args))) == args
       <==> QUOTE !in args[0] && (args[0] == [] || args[0][|args[0]| - 1] != BACKSLASH)
  {
    hide ReadProgram, Escaped, ReadArgs;
    var head, tail := args[0], args[1..];
    assert EscapeAll(args)[1..] == EscapeAll(tail);
    EscapedListReadsBack(tail);
    var line := JoinWithSpaces(EscapeAll(tail));
    var rest := if tail == [] then [] else [' '] + line;
    assert JoinWithSpaces(EscapeAll(args)) == Escaped(head) + rest;
    ProgramReadsBackIff(head, rest);
    SpaceSkipped(line);
    assert args == [head] + tail;
  }

  lemma SpaceSkipped(line: string)
    ensures ReadArgs([' '] + line) == ReadArgs(line) && ReadArgs([]) == []
  {
    assert ([' '] + line)[1..] == line;
  }
}
