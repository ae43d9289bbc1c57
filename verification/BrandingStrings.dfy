/** Renaming the ids of branding strings, and keeping the rest of the file as it was. */
module BrandingStrings {
  import opened ByteStrings
  import opened Scanning
  import opened Wrappers

  datatype Kind = Fluent | Properties

  datatype Chunk = Chunk(text: string, isId: bool)

  // ----- Ids -----

  predicate IsLetter(c: char) {
    'a' <= c <= 'z' || 'A' <= c <= 'Z'
  }

  predicate IsIdChar(c: char) {
    IsLetter(c) || '0' <= c <= '9' || c == '_' || c == '-'
  }

  predicate IsBlank(c: char) {
    c == ' '
  }

  predicate IsSpace(c: char) {
    c == ' ' || '\t' <= c <= '\r'
  }

  predicate IsKeyChar(c: char) {
    c != ':' && c != '=' && !IsSpace(c)
  }

  /** How many characters an id has before the letter it must have. */
  function Dash(t: string): nat {
    if "-" <= t then 1 else 0
  }

  /** Blanks, and then an equals sign. */
  predicate Assigns(w: string) {
    var n := Span(w, IsBlank);
    n < |w| && w[n] == '='
  }

  /** `-?[a-zA-Z][a-zA-Z0-9_-]* *=` at the start of `t`: where the id begins and ends. */
  function FluentId(t: string): (r: Option<(nat, nat)>)
    ensures r.Some? ==> r.value.0 == 0 < r.value.1 <= |t|
  {
    var a := Dash(t);
    if a >= |t| || !IsLetter(t[a]) then None
    else
      var n := a + 1 + Span(t[a + 1..], IsIdChar);
      if Assigns(t[n..]) then Some((0, n)) else None
  }

  /** `\s*[^!#:=\s][^:=\s]*` at the start of `t`. */
  function PropertyId(t: string): (r: Option<(nat, nat)>)
    ensures r.Some? ==> r.value.0 < r.value.1 <= |t|
  {
    var a := Span(t, IsSpace);
    if a >= |t| || !IsKeyChar(t[a]) || t[a] == '!' || t[a] == '#' then None
    else Some((a, a + 1 + Span(t[a + 1..], IsKeyChar)))
  }

  function IdIn(kind: Kind, t: string): (r: Option<(nat, nat)>)
    ensures r.Some? ==> r.value.0 < r.value.1 <= |t|
  {
    if kind == Fluent then FluentId(t) else PropertyId(t)
  }

  // ----- Searching -----

  /** Where `^` matches when lines are looked at one by one. */
  predicate LineStart(s: string, i: nat)
    requires i <= |s|
  {
    i == 0 || s[i - 1] == '\n'
  }

  /** `regex.search` from position `i`: the leftmost match, as the bounds of the id. */
  function Search(kind: Kind, s: string, i: nat): (r: Option<(nat, nat)>)
    requires i <= |s|
    ensures r.Some? ==> i <= r.value.0 < r.value.1 <= |s|
    decreases |s| - i
  {
    if LineStart(s, i) && IdIn(kind, s[i..]).Some? then
      var id := IdIn(kind, s[i..]).value;
      Some((i + id.0, i + id.1))
    else if i == |s| then None
    else Search(kind, s, i + 1)
  }

  // ----- Parsing -----

  function Parse(kind: Kind, s: string): seq<Chunk>
    decreases |s|
  {
    match Search(kind, s, 0)
    case None => [Chunk(s, false)]
    case Some((a, b)) => [Chunk(s[..a], false), Chunk(s[a..b], true)] + Parse(kind, s[b..])
  }

  /** `parse_ids`: what is left after an id is searched as a string of its own. */
  method ParseIds(kind: Kind, text: string) returns (chunks: seq<Chunk>)
    ensures chunks == Parse(kind, text)
  {
    var rest := text;
    chunks := [];
    while true
      invariant chunks + Parse(kind, rest) == Parse(kind, text)
      decreases |rest|
    {
      var found := Search(kind, rest, 0);
      if found.None? {
        chunks := chunks + [Chunk(rest, false)];
        return;
      }
      var (a, b) := found.value;
      Assoc(chunks, [Chunk(rest[..a], false), Chunk(rest[a..b], true)], Parse(kind, rest[b..]));
      chunks := chunks + [Chunk(rest[..a], false), Chunk(rest[a..b], true)];
      rest := rest[b..];
    }
  }

  function Print(chunks: seq<Chunk>): string {
    if chunks == [] then [] else chunks[0].text + Print(chunks[1..])
  }

  lemma PrintTwo(a: Chunk, b: Chunk, rest: seq<Chunk>)
    ensures Print([a, b] + rest) == a.text + (b.text + Print(rest))
  {
    assert ([a, b] + rest)[1..] == [b] + rest;
    assert ([b] + rest)[1..] == rest;
  }

  lemma PrintOne(a: Chunk)
    ensures Print([a]) == a.text
  {
    assert a.text + [] == a.text;
  }

  /** Whatever the text and the file type, the chunks are the text, cut. */
  lemma {:induction false} ParseIsLossless(kind: Kind, s: string)
    ensures Print(Parse(kind, s)) == s
    decreases |s|
  {
    hide Search, Print;
    match Search(kind, s, 0) {
      case None => PrintOne(Chunk(s, false));
      case Some((a, b)) =>
        ParseIsLossless(kind, s[b..]);
        PrintTwo(Chunk(s[..a], false), Chunk(s[a..b], true), Parse(kind, s[b..]));
        assert s == s[..a] + (s[a..b] + s[b..]);
    }
  }

  // ----- Renaming -----

  const UNUSED: string := "_UNUSED"

  /** The first of the ids that the part starts with. */
  function Owner(part: string, ids: seq<string>): Option<string> {
    if ids == [] then None
    else if ids[0] <= part then Some(ids[0])
    else Owner(part, ids[1..])
  }

  function Rename(part: string, ids: seq<string>, suffix: string): string {
    match Owner(part, ids)
    case None => part
    case Some(id) => if part == id + suffix then id else part + UNUSED
  }

  method RenameId(part0: string, renameIds: seq<string>, suffix: string) returns (part: string)
    ensures part == Rename(part0, renameIds, suffix)
  {
    part := part0;
    assert renameIds[0..] == renameIds;
    for i := 0 to |renameIds|
      invariant part == part0 && Owner(part, renameIds) == Owner(part, renameIds[i..])
    {
      var id := renameIds[i];
      assert renameIds[i..][1..] == renameIds[i + 1..];
      if id <= part {
        if part == id + suffix {
          part := id;
        } else {
          part := part + UNUSED;
        }
        return;
      }
    }
  }

  function RenameAll(chunks: seq<Chunk>, ids: seq<string>, suffix: string): seq<Chunk> {
    seq(|chunks|, i requires 0 <= i < |chunks| =>
      if chunks[i].isId then Chunk(Rename(chunks[i].text, ids, suffix), true) else chunks[i])
  }

  /** The whole script: what is printed for a file, or nothing for a file of another type. */
  method FilterFile(name: string, text: string, renameIds: seq<string>, suffix: string) returns (r: Option<string>)
    ensures r == if EndsWith(name, ".ftl") then Some(Print(RenameAll(Parse(Fluent, text), renameIds, suffix)))
      else if EndsWith(name, ".properties") then Some(Print(RenameAll(Parse(Properties, text), renameIds, suffix)))
      else None
  {
    var kind := KindOf(name);
    if kind.None? {
      return None;
    }
    var chunks := ParseIds(kind.value, text);
    ghost var renamed := RenameAll(chunks, renameIds, suffix);
    var output := "";
    assert renamed[0..] == renamed && "" + Print(renamed) == Print(renamed);
    for i := 0 to |chunks|
      invariant output + Print(renamed[i..]) == Print(renamed)
    {
      var part := chunks[i].text;
      if chunks[i].isId {
        part := RenameId(part, renameIds, suffix);
      }
      assert renamed[i..][1..] == renamed[i + 1..];
      Assoc(output, part, Print(renamed[i + 1..]));
      output := output + part;
    }
    assert renamed[|chunks|..] == [] && output + [] == output;
    return Some(output);
  }

  function KindOf(name: string): Option<Kind> {
    if EndsWith(name, ".ftl") then Some(Fluent)
    else if EndsWith(name, ".properties") then Some(Properties)
    else None
  }
}
