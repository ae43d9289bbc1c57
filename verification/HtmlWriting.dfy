/** Writing the body of the manual, and reading it back. */
module HtmlWriting {
  import opened ByteStrings
  import opened HtmlReading
  import opened Wrappers

  /** An attribute, which may have no value. */
  datatype Attribute = Attribute(name: string, value: Option<string>)

  /** What is written to the body; void elements are written self-closed. */
  datatype Piece =
    | StartPiece(tag: string, attrs: seq<Attribute>, void: bool)
    | EndPiece(tag: string)
    | TextPiece(text: string)

  /** `html.escape` of one character. */
  function EscapeChar(c: char, quote: bool): string {
    if c == '&' then "&amp;"
    else if c == '<' then "&lt;"
    else if c == '>' then "&gt;"
    else if quote && c == '"' then "&quot;"
    else if quote && c == '\'' then "&#x27;"
    else [c]
  }

  function Escape(s: string, quote: bool): string {
    if s == [] then [] else EscapeChar(s[0], quote) + Escape(s[1..], quote)
  }

  function PrintAttr(a: Attribute): string {
    [' '] + a.name + (if a.value.Some? then "=\"" + Escape(a.value.value, true) + "\"" else "")
  }

  function PrintAttrs(attrs: seq<Attribute>): string {
    if attrs == [] then [] else PrintAttr(attrs[0]) + PrintAttrs(attrs[1..])
  }

  function Print(p: Piece): string {
    match p
    case StartPiece(tag, attrs, void) => "<" + tag + PrintAttrs(attrs) + (if void then " />" else ">")
    case EndPiece(tag) => "</" + tag + ">"
    case TextPiece(text) => Escape(text, false)
  }

  function PrintAll(ps: seq<Piece>): string {
    if ps == [] then [] else Print(ps[0]) + PrintAll(ps[1..])
  }

  lemma {:induction false} PrintAllSplit(a: seq<Piece>, b: seq<Piece>)
    ensures PrintAll(a + b) == PrintAll(a) + PrintAll(b)
  {
    hide Print;
    if a == [] {
      assert a + b == b;
    } else {
      PrintAllSplit(a[1..], b);
      assert (a + b)[1..] == a[1..] + b;
      Assoc(Print(a[0]), PrintAll(a[1..]), PrintAll(b));
    }
  }

  lemma PrintSnoc(ps: seq<Piece>, p: Piece)
    ensures PrintAll(ps + [p]) == PrintAll(ps) + Print(p)
  {
    PrintAllSplit(ps, [p]);
    assert Print(p) + [] == Print(p);
  }

  // ----- What the tokenizer should give -----

  /** NUL is not kept in an attribute value. */
  function NoNul(v: string): string {
    seq(|v|, i requires 0 <= i < |v| => if v[i] == '\0' then '\U{FFFD}' else v[i])
  }

  function ReadAttr(a: Attribute): Attr {
    Attr(a.name, if a.value.Some? then NoNul(a.value.value) else "")
  }

  function ReadAttrs(attrs: seq<Attribute>): seq<Attr> {
    if attrs == [] then [] else [ReadAttr(attrs[0])] + ReadAttrs(attrs[1..])
  }

  /** Text joins the text that follows it. */
  function PutText(text: string, ts: seq<Token>): seq<Token> {
    if text == "" then ts
    else if ts != [] && ts[0].Chars? then [Chars(text + ts[0].text)] + ts[1..]
    else [Chars(text)] + ts
  }

  function PutPiece(p: Piece, ts: seq<Token>): seq<Token> {
    match p
    case StartPiece(tag, attrs, void) => [Start(tag, ReadAttrs(attrs), void)] + ts
    case EndPiece(tag) => [End(tag)] + ts
    case TextPiece(text) => PutText(text, ts)
  }

  /** The pieces as tokens, with adjacent texts merged. */
  function Tokens(ps: seq<Piece>): seq<Token> {
    if ps == [] then [] else PutPiece(ps[0], Tokens(ps[1..]))
  }

  // ----- Names and values that can be written -----

  predicate NameChar(c: char) {
    !White(c) && c != '/' && c != '>' && Fold(c) == c
  }

  predicate TagNameOk(name: string) {
    name != [] && Alpha(name[0]) && forall i :: 0 <= i < |name| ==> NameChar(name[i])
  }

  /** Only the first character may be an equals sign. */
  predicate AttrNameOk(name: string) {
    name != [] && NameChar(name[0]) && forall i :: 0 < i < |name| ==> NameChar(name[i]) && name[i] != '='
  }

  /** A name that begins with an equals sign would be read as the value of one without a value. */
  predicate NoneTaken(attrs: seq<Attribute>) {
    forall i, j :: 0 <= i < |attrs| && 0 <= j < |attrs| ==>
      attrs[i].value.Some? || !("=" <= attrs[j].name)
  }

  predicate AttributesOk(attrs: seq<Attribute>) {
    && (forall i :: 0 <= i < |attrs| ==> AttrNameOk(attrs[i].name)) && NoneTaken(attrs)
    && (forall i, j :: 0 <= i < j < |attrs| ==> attrs[i].name != attrs[j].name)
  }

  predicate PieceOk(p: Piece) {
    match p
    case StartPiece(tag, attrs, _) => TagNameOk(tag) && AttributesOk(attrs)
    case EndPiece(tag) => TagNameOk(tag)
    case TextPiece(_) => true
  }

  // ----- Text -----

  lemma TextChar(c: char, rest: string)
    ensures ReadText(EscapeChar(c, false) + rest) == PutChar(c, ReadText(rest))
    ensures EscapeChar(c, false)[0] != '<'
  {
    var e := EscapeChar(c, false);
    assert (e + rest)[|e|..] == rest;
    assert e <= e + rest;
    if c != '&' && c != '<' && c != '>' {
      assert (e + rest)[0] == c;
    } else {
      OneReference(e, rest, c);
    }
  }

  /** Each escape is a reference to the character it stands for. */
  lemma OneReference(e: string, rest: string, c: char)
    requires (e == "&amp;" && c == '&') || (e == "&lt;" && c == '<') || (e == "&gt;" && c == '>')
          || (e == "&quot;" && c == '"') || (e == "&#x27;" && c == '\'')
    ensures CharRef(e + rest) == Some((c, rest)) && (e + rest)[0] == '&'
  {
    var s := e + rest;
    assert e <= s && s[|e|..] == rest && s[0] == e[0] && s[1] == e[1] && s[2] == e[2];
    if e != "&amp;" {
      assert !("&amp;" <= s) by {
        assert "&amp;"[1] == 'a';
      }
    }
    if e != "&lt;" {
      assert !("&lt;" <= s) by {
        assert "&lt;"[1] == 'l';
      }
    }
    if e != "&gt;" {
      assert !("&gt;" <= s) by {
        assert "&gt;"[1] == 'g';
      }
    }
    if e != "&quot;" {
      assert !("&quot;" <= s) by {
        assert "&quot;"[1] == 'q';
      }
    }
  }

  lemma {:induction false} ReadEscapedText(text: string, rest: string)
    ensures var r := ReadText(rest);
      ReadText(Escape(text, false) + rest)
        == if r.None? then None else Some((text + r.value.0, r.value.1))
    ensures text != [] ==> Escape(text, false)[0] != '<' && Escape(text, false) != []
  {
    if text == [] {
      assert Escape(text, false) + rest == rest;
      if ReadText(rest).Some? {
        assert [] + ReadText(rest).value.0 == ReadText(rest).value.0;
      }
    } else {
      hide ReadText, EscapeChar;
      ReadEscapedText(text[1..], rest);
      TextChar(text[0], Escape(text[1..], false) + rest);
      Assoc(EscapeChar(text[0], false), Escape(text[1..], false), rest);
      assert text == [text[0]] + text[1..];
      if ReadText(rest).Some? {
        Assoc([text[0]], text[1..], ReadText(rest).value.0);
      }
    }
  }

  /** Escaped text before some markup is one more run of characters, or joins the one that follows. */
  lemma TokensOfText(text: string, rest: string, foreign: bool)
    requires ReadTokens(rest, foreign).Some?
    ensures ReadTokens(Escape(text, false) + rest, foreign) == Some(PutText(text, ReadTokens(rest, foreign).value))
  {
    ReadEscapedText(text, rest);
    var s := Escape(text, false) + rest;
    if text == [] {
      assert s == rest;
    } else {
      assert s[0] == Escape(text, false)[0];
      if rest == [] || rest[0] == '<' {
        assert ReadText(rest) == Some(([], rest));
        assert text + [] == text;
        TagsAreNotChars(rest, foreign);
      } else {
        TextJoins(text, s, rest, foreign);
      }
    }
  }

  lemma TagsAreNotChars(s: string, foreign: bool)
    requires s == [] || s[0] == '<'
    ensures var r := ReadTokens(s, foreign); r.Some? && r.value != [] ==> !r.value[0].Chars?
  {
  }

  lemma TextJoins(text: string, s: string, rest: string, foreign: bool)
    requires text != [] && s != [] && s[0] != '<' && rest != [] && rest[0] != '<'
    requires ReadTokens(rest, foreign).Some? && ReadText(rest).Some?
    requires ReadText(s) == Some((text + ReadText(rest).value.0, ReadText(rest).value.1))
    ensures ReadTokens(s, foreign) == Some(PutText(text, ReadTokens(rest, foreign).value))
  {
    hide ReadText;
    var (more, after) := ReadText(rest).value;
    var ts := ReadTokens(after, foreign).value;
    assert ReadTokens(rest, foreign) == Some([Chars(more)] + ts);
    assert ReadTokens(s, foreign) == Some([Chars(text + more)] + ts);
    assert ([Chars(more)] + ts)[1..] == ts;
  }

  // ----- Tags -----

  lemma AfterQuotedIsBefore(s: string, attrs: seq<Attr>)
    ensures AfterQuotedValue(s, attrs) == BeforeAttrName(s, attrs)
  {
  }

  /** The next attribute, or the end of the tag, begins; it cannot be taken for a value. */
  predicate Ends(s: string, valued: bool) {
    s != [] && (s[0] == '>' || (s[0] == ' ' && |s| > 1 && !White(s[1]) && (valued || s[1] != '=')))
  }

  lemma AfterNameIsBefore(s: string, name: string, attrs: seq<Attr>)
    requires Ends(s, false)
    ensures AttrName(s, name, attrs) == BeforeAttrName(s, Add(attrs, name, ""))
  {
    hide Add;
    if s[0] == ' ' {
      var t := s[1..];
      assert t[0] == s[1];
      assert AttrName(s, name, attrs) == AfterAttrName(s, name, attrs) == AfterAttrName(t, name, attrs);
      assert BeforeAttrName(s, Add(attrs, name, "")) == BeforeAttrName(t, Add(attrs, name, ""));
    }
  }

  lemma {:induction false} ReadAttrName(name: string, rest: string, got: string, attrs: seq<Attr>)
    requires forall i :: 0 <= i < |name| ==> NameChar(name[i]) && name[i] != '='
    ensures AttrName(name + rest, got, attrs) == AttrName(rest, got + name, attrs)
  {
    if name == [] {
      assert name + rest == rest && got + name == got;
    } else {
      ReadAttrName(name[1..], rest, got + [name[0]], attrs);
      OneAttrNameChar(name[0], name[1..] + rest, got, attrs);
      Assoc([name[0]], name[1..], rest);
      Assoc(got, [name[0]], name[1..]);
      assert name == [name[0]] + name[1..];
    }
  }

  lemma OneAttrNameChar(c: char, rest: string, got: string, attrs: seq<Attr>)
    requires NameChar(c) && c != '='
    ensures AttrName([c] + rest, got, attrs) == AttrName(rest, got + [c], attrs)
  {
    assert ([c] + rest)[1..] == rest;
  }

  lemma {:induction false} ReadTagName(name: string, rest: string, got: string)
    requires forall i :: 0 <= i < |name| ==> NameChar(name[i])
    requires rest != [] && (White(rest[0]) || rest[0] == '>')
    ensures TagName(name + rest, got)
      == match BeforeAttrName(rest, []) case None => None case Some(tail) => Some((got + name, tail))
  {
    hide BeforeAttrName;
    if name == [] {
      assert name + rest == rest && got + name == got;
    } else {
      ReadTagName(name[1..], rest, got + [name[0]]);
      assert (name + rest)[1..] == name[1..] + rest;
      Assoc(got, [name[0]], name[1..]);
      assert name == [name[0]] + name[1..];
    }
  }

  lemma ValueChar(c: char, rest: string, name: string, got: string, attrs: seq<Attr>)
    ensures QuotedValue(EscapeChar(c, true) + rest, name, got, attrs)
         == QuotedValue(rest, name, got + [if c == '\0' then '\U{FFFD}' else c], attrs)
  {
    hide AfterQuotedValue, Add;
    var e := EscapeChar(c, true);
    if e == [c] {
      assert (e + rest)[1..] == rest;
    } else {
      OneReference(e, rest, c);
    }
  }

  lemma {:induction false} ReadQuotedValue(v: string, rest: string, name: string, got: string, attrs: seq<Attr>)
    ensures QuotedValue(Escape(v, true) + (['"'] + rest), name, got, attrs)
         == BeforeAttrName(rest, Add(attrs, name, got + NoNul(v)))
  {
    hide BeforeAttrName, AfterQuotedValue, Add, EscapeChar;
    if v == [] {
      assert Escape(v, true) + (['"'] + rest) == ['"'] + rest;
      assert (['"'] + rest)[1..] == rest && got + NoNul(v) == got;
      AfterQuotedIsBefore(rest, Add(attrs, name, got));
    } else {
      hide QuotedValue;
      var c := if v[0] == '\0' then '\U{FFFD}' else v[0];
      ReadQuotedValue(v[1..], rest, name, got + [c], attrs);
      ValueChar(v[0], Escape(v[1..], true) + (['"'] + rest), name, got, attrs);
      Assoc(EscapeChar(v[0], true), Escape(v[1..], true), ['"'] + rest);
      Assoc(got, [c], NoNul(v[1..]));
      assert NoNul(v) == [c] + NoNul(v[1..]);
    }
  }

  /** An attribute is read and added, whatever markup follows. */
  lemma ReadOneAttr(a: Attribute, rest: string, attrs: seq<Attr>)
    requires AttrNameOk(a.name) && Ends(rest, a.value.Some?)
    ensures BeforeAttrName(PrintAttr(a) + rest, attrs)
         == BeforeAttrName(rest, Add(attrs, ReadAttr(a).name, ReadAttr(a).value))
    ensures Ends(PrintAttr(a) + rest, "=" <= a.name)
  {
    hide Add, Escape, NoNul, BeforeAttrName, AttrName;
    var value := if a.value.Some? then "=\"" + Escape(a.value.value, true) + "\"" else "";
    var s := PrintAttr(a) + rest;
    var tail := value + rest;
    assert s == [' '] + (a.name + tail);
    assert s[1] == a.name[0] && a.name == [a.name[0]] + a.name[1..];
    StartsName(s, a.name, tail, attrs);
    ReadAttrName(a.name[1..], tail, [a.name[0]], attrs);
    if a.value.Some? {
      assert tail == "=\"" + (Escape(a.value.value, true) + (['"'] + rest));
      ReadValue(a.name, a.value.value, tail, rest, attrs);
    } else {
      assert tail == rest;
      AfterNameIsBefore(rest, a.name, attrs);
    }
  }

  lemma ReadValue(name: string, v: string, tail: string, rest: string, attrs: seq<Attr>)
    requires tail == "=\"" + (Escape(v, true) + (['"'] + rest))
    ensures AttrName(tail, name, attrs) == BeforeAttrName(rest, Add(attrs, name, NoNul(v)))
  {
    hide Add, Escape, NoNul, BeforeAttrName, AttrName, QuotedValue;
    var after := Escape(v, true) + (['"'] + rest);
    assert tail[0] == '=' && tail[1] == '"' && tail[1..] == "\"" + after;
    assert tail[1..][1..] == after;
    ReadsValue(tail, name, after, attrs);
    ReadQuotedValue(v, rest, name, "", attrs);
    assert "" + NoNul(v) == NoNul(v);
  }

  lemma StartsName(s: string, name: string, tail: string, attrs: seq<Attr>)
    requires AttrNameOk(name) && s == [' '] + (name + tail)
    ensures BeforeAttrName(s, attrs) == AttrName(name[1..] + tail, [name[0]], attrs)
  {
    hide AttrName;
    assert s[1..] == name + tail;
    assert (name + tail)[1..] == name[1..] + tail;
  }

  lemma ReadsValue(tail: string, name: string, rest: string, attrs: seq<Attr>)
    requires |tail| > 1 && tail[0] == '=' && tail[1] == '"' && tail[1..][1..] == rest
    ensures AttrName(tail, name, attrs) == QuotedValue(rest, name, "", attrs)
  {
    hide QuotedValue;
  }

  lemma {:induction false} ReadAllAttrs(attrs: seq<Attribute>, done: seq<Attr>, close: string, rest: string)
    requires close == ">" || close == " />"
    requires AttributesOk(attrs)
    requires forall i, j :: 0 <= i < |attrs| && 0 <= j < |done| ==> attrs[i].name != done[j].name
    ensures BeforeAttrName(PrintAttrs(attrs) + (close + rest), done)
         == Some(Tail(done + ReadAttrs(attrs), close == " />", rest))
    ensures Ends(PrintAttrs(attrs) + (close + rest), attrs != [] && "=" <= attrs[0].name)
  {
    var end := close + rest;
    if attrs == [] {
      assert PrintAttrs(attrs) + end == end && done + ReadAttrs(attrs) == done;
      ReadClose(done, close, rest);
    } else {
      hide BeforeAttrName, PrintAttr;
      var a, more := attrs[0], attrs[1..];
      var done' := done + [ReadAttr(a)];
      assert forall i :: 0 <= i < |more| ==> more[i] == attrs[i + 1];
      assert Add(done, ReadAttr(a).name, ReadAttr(a).value) == done';
      ReadAllAttrs(more, done', close, rest);
      ReadOneAttr(a, PrintAttrs(more) + end, done);
      Assoc(PrintAttr(a), PrintAttrs(more), end);
      Assoc(done, [ReadAttr(a)], ReadAttrs(more));
    }
  }

  lemma ReadClose(done: seq<Attr>, close: string, rest: string)
    requires close == ">" || close == " />"
    ensures BeforeAttrName(close + rest, done) == Some(Tail(done, close == " />", rest)) && Ends(close + rest, false)
  {
    var s := close + rest;
    if close == ">" {
      assert s[0] == '>' && s[1..] == rest;
    } else {
      var t := s[1..];
      assert s[0] == ' ' && t[0] == '/' && t[1..][0] == '>' && t[1..][1..] == rest;
      assert BeforeAttrName(s, done) == BeforeAttrName(t, done) == SelfClosing(t[1..], done);
    }
  }

  lemma ReadStartTag(tag: string, attrs: seq<Attribute>, void: bool, rest: string)
    requires TagNameOk(tag) && AttributesOk(attrs)
    ensures ReadTag(Print(StartPiece(tag, attrs, void)) + rest) == Some((Start(tag, ReadAttrs(attrs), void), rest))
    ensures (Print(StartPiece(tag, attrs, void)) + rest)[0] == '<'
  {
    hide BeforeAttrName, TagName, PrintAttrs, ReadAttrs;
    var close := if void then " />" else ">";
    var tail := PrintAttrs(attrs) + (close + rest);
    var s := Print(StartPiece(tag, attrs, void)) + rest;
    TagSplit(tag, PrintAttrs(attrs), close, rest);
    ReadAllAttrs(attrs, [], close, rest);
    assert [] + ReadAttrs(attrs) == ReadAttrs(attrs);
    ReadTagName(tag, tail, []);
    assert [] + tag == tag;
  }

  lemma TagSplit(tag: string, attrs: string, close: string, rest: string)
    requires tag != []
    ensures var s := "<" + tag + attrs + close + rest;
      |s| >= 2 && s[0] == '<' && s[1] == tag[0] && s[1..] == tag + (attrs + (close + rest))
  {
    var s := "<" + tag + attrs + close + rest;
    Assoc("<" + tag + attrs, close, rest);
    Assoc("<" + tag, attrs, close + rest);
    Assoc("<", tag, attrs + (close + rest));
    assert s == "<" + (tag + (attrs + (close + rest)));
  }

  lemma ReadEndTag(tag: string, rest: string)
    requires TagNameOk(tag)
    ensures ReadTag(Print(EndPiece(tag)) + rest) == Some((End(tag), rest))
    ensures (Print(EndPiece(tag)) + rest)[0] == '<'
  {
    hide BeforeAttrName, TagName;
    var s := Print(EndPiece(tag)) + rest;
    assert s == "</" + (tag + (">" + rest));
    assert s[2..] == tag + (">" + rest) && s[1] == '/' && s[2] == tag[0];
    ReadClose([], ">", rest);
    ReadTagName(tag, ">" + rest, []);
    assert [] + tag == tag;
  }

  // ----- Elements whose contents are read in another state -----

  /** Where a list of pieces stands: among elements, or in one that holds only text. */
  datatype Place = Outside(foreign: bool) | In(tag: string, foreign: bool)

  function OnStart(at: Place, tag: string): Option<Place> {
    if at.In? then None
    else if !Switches(tag) then Some(Outside(at.foreign || tag in FOREIGN))
    else if at.foreign || tag in UNREAD then None
    else Some(In(tag, at.foreign))
  }

  function OnEnd(at: Place, tag: string): Option<Place> {
    if at.Outside? then Some(at) else if tag == at.tag then Some(Outside(at.foreign)) else None
  }

  function OnPiece(at: Place, p: Piece): Option<Place> {
    match p
    case StartPiece(tag, _, _) => OnStart(at, tag)
    case EndPiece(tag) => OnEnd(at, tag)
    case TextPiece(_) => Some(at)
  }

  /** Where the pieces lead from a place; nowhere if an element that holds only text holds another. */
  function Lead(at: Place, ps: seq<Piece>): Option<Place>
    decreases |ps|
  {
    if ps == [] then Some(at)
    else
      match OnPiece(at, ps[0])
      case None => None
      case Some(next) => Lead(next, ps[1..])
  }

  predicate Flat(at: Place, ps: seq<Piece>) {
    Lead(at, ps).Some? && Lead(at, ps).value.Outside?
  }

  /** The text up to the end tag, and the pieces from there on. */
  function Contents(ps: seq<Piece>): (string, seq<Piece>) {
    if ps == [] || !ps[0].TextPiece? then ([], ps)
    else
      var (text, rest) := Contents(ps[1..]);
      (ps[0].text + text, rest)
  }

  lemma {:induction false} ContentsShrink(ps: seq<Piece>)
    ensures |Contents(ps).1| <= |ps|
    ensures forall p :: p in Contents(ps).1 ==> p in ps
  {
    if ps != [] {
      ContentsShrink(ps[1..]);
    }
  }

  lemma {:induction false} ContentsEnd(at: Place, ps: seq<Piece>)
    requires at.In? && Flat(at, ps)
    ensures var rest := Contents(ps).1; rest != [] && rest[0] == EndPiece(at.tag) && Flat(Outside(at.foreign), rest)
  {
    if ps != [] && ps[0].TextPiece? {
      ContentsEnd(at, ps[1..]);
    }
  }

  lemma {:induction false} EscapeSplit(a: string, b: string)
    ensures Escape(a + b, false) == Escape(a, false) + Escape(b, false)
  {
    hide EscapeChar;
    if a == [] {
      assert a + b == b;
    } else {
      EscapeSplit(a[1..], b);
      assert (a + b)[1..] == a[1..] + b;
      Assoc(EscapeChar(a[0], false), Escape(a[1..], false), Escape(b, false));
    }
  }

  lemma PutTwice(a: string, b: string, ts: seq<Token>)
    ensures PutText(a, PutText(b, ts)) == PutText(a + b, ts)
  {
    if a == [] {
      assert a + b == b;
    } else if b == [] {
      assert a + b == a;
    } else if ts != [] && ts[0].Chars? {
      Assoc(a, b, ts[0].text);
      assert ([Chars(b + ts[0].text)] + ts[1..])[1..] == ts[1..];
    } else {
      assert ([Chars(b)] + ts)[1..] == ts;
    }
  }

  lemma {:induction false} ContentsPrint(ps: seq<Piece>)
    ensures var (text, rest) := Contents(ps);
      PrintAll(ps) == Escape(text, false) + PrintAll(rest) && Tokens(ps) == PutText(text, Tokens(rest))
  {
    hide Escape;
    if ps == [] || !ps[0].TextPiece? {
      NothingEscaped();
      assert [] + PrintAll(ps) == PrintAll(ps);
    } else {
      var (text, rest) := Contents(ps[1..]);
      ContentsPrint(ps[1..]);
      EscapeSplit(ps[0].text, text);
      Assoc(Escape(ps[0].text, false), Escape(text, false), PrintAll(rest));
      PutTwice(ps[0].text, text, Tokens(rest));
    }
  }

  lemma NothingEscaped()
    ensures Escape([], false) == []
  {
  }

  // ----- What such contents are read as -----

  /** A written character as it is read there. */
  function AsReadChar(c: char, references: bool): string {
    if !references && (c == '&' || c == '<' || c == '>') then EscapeChar(c, false)
    else [if c == '\0' then '\U{FFFD}' else c]
  }

  function AsReadText(text: string, references: bool): string {
    if text == [] then [] else AsReadChar(text[0], references) + AsReadText(text[1..], references)
  }

  predicate Plain(text: string, references: bool) {
    forall i :: 0 <= i < |text| ==>
      text[i] != '\0' && (references || (text[i] != '&' && text[i] != '<' && text[i] != '>'))
  }

  /** Text is read as it was meant exactly when it needs no escapes where they are not undone. */
  lemma {:induction false} AsReadIff(text: string, references: bool)
    ensures |AsReadText(text, references)| >= |text|
    ensures AsReadText(text, references) == text <==> Plain(text, references)
  {
    if text != [] {
      var c, rest := text[0], text[1..];
      var r, more := AsReadChar(c, references), AsReadText(rest, references);
      AsReadIff(rest, references);
      assert text == [c] + rest;
      if |r| == 1 {
        assert [r[0]] + more == r + more && (r + more)[1..] == more;
        PlainCons(c, rest, references);
      } else {
        assert !Plain(text, references);
        assert |r + more| > |text|;
      }
    }
  }

  lemma PlainCons(c: char, rest: string, references: bool)
    ensures Plain([c] + rest, references) <==> Plain([c], references) && Plain(rest, references)
  {
    var all := [c] + rest;
    assert all[0] == c && forall i :: 0 <= i < |rest| ==> rest[i] == all[i + 1];
  }

  function PutFront(front: string, r: Option<(string, string)>): Option<(string, string)> {
    match r
    case None => None
    case Some((text, rest)) => Some((front + text, rest))
  }

  lemma RawChar(c: char, s: string, tag: string, references: bool)
    ensures ReadRaw(EscapeChar(c, false) + s, tag, references)
      == PutFront(AsReadChar(c, references), ReadRaw(s, tag, references))
  {
    hide AtEndTag;
    var e := EscapeChar(c, false);
    if e == [c] {
      NoTagHere(e + s, tag);
      assert (e + s)[0] == c && (e + s)[1..] == s;
    } else if references {
      NoTagHere(e + s, tag);
      OneReference(e, s, c);
    } else {
      RawEscape(e, s, tag);
    }
  }

  lemma NoTagHere(s: string, tag: string)
    requires s != [] && s[0] != '<'
    ensures !AtEndTag(s, tag)
  {
  }

  /** Characters that neither open a tag nor are NUL are read as they stand. */
  lemma {:induction false} RawEscape(e: string, s: string, tag: string)
    requires forall i :: 0 <= i < |e| ==> e[i] != '<' && e[i] != '\0'
    ensures ReadRaw(e + s, tag, false) == PutFront(e, ReadRaw(s, tag, false))
  {
    hide AtEndTag;
    if e == [] {
      assert e + s == s;
      if ReadRaw(s, tag, false).Some? {
        assert [] + ReadRaw(s, tag, false).value.0 == ReadRaw(s, tag, false).value.0;
      }
    } else {
      NoTagHere(e + s, tag);
      RawEscape(e[1..], s, tag);
      assert (e + s)[1..] == e[1..] + s && e == [e[0]] + e[1..];
      if ReadRaw(s, tag, false).Some? {
        Assoc([e[0]], e[1..], ReadRaw(s, tag, false).value.0);
      }
    }
  }

  lemma {:induction false} RawText(text: string, rest: string, tag: string, references: bool)
    requires AtEndTag(rest, tag)
    ensures ReadRaw(Escape(text, false) + rest, tag, references) == Some((AsReadText(text, references), rest))
  {
    hide AtEndTag, AsReadChar, EscapeChar;
    if text == [] {
      assert Escape(text, false) + rest == rest;
    } else {
      RawText(text[1..], rest, tag, references);
      RawChar(text[0], Escape(text[1..], false) + rest, tag, references);
      Assoc(EscapeChar(text[0], false), Escape(text[1..], false), rest);
    }
  }

  lemma EndIsFound(tag: string, rest: string)
    requires TagNameOk(tag)
    ensures AtEndTag(Print(EndPiece(tag)) + rest, tag)
  {
    var s := Print(EndPiece(tag)) + rest;
    assert s == "</" + (tag + (">" + rest));
    assert s[2..|tag| + 2] == tag && s[|tag| + 2] == '>';
    assert FoldAll(tag) == tag;
  }

  // ----- Everything that is written -----

  predicate RawStart(p: Piece) {
    p.StartPiece? && Switches(p.tag)
  }

  /** The pieces as a reader takes them: contents of the elements that switch states as they are read there. */
  function AsRead(ps: seq<Piece>): seq<Piece>
    decreases |ps|
  {
    if ps == [] then []
    else if !RawStart(ps[0]) then [ps[0]] + AsRead(ps[1..])
    else
      ContentsShrink(ps[1..]);
      var (text, rest) := Contents(ps[1..]);
      [ps[0], TextPiece(AsReadText(text, ps[0].tag in RCDATA))] + AsRead(rest)
  }

  /** No such contents hold a character that would be read as another, or as its escape. */
  predicate Survives(ps: seq<Piece>)
    decreases |ps|
  {
    if ps == [] then true
    else if !RawStart(ps[0]) then Survives(ps[1..])
    else
      ContentsShrink(ps[1..]);
      var (text, rest) := Contents(ps[1..]);
      Plain(text, ps[0].tag in RCDATA) && Survives(rest)
  }

  lemma TokensOfRaw(p: Piece, text: string, rest: seq<Piece>)
    requires p.StartPiece?
    ensures Tokens([p, TextPiece(text)] + rest)
         == [Start(p.tag, ReadAttrs(p.attrs), p.void)] + PutText(text, Tokens(rest))
  {
    var ps := [p, TextPiece(text)] + rest;
    assert ps[1..] == [TextPiece(text)] + rest && ps[1..][1..] == rest;
  }

  lemma TokensCons(p: Piece, rest: seq<Piece>)
    ensures Tokens([p] + rest) == PutPiece(p, Tokens(rest))
  {
    assert ([p] + rest)[1..] == rest;
  }

  /** Behind the start tag of an element that holds only text. */
  lemma RawReads(tag: string, ps: seq<Piece>, foreign: bool, ts: seq<Token>)
    requires TagNameOk(tag) && !foreign && Switches(tag) && tag !in UNREAD && Flat(In(tag, foreign), ps)
    requires ReadTokens(PrintAll(Contents(ps).1), foreign) == Some(ts) && ts != [] && !ts[0].Chars?
    ensures ReadContents(PrintAll(ps), tag, foreign)
         == Some(PutText(AsReadText(Contents(ps).0, tag in RCDATA), ts))
  {
    hide ReadTokens, ReadRaw, AtEndTag, Switches, TagNameOk, Escape;
    var (text, rest) := Contents(ps);
    ContentsEnd(In(tag, foreign), ps);
    ContentsPrint(ps);
    EndIsFound(tag, PrintAll(rest[1..]));
    RawText(text, PrintAll(rest), tag, tag in RCDATA);
  }

  lemma FlatTail(at: Place, ps: seq<Piece>)
    requires at.Outside? && Flat(at, ps) && ps != []
    ensures OnPiece(at, ps[0]).Some? && Flat(OnPiece(at, ps[0]).value, ps[1..])
  {
  }

  lemma EndFirst(p: Piece, rest: seq<Piece>)
    requires p.EndPiece?
    ensures AsRead([p] + rest) == [p] + AsRead(rest)
  {
    assert ([p] + rest)[1..] == rest;
  }

  /**
    What is written reads back as the same tags, attributes and text, but for the contents
    of elements that switch states, which are read as `AsRead` says.
  */
  lemma {:induction false} PrintReadsAs(ps: seq<Piece>, foreign: bool)
    requires (forall p :: p in ps ==> PieceOk(p)) && Flat(Outside(foreign), ps)
    ensures ReadTokens(PrintAll(ps), foreign) == Some(Tokens(AsRead(ps)))
    decreases |ps|
  {
    hide ReadTag, Escape, PieceOk, Switches, Contents, ReadContents, AsReadText;
    if ps != [] {
      var at := Outside(foreign);
      FlatTail(at, ps);
      var next, rest := OnPiece(at, ps[0]).value, PrintAll(ps[1..]);
      hide Flat;
      assert PieceOk(ps[0]);
      StartOk(ps[0]);
      if RawStart(ps[0]) {
        var (text, more) := Contents(ps[1..]);
        var tag := ps[0].tag;
        ContentsShrink(ps[1..]);
        ContentsEnd(next, ps[1..]);
        PrintReadsAs(more, foreign);
        EndFirst(more[0], more[1..]);
        assert more == [more[0]] + more[1..];
        TokensCons(more[0], AsRead(more[1..]));
        RawReads(tag, ps[1..], foreign, Tokens(AsRead(more)));
        TokensOfRaw(ps[0], AsReadText(text, tag in RCDATA), AsRead(more));
        ReadStartTag(tag, ps[0].attrs, ps[0].void, rest);
      } else {
        TokensCons(ps[0], AsRead(ps[1..]));
        PrintReadsAs(ps[1..], next.foreign);
        match ps[0] {
          case StartPiece(tag, attrs, void) => ReadStartTag(tag, attrs, void, rest);
          case EndPiece(tag) => ReadEndTag(tag, rest);
          case TextPiece(text) => TokensOfText(text, rest, foreign);
        }
      }
    }
  }

  /** No run of characters is empty at the front. */
  predicate NotEmptyText(ts: seq<Token>) {
    ts != [] && ts[0].Chars? ==> ts[0].text != []
  }

  lemma {:induction false} TokensStart(ps: seq<Piece>)
    ensures NotEmptyText(Tokens(ps))
  {
    if ps != [] {
      TokensStart(ps[1..]);
    }
  }

  lemma PutSame(text: string, ts: seq<Token>, us: seq<Token>)
    requires NotEmptyText(ts) && NotEmptyText(us)
    ensures PutText(text, ts) == PutText(text, us) <==> ts == us
  {
    if text != [] && PutText(text, ts) == PutText(text, us) {
      Unput(text, ts);
      Unput(text, us);
    }
  }

  /** Text put in front can be taken off again. */
  lemma Unput(text: string, ts: seq<Token>)
    requires text != [] && NotEmptyText(ts)
    ensures var r := PutText(text, ts);
      && r != [] && r[0].Chars? && text <= r[0].text
      && ts == (if r[0].text == text then [] else [Chars(r[0].text[|text|..])]) + r[1..]
  {
    if ts != [] && ts[0].Chars? {
      assert (text + ts[0].text)[|text|..] == ts[0].text;
      assert ts == [ts[0]] + ts[1..];
    }
  }

  lemma PutBefore(text: string, text': string, ts: seq<Token>, us: seq<Token>)
    requires ts != [] && !ts[0].Chars? && us != [] && !us[0].Chars?
    ensures PutText(text, ts) == PutText(text', us) <==> text == text' && ts == us
  {
    var r, r' := PutText(text, ts), PutText(text', us);
    if r == r' {
      assert text == [] ==> r[0] == ts[0];
      assert text' == [] ==> r'[0] == us[0];
      assert text != [] ==> r[0] == Chars(text) && r[1..] == ts;
      assert text' != [] ==> r'[0] == Chars(text') && r'[1..] == us;
    }
  }

  /** The reading is the meaning exactly when no contents of such an element need escapes. */
  lemma {:induction false} SurvivesIff(ps: seq<Piece>, foreign: bool)
    requires Flat(Outside(foreign), ps)
    ensures Tokens(AsRead(ps)) == Tokens(ps) <==> Survives(ps)
    decreases |ps|
  {
    hide Switches, Contents, Plain, PutText;
    if ps != [] {
      var at := Outside(foreign);
      FlatTail(at, ps);
      var next := OnPiece(at, ps[0]).value;
      hide Flat;
      assert ps == [ps[0]] + ps[1..];
      if RawStart(ps[0]) {
        var (text, more) := Contents(ps[1..]);
        var references := ps[0].tag in RCDATA;
        ContentsShrink(ps[1..]);
        ContentsEnd(next, ps[1..]);
        ContentsPrint(ps[1..]);
        SurvivesIff(more, foreign);
        AsReadIff(text, references);
        assert more == [more[0]] + more[1..];
        EndFirst(more[0], more[1..]);
        TokensCons(more[0], AsRead(more[1..]));
        TokensCons(more[0], more[1..]);
        TokensOfRaw(ps[0], AsReadText(text, references), AsRead(more));
        TokensCons(ps[0], ps[1..]);
        PutBefore(AsReadText(text, references), text, Tokens(AsRead(more)), Tokens(more));
        SameHead(Start(ps[0].tag, ReadAttrs(ps[0].attrs), ps[0].void),
                 PutText(AsReadText(text, references), Tokens(AsRead(more))), Tokens(ps[1..]));
      } else {
        SurvivesIff(ps[1..], next.foreign);
        TokensCons(ps[0], AsRead(ps[1..]));
        TokensCons(ps[0], ps[1..]);
        var ts, us := Tokens(AsRead(ps[1..])), Tokens(ps[1..]);
        match ps[0] {
          case StartPiece(tag, attrs, void) => SameHead(Start(tag, ReadAttrs(attrs), void), ts, us);
          case EndPiece(tag) => SameHead(End(tag), ts, us);
          case TextPiece(text) =>
            TokensStart(AsRead(ps[1..]));
            TokensStart(ps[1..]);
            PutSame(text, ts, us);
        }
      }
    }
  }

  lemma SameHead(t: Token, ts: seq<Token>, us: seq<Token>)
    ensures [t] + ts == [t] + us <==> ts == us
  {
    assert ([t] + ts)[1..] == ts && ([t] + us)[1..] == us;
  }

  /**
    The printed pieces read back as the same tags, attributes and text exactly when the
    contents of elements read without references hold none of the characters that are
    escaped; and when there are no such elements, always.
  */
  lemma PrintReadsBackIff(ps: seq<Piece>, foreign: bool)
    requires (forall p :: p in ps ==> PieceOk(p)) && Flat(Outside(foreign), ps)
    ensures ReadTokens(PrintAll(ps), foreign) == Some(Tokens(ps)) <==> Survives(ps)
    ensures (forall p :: p in ps ==> !RawStart(p)) ==> Survives(ps)
  {
    hide ReadTokens, PrintAll, Tokens, AsRead, Survives, Flat, PieceOk, RawStart;
    PrintReadsAs(ps, foreign);
    SurvivesIff(ps, foreign);
    if forall p :: p in ps ==> !RawStart(p) {
      NoneSwitch(ps);
    }
  }

  lemma {:induction false} NoneSwitch(ps: seq<Piece>)
    requires forall p :: p in ps ==> !RawStart(p)
    ensures Survives(ps)
  {
    hide RawStart;
    if ps != [] {
      NoneSwitch(ps[1..]);
    }
  }

  /** A style sheet with a child combinator comes back with another text. */
  lemma StyleIsMisread()
    ensures var ps := [StartPiece("style", [], false), TextPiece("a>b"), EndPiece("style")];
      ReadTokens(PrintAll(ps), false) == Some([Start("style", [], false), Chars("a&gt;b"), End("style")])
  {
    hide ReadTokens, PrintAll, AsReadText;
    var style, end := StartPiece("style", [], false), EndPiece("style");
    var ps := [style, TextPiece("a>b"), end];
    assert ps[1..] == [TextPiece("a>b"), end] && ps[1..][1..] == [end] && [end] == [end] + [];
    assert "a>b" + [] == "a>b";
    assert Contents([end]) == ([], [end]) && Contents(ps[1..]) == ("a>b", [end]);
    EndFirst(end, []);
    ReadOneByOne();
    assert AsRead(ps) == [style, TextPiece("a&gt;b")] + [end];
    TokensOfRaw(style, "a&gt;b", [end]);
    TokensCons(end, []);
    assert Tokens([]) == [] && Tokens([end]) == [End("style")] && ReadAttrs([]) == [];
    assert PutText("a&gt;b", [End("style")]) == [Chars("a&gt;b"), End("style")];
    assert Tokens(AsRead(ps)) == [Start("style", [], false), Chars("a&gt;b"), End("style")];
    StyleIsFlat();
    PrintReadsAs(ps, false);
  }

  lemma StyleIsFlat()
    ensures var ps := [StartPiece("style", [], false), TextPiece("a>b"), EndPiece("style")];
      Flat(Outside(false), ps) && forall p :: p in ps ==> PieceOk(p)
  {
    var end := EndPiece("style");
    var ps := [StartPiece("style", [], false), TextPiece("a>b"), end];
    assert ps[1..] == [TextPiece("a>b"), end] && ps[1..][1..] == [end] && [end][1..] == [];
    assert Lead(In("style", false), [end]) == Some(Outside(false));
  }

  lemma ReadOneByOne()
    ensures AsReadText("a>b", false) == "a&gt;b"
  {
    assert "a>b"[1..] == ">b" && ">b"[1..] == "b" && "b"[1..] == "";
  }

  lemma StartOk(p: Piece)
    requires PieceOk(p)
    ensures p.StartPiece? ==> TagNameOk(p.tag) && AttributesOk(p.attrs)
    ensures p.EndPiece? ==> TagNameOk(p.tag)
  {
  }
}
