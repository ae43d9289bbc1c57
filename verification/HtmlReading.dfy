/**
  Reading HTML as the tokenization stage of the WHATWG HTML standard (section 13.2.5)
  does: the data, tag, attribute and character reference states that ordinary element
  markup goes through, and the RAWTEXT and RCDATA states that some elements switch to.
  Markup that leaves these states (comments, declarations, values without double quotes,
  other character references, an end of file inside a tag) is not read.
*/
module HtmlReading {
  import opened Wrappers

  datatype Attr = Attr(name: string, value: string)

  datatype Token =
    | Start(name: string, attrs: seq<Attr>, selfClosing: bool)
    | End(name: string)
    | Chars(text: string)

  predicate White(c: char) {
    c == '\t' || c == '\n' || c == '\U{000C}' || c == ' '
  }

  predicate Alpha(c: char) {
    'a' <= c <= 'z' || 'A' <= c <= 'Z'
  }

  /** A character of a name: upper case is folded, and NUL replaced. */
  function Fold(c: char): char {
    if 'A' <= c <= 'Z' then c - 'A' + 'a' else if c == '\0' then '\U{FFFD}' else c
  }

  /** A character reference at the start of `s`, with what follows it. */
  function CharRef(s: string): Option<(char, string)> {
    if "&amp;" <= s then Some(('&', s[5..]))
    else if "&lt;" <= s then Some(('<', s[4..]))
    else if "&gt;" <= s then Some(('>', s[4..]))
    else if "&quot;" <= s then Some(('"', s[6..]))
    else if "&#x27;" <= s then Some(('\'', s[6..]))
    else None
  }

  // ----- Tags (13.2.5.6 to 13.2.5.8 and 13.2.5.32 to 13.2.5.40) -----

  /** The attributes of a tag, its self-closing flag, and what follows the tag. */
  datatype Tail = Tail(attrs: seq<Attr>, selfClosing: bool, rest: string)

  /** An attribute with the name of an earlier one is dropped. */
  function Add(attrs: seq<Attr>, name: string, value: string): seq<Attr> {
    if exists i :: 0 <= i < |attrs| && attrs[i].name == name then attrs else attrs + [Attr(name, value)]
  }

  function BeforeAttrName(s: string, attrs: seq<Attr>): (r: Option<Tail>)
    ensures r.Some? ==> |r.value.rest| <= |s|
    decreases |s|, 0
  {
    if s == [] then None
    else if White(s[0]) then BeforeAttrName(s[1..], attrs)
    else if s[0] == '>' then Some(Tail(attrs, false, s[1..]))
    else if s[0] == '/' then SelfClosing(s[1..], attrs)
    else AttrName(s[1..], [Fold(s[0])], attrs)
  }

  function AttrName(s: string, name: string, attrs: seq<Attr>): (r: Option<Tail>)
    ensures r.Some? ==> |r.value.rest| <= |s|
    decreases |s|, 1
  {
    if s == [] then None
    else if White(s[0]) || s[0] == '/' || s[0] == '>' then AfterAttrName(s, name, attrs)
    else if s[0] == '=' then BeforeAttrValue(s[1..], name, attrs)
    else AttrName(s[1..], name + [Fold(s[0])], attrs)
  }

  function AfterAttrName(s: string, name: string, attrs: seq<Attr>): (r: Option<Tail>)
    ensures r.Some? ==> |r.value.rest| <= |s|
    decreases |s|, 0
  {
    if s == [] then None
    else if White(s[0]) then AfterAttrName(s[1..], name, attrs)
    else if s[0] == '/' then SelfClosing(s[1..], Add(attrs, name, ""))
    else if s[0] == '=' then BeforeAttrValue(s[1..], name, attrs)
    else if s[0] == '>' then Some(Tail(Add(attrs, name, ""), false, s[1..]))
    else AttrName(s[1..], [Fold(s[0])], Add(attrs, name, ""))
  }

  function BeforeAttrValue(s: string, name: string, attrs: seq<Attr>): (r: Option<Tail>)
    ensures r.Some? ==> |r.value.rest| <= |s|
    decreases |s|, 0
  {
    if s == [] then None
    else if White(s[0]) then BeforeAttrValue(s[1..], name, attrs)
    else if s[0] == '"' then QuotedValue(s[1..], name, "", attrs)
    else if s[0] == '>' then Some(Tail(Add(attrs, name, ""), false, s[1..]))
    else None
  }

  function QuotedValue(s: string, name: string, value: string, attrs: seq<Attr>): (r: Option<Tail>)
    ensures r.Some? ==> |r.value.rest| <= |s|
    decreases |s|, 0
  {
    if s == [] then None
    else if s[0] == '"' then AfterQuotedValue(s[1..], Add(attrs, name, value))
    else if s[0] == '&' then
      match CharRef(s)
      case None => None
      case Some((c, rest)) => QuotedValue(rest, name, value + [c], attrs)
    else QuotedValue(s[1..], name, value + [if s[0] == '\0' then '\U{FFFD}' else s[0]], attrs)
  }

  function AfterQuotedValue(s: string, attrs: seq<Attr>): (r: Option<Tail>)
    ensures r.Some? ==> |r.value.rest| <= |s|
    decreases |s|, 1
  {
    if s == [] then None
    else if White(s[0]) then BeforeAttrName(s[1..], attrs)
    else if s[0] == '/' then SelfClosing(s[1..], attrs)
    else if s[0] == '>' then Some(Tail(attrs, false, s[1..]))
    else BeforeAttrName(s, attrs)
  }

  function SelfClosing(s: string, attrs: seq<Attr>): (r: Option<Tail>)
    ensures r.Some? ==> |r.value.rest| <= |s|
    decreases |s|, 1
  {
    if s == [] then None
    else if s[0] == '>' then Some(Tail(attrs, true, s[1..]))
    else BeforeAttrName(s, attrs)
  }

  /** A tag name and the rest of the tag. */
  function TagName(s: string, name: string): (r: Option<(string, Tail)>)
    ensures r.Some? ==> |r.value.1.rest| <= |s|
  {
    if s == [] then None
    else if White(s[0]) || s[0] == '/' || s[0] == '>' then
      match BeforeAttrName(s, [])
      case None => None
      case Some(tail) => Some((name, tail))
    else TagName(s[1..], name + [Fold(s[0])])
  }

  /** A tag at the start of `s`; an end tag's attributes and flag are ignored. */
  function ReadTag(s: string): (r: Option<(Token, string)>)
    ensures r.Some? ==> |r.value.1| < |s|
  {
    if |s| < 2 || s[0] != '<' then None
    else if s[1] == '/' then
      if |s| < 3 || !Alpha(s[2]) then None
      else
        match TagName(s[2..], [])
        case None => None
        case Some((name, tail)) => Some((End(name), tail.rest))
    else if Alpha(s[1]) then
      match TagName(s[1..], [])
      case None => None
      case Some((name, tail)) => Some((Start(name, tail.attrs, tail.selfClosing), tail.rest))
    else None
  }

  // ----- Text (13.2.5.1) -----

  /** The characters up to the next tag. */
  function ReadText(s: string): (r: Option<(string, string)>)
    ensures r.Some? ==> |r.value.1| <= |s|
    ensures r.Some? && s != [] && s[0] != '<' ==> |r.value.1| < |s|
  {
    if s == [] || s[0] == '<' then Some(([], s))
    else if s[0] == '&' then
      match CharRef(s)
      case None => None
      case Some((c, rest)) => PutChar(c, ReadText(rest))
    else PutChar(s[0], ReadText(s[1..]))
  }

  function PutChar(c: char, r: Option<(string, string)>): Option<(string, string)> {
    match r
    case None => None
    case Some((text, rest)) => Some(([c] + text, rest))
  }

  // ----- Elements read in other states (13.2.5.2, 13.2.5.3 and 13.2.5.9 to 13.2.5.14) -----

  /** Contents that are text, without references (RAWTEXT) or with them (RCDATA), up to the end tag. */
  const RAWTEXT: set<string> := {"style", "xmp", "iframe", "noembed", "noframes"}
  const RCDATA: set<string> := {"textarea", "title"}

  /** Elements whose contents are not read here. */
  const UNREAD: set<string> := {"script", "noscript", "plaintext"}

  /** Inside these the others are ordinary elements; what follows one is read only where that does not matter. */
  const FOREIGN: set<string> := {"svg", "math"}

  predicate Switches(name: string) {
    name in RAWTEXT || name in RCDATA || name in UNREAD
  }

  function FoldAll(s: string): string {
    seq(|s|, i requires 0 <= i < |s| => Fold(s[i]))
  }

  /** The end tag of the element stands here. */
  predicate AtEndTag(s: string, name: string) {
    && |s| > |name| + 2 && s[0] == '<' && s[1] == '/' && FoldAll(s[2..|name| + 2]) == name
    && (White(s[|name| + 2]) || s[|name| + 2] == '/' || s[|name| + 2] == '>')
  }

  /** The contents of such an element, and its end tag with what follows it. */
  function ReadRaw(s: string, name: string, references: bool): (r: Option<(string, string)>)
    ensures r.Some? ==> |r.value.1| <= |s|
  {
    if s == [] || AtEndTag(s, name) then Some(([], s))
    else if references && s[0] == '&' then
      match CharRef(s)
      case None => None
      case Some((c, rest)) => PutChar(c, ReadRaw(rest, name, references))
    else PutChar(if s[0] == '\0' then '\U{FFFD}' else s[0], ReadRaw(s[1..], name, references))
  }

  // ----- Documents -----

  function PutToken(t: Token, r: Option<seq<Token>>): Option<seq<Token>> {
    match r
    case None => None
    case Some(ts) => Some([t] + ts)
  }

  function PutChars(text: string, r: Option<seq<Token>>): Option<seq<Token>> {
    if text == [] then r else PutToken(Chars(text), r)
  }

  /** The tokens of a text; a run of characters is one token. */
  function ReadTokens(s: string, foreign: bool): Option<seq<Token>>
    decreases |s|, 0
  {
    if s == [] then Some([])
    else if s[0] == '<' then
      match ReadTag(s)
      case None => None
      case Some((t, rest)) =>
        if !t.Start? then PutToken(t, ReadTokens(rest, foreign))
        else if !Switches(t.name) then PutToken(t, ReadTokens(rest, foreign || t.name in FOREIGN))
        else PutToken(t, ReadContents(rest, t.name, foreign))
    else
      match ReadText(s)
      case None => None
      case Some((text, rest)) => PutToken(Chars(text), ReadTokens(rest, foreign))
  }

  /** What stands behind the start tag of an element that is read in another state. */
  function ReadContents(s: string, name: string, foreign: bool): Option<seq<Token>>
    decreases |s|, 1
  {
    if foreign || name in UNREAD then None
    else
      match ReadRaw(s, name, name in RCDATA)
      case None => None
      case Some((text, rest)) => PutChars(text, ReadTokens(rest, foreign))
  }
}
