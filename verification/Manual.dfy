/**
  The rewriting of the offline manual, as a function on parser events: what each event
  does to the parser's state, and which documents are accepted.
*/
module Manual {
  import opened ByteStrings
  import opened HtmlWriting
  import opened Wrappers

  datatype Error =
    | HtmlHasParent | SecondHtml | BadLang | BadDir
    | AssetScheme | AssetMissing | AssetClash | NoStyleHref | SrcSet
    | BodyContext | SecondBody | ForbiddenTag | UnmatchedEnd | DuplicateAttr
    | UnexpectedPath | UnexpectedHref | NoHeadingId | NoHeadingPage | NoPageId | NestedPage | DuplicateId
    | BadDeclaration | ProcessingInstruction | UnknownDeclaration
    | NotClosed | NoBody | NoLangOrDir | NoTitle | DanglingHref(href: string)

  const FORBIDDEN: set<string> := {"script", "noscript", "meta", "link", "html", "head", "body"}

  const VOID: set<string> :=
    {"area", "base", "br", "col", "embed", "hr", "img", "input", "link", "meta", "source", "track", "wbr"}

  // ----- The world outside -----

  datatype Url = Url(scheme: string, path: string, fragment: string)

  /**
    What the parser is given: the locale, URL splitting and form quoting as functions, and
    the asset a URL path names, as a path below the top directory.
  */
  datatype Site = Site(
    locale: string, parseUrl: string -> Url, quotePlus: string -> string, locate: string -> Option<string>)

  datatype Event =
    | StartTag(tag: string, pairs: seq<Attribute>)
    | StartEndTag(tag: string, pairs: seq<Attribute>)
    | EndTag(tag: string)
    | Data(text: string)
    | CommentText
    | Declaration(text: string)
    | ProcessingInstr
    | UnknownDecl

  // ----- Attributes, a dictionary in insertion order -----

  predicate Has(attrs: seq<Attribute>, name: string) {
    exists i :: 0 <= i < |attrs| && attrs[i].name == name
  }

  /** The value of an attribute; a missing one and one without a value read as empty. */
  function Value(attrs: seq<Attribute>, name: string): string {
    if attrs == [] then ""
    else if attrs[0].name == name then (if attrs[0].value.Some? then attrs[0].value.value else "")
    else Value(attrs[1..], name)
  }

  function Put(attrs: seq<Attribute>, name: string, value: string): seq<Attribute> {
    if attrs == [] then [Attribute(name, Some(value))]
    else if attrs[0].name == name then [Attribute(name, Some(value))] + attrs[1..]
    else [attrs[0]] + Put(attrs[1..], name, value)
  }

  function Del(attrs: seq<Attribute>, name: string): seq<Attribute> {
    if attrs == [] then []
    else if attrs[0].name == name then Del(attrs[1..], name)
    else [attrs[0]] + Del(attrs[1..], name)
  }

  predicate Distinct(attrs: seq<Attribute>) {
    forall i, j :: 0 <= i < j < |attrs| ==> attrs[i].name != attrs[j].name
  }

  function SplitOn(s: string, c: char): (parts: seq<string>)
    ensures parts != []
  {
    if s == [] then [[]]
    else
      var rest := SplitOn(s[1..], c);
      if s[0] == c then [[]] + rest else [[s[0]] + rest[0]] + rest[1..]
  }

  predicate HasClass(attrs: seq<Attribute>, name: string) {
    name in SplitOn(Value(attrs, "class"), ' ')
  }

  // ----- State -----

  /** An open element; `pageId` is set on the page it opens. */
  datatype Details = Details(tag: string, origTag: string, pageId: Option<string>)

  /** An asset reference that was rewritten: its new name and what it named before. */
  datatype Reference = Reference(name: string, path: string)

  datatype State = State(
    ancestors: seq<Details>, pieces: seq<Piece>, inBody: bool, visitedBody: bool,
    lang: Option<string>, dir: Option<string>, title: string,
    styleHrefs: seq<string>, assets: map<string, string>, references: seq<Reference>,
    internalHrefs: seq<string>, allIds: seq<string>)

  const INITIAL: State := State([], [], false, false, None, None, "", [], map[], [], [], [])

  predicate InContext(st: State, tags: seq<string>) {
    Tags(st.ancestors) == tags
  }

  function Tags(ds: seq<Details>): seq<string> {
    seq(|ds|, i requires 0 <= i < |ds| => ds[i].tag)
  }

  // ----- Assets -----

  predicate SafeChar(c: char) {
    'a' <= c <= 'z' || 'A' <= c <= 'Z' || '0' <= c <= '9' || c == '_' || c == '.' || c == '-'
  }

  /** The file name of an asset: slashes as "__", other unsafe characters as "_". */
  function AssetName(path: string): string {
    if path == [] then []
    else (if path[0] == '/' then "__" else if SafeChar(path[0]) then [path[0]] else "_") + AssetName(path[1..])
  }

  const CHROME_ASSETS: string := "chrome://browser/content/aboutmanual/assets/"

  /** Records an asset and gives the reference to use for it. */
  function SwapAsset(site: Site, st: State, orig: string): Result<(State, string), Error> {
    var url := site.parseUrl(orig);
    if url.scheme != "" then Err(AssetScheme)
    else
      match site.locate(url.path)
      case None => Err(AssetMissing)
      case Some(path) =>
        var name := AssetName(path);
        if name in st.assets && st.assets[name] != path then Err(AssetClash)
        else
          Ok((st.(assets := st.assets[name := path], references := st.references + [Reference(name, path)]),
              CHROME_ASSETS + name))
  }

  // ----- Tags outside the body -----

  function HtmlTag(site: Site, st: State, attrs: seq<Attribute>): Result<State, Error> {
    var lang, dir := Value(attrs, "lang"), Value(attrs, "dir");
    if !InContext(st, []) then Err(HtmlHasParent)
    else if st.lang.Some? && st.lang.value != "" then Err(SecondHtml)
    else if lang == "" || lang != site.locale then Err(BadLang)
    else if dir != "rtl" && dir != "ltr" then Err(BadDir)
    else Ok(st.(lang := Some(lang), dir := Some(dir)))
  }

  function LinkTag(site: Site, st: State, attrs: seq<Attribute>): Result<State, Error> {
    if Value(attrs, "rel") != "stylesheet" then Ok(st)
    else if Value(attrs, "href") == "" then Err(NoStyleHref)
    else
      match SwapAsset(site, st, Value(attrs, "href"))
      case Err(e) => Err(e)
      case Ok((st', href)) => Ok(st'.(styleHrefs := st'.styleHrefs + [href]))
  }

  function BodyTag(st: State): Result<State, Error> {
    if !InContext(st, ["html"]) then Err(BodyContext)
    else if st.visitedBody then Err(SecondBody)
    else Ok(st.(visitedBody := true, inBody := true))
  }

  // ----- Tags in the body -----

  /** What a handler leaves: the state, the attributes to write, and the page the tag opens. */
  datatype Handled = Handled(st: State, attrs: seq<Attribute>, pageId: Option<string>)

  function ImgTag(site: Site, st: State, attrs: seq<Attribute>): Result<Handled, Error> {
    if Has(attrs, "srcset") then Err(SrcSet)
    else if Value(attrs, "src") == "" then Ok(Handled(st, attrs, None))
    else
      match SwapAsset(site, st, Value(attrs, "src"))
      case Err(e) => Err(e)
      case Ok((st', src)) => Ok(Handled(st', Put(attrs, "src", src), None))
  }

  const UP: string := "../../"
  const SUPPORT: string := "https://support.torproject.org"
  const TOP_PAGE: string := "tor-browser"

  function RemoveUps(s: string): string
    decreases |s|
  {
    if UP <= s then RemoveUps(s[6..]) else if s == [] then [] else [s[0]] + RemoveUps(s[1..])
  }

  function NonEmpty(parts: seq<string>): seq<string> {
    if parts == [] then []
    else (if parts[0] == "" then [] else [parts[0]]) + NonEmpty(parts[1..])
  }

  function JoinWith(parts: seq<string>, sep: string): string {
    if parts == [] then []
    else if |parts| == 1 then parts[0]
    else parts[0] + sep + JoinWith(parts[1..], sep)
  }

  /** The reference to use for a relative one, and whether it stays in the document. */
  function ConvertHref(site: Site, href: string): Result<(string, bool), Error> {
    var url := site.parseUrl(href);
    var parts := NonEmpty(SplitOn(RemoveUps(url.path), '/'));
    var anchor := if url.fragment == "" then "" else "___" + url.fragment;
    if parts == [] || ".." in parts || "." in parts then Err(UnexpectedPath)
    else if parts == [TOP_PAGE] && url.fragment == "" then Ok(("#index", true))
    else if parts[0] == TOP_PAGE then Ok(("#" + JoinWith(parts[1..], "__") + anchor, true))
    else if ["get-in-touch", "bug-or-feedback"] <= parts || ["get-in-touch", "user-support"] <= parts then
      Ok(("#" + JoinWith(parts, "__") + anchor, true))
    else
      Ok((SUPPORT + "/" + (if site.locale == "en" then "" else site.quotePlus(site.locale) + "/")
          + JoinWith(parts, "/") + (if url.fragment == "" then "" else "#" + url.fragment), false))
  }

  predicate IsExternal(href: string) {
    "http:" <= href || "https:" <= href
  }

  function MarkExternal(attrs: seq<Attribute>): seq<Attribute> {
    Put(Put(attrs, "target", "_blank"), "rel", "noreferrer")
  }

  function AnchorTag(site: Site, st: State, attrs: seq<Attribute>): Result<Handled, Error> {
    var attrs := Del(Del(Del(attrs, "rel"), "referrerpolicy"), "target");
    var href := Value(attrs, "href");
    if href == "" then Ok(Handled(st, attrs, None))
    else if IsExternal(href) then Ok(Handled(st, MarkExternal(attrs), None))
    else if "mailto:" <= href then Ok(Handled(st, Del(attrs, "href"), None))
    else if "#" <= href then Ok(Handled(st.(internalHrefs := st.internalHrefs + [href]), attrs, None))
    else if UP <= href then
      match ConvertHref(site, href)
      case Err(e) => Err(e)
      case Ok((href', internal)) =>
        var attrs := Put(attrs, "href", href');
        if internal then Ok(Handled(st.(internalHrefs := st.internalHrefs + [href']), attrs, None))
        else Ok(Handled(st, MarkExternal(attrs), None))
    else Err(UnexpectedHref)
  }

  /** The page of the nearest ancestor that has one. */
  function NearestPage(ds: seq<Details>): string {
    if ds == [] then ""
    else if ds[|ds| - 1].pageId.Some? && ds[|ds| - 1].pageId.value != "" then ds[|ds| - 1].pageId.value
    else NearestPage(ds[..|ds| - 1])
  }

  function DivTag(st: State, attrs: seq<Attribute>): Result<Handled, Error> {
    var id := Value(attrs, "id");
    if HasClass(attrs, "heading-anchor") then
      if id == "" then Err(NoHeadingId)
      else if NearestPage(st.ancestors) == "" then Err(NoHeadingPage)
      else Ok(Handled(st, Put(attrs, "id", NearestPage(st.ancestors) + "___" + id), None))
    else if HasClass(attrs, "olm-page") then
      if id == "" then Err(NoPageId)
      else if exists i :: 0 <= i < |st.ancestors| && st.ancestors[i].pageId.Some? then Err(NestedPage)
      else Ok(Handled(st, attrs, Some(id)))
    else Ok(Handled(st, attrs, None))
  }

  // ----- All tags -----

  function Plainly(r: Result<State, Error>, attrs: seq<Attribute>): Result<Handled, Error> {
    match r
    case Err(e) => Err(e)
    case Ok(st) => Ok(Handled(st, attrs, None))
  }

  function Dispatch(site: Site, st: State, tag: string, attrs: seq<Attribute>): Result<Handled, Error> {
    if !st.inBody then
      if tag == "html" then Plainly(HtmlTag(site, st, attrs), attrs)
      else if tag == "link" then Plainly(LinkTag(site, st, attrs), attrs)
      else if tag == "body" then Plainly(BodyTag(st), attrs)
      else Ok(Handled(st, attrs, None))
    else if tag in FORBIDDEN then Err(ForbiddenTag)
    else if tag == "img" then ImgTag(site, st, attrs)
    else if tag == "a" then AnchorTag(site, st, attrs)
    else if tag == "div" then DivTag(st, attrs)
    else Ok(Handled(st, attrs, None))
  }

  /** Records the id of a body element; a duplicate is dropped from a toggler, and refused elsewhere. */
  function SaveId(h: Handled, tag: string): Result<Handled, Error> {
    var id := Value(h.attrs, "id");
    if id == "" || !h.st.inBody then Ok(h)
    else if id in h.st.allIds then
      if tag == "input" && HasClass(h.attrs, "toggler") then Ok(h.(attrs := Del(h.attrs, "id")))
      else Err(DuplicateId)
    else Ok(h.(st := h.st.(allIds := h.st.allIds + [id])))
  }

  /** Writes the tag in the body, and opens the element unless it is void or closed. */
  function Emit(h: Handled, tag: string, closed: bool): State {
    var void := tag in VOID;
    var st := h.st;
    var written :=
      if !st.inBody then []
      else [StartPiece(tag, h.attrs, void)] + (if !void && closed then [EndPiece(tag)] else []);
    var pushed := if void || closed then [] else [Details(tag, tag, h.pageId)];
    st.(pieces := st.pieces + written, ancestors := st.ancestors + pushed)
  }

  function HandleTag(site: Site, st: State, tag: string, pairs: seq<Attribute>, closed: bool): Result<State, Error> {
    if !Distinct(pairs) then Err(DuplicateAttr)
    else
      match Dispatch(site, st, tag, pairs)
      case Err(e) => Err(e)
      case Ok(h) =>
        match SaveId(h, tag)
        case Err(e) => Err(e)
        case Ok(h) => Ok(Emit(h, tag, closed))
  }

  function HandleEndTag(st: State, tag: string): Result<State, Error> {
    if st.ancestors == [] then Err(UnmatchedEnd)
    else
      var n := |st.ancestors| - 1;
      var top := st.ancestors[n];
      if top.origTag != tag then Err(UnmatchedEnd)
      else
        Ok(st.(ancestors := st.ancestors[..n],
               pieces := if st.inBody then st.pieces + [EndPiece(top.tag)] else st.pieces,
               inBody := st.inBody && tag != "body"))
  }

  function HandleData(st: State, text: string): State {
    if st.inBody then st.(pieces := st.pieces + [TextPiece(text)])
    else if InContext(st, ["html", "head", "title"]) then st.(title := st.title + text)
    else st
  }

  function Step(site: Site, st: State, e: Event): Result<State, Error> {
    match e
    case StartTag(tag, pairs) => HandleTag(site, st, tag, pairs, false)
    case StartEndTag(tag, pairs) => HandleTag(site, st, tag, pairs, true)
    case EndTag(tag) => HandleEndTag(st, tag)
    case Data(text) => Ok(HandleData(st, text))
    case CommentText => Ok(st)
    case Declaration(text) => if text != "DOCTYPE html" || !InContext(st, []) then Err(BadDeclaration) else Ok(st)
    case ProcessingInstr => Err(ProcessingInstruction)
    case UnknownDecl => Err(UnknownDeclaration)
  }

  function Run(site: Site, events: seq<Event>): Result<State, Error> {
    if events == [] then Ok(INITIAL)
    else
      match Run(site, events[..|events| - 1])
      case Err(e) => Err(e)
      case Ok(st) => Step(site, st, events[|events| - 1])
  }

  /** The first internal reference that names no element. */
  function Dangling(hrefs: seq<string>, ids: seq<string>): Option<string> {
    if hrefs == [] then None
    else if Back(hrefs[0], 1) !in ids then Some(hrefs[0])
    else Dangling(hrefs[1..], ids)
  }

  /** The checks at the end of `process`. */
  function Accept(st: State): Option<Error> {
    if st.ancestors != [] || st.inBody then Some(NotClosed)
    else if !st.visitedBody then Some(NoBody)
    else if st.lang.None? || st.lang.value == "" || st.dir.None? || st.dir.value == "" then Some(NoLangOrDir)
    else if st.title == "" then Some(NoTitle)
    else
      match Dangling(st.internalHrefs, st.allIds)
      case None => None
      case Some(href) => Some(DanglingHref(href))
  }

  /** The state a document is accepted in. */
  function Process(site: Site, events: seq<Event>): Result<State, Error> {
    match Run(site, events)
    case Err(e) => Err(e)
    case Ok(st) => match Accept(st) case None => Ok(st) case Some(e) => Err(e)
  }
}
