/** The manual's parser: handlers that update its fields, event by event. */
module ManualParser {
  import opened ByteStrings
  import opened HtmlWriting
  import opened Manual
  import opened Wrappers

  /** The tag is written, and its end when it is closed at once; otherwise the element is opened. */
  lemma EmitIs(h: Handled, tag: string, closed: bool)
    ensures var st, start := h.st, StartPiece(tag, h.attrs, tag in VOID);
      Emit(h, tag, closed)
      == st.(pieces :=
               if !st.inBody then st.pieces
               else if tag !in VOID && closed then st.pieces + [start] + [EndPiece(tag)]
               else st.pieces + [start],
             ancestors :=
               if tag in VOID || closed then st.ancestors
               else st.ancestors + [Details(tag, tag, h.pageId)])
  {
    var st, start := h.st, StartPiece(tag, h.attrs, tag in VOID);
    assert st.pieces + [] == st.pieces && st.ancestors + [] == st.ancestors && [start] + [] == [start];
    Assoc(st.pieces, [start], [EndPiece(tag)]);
  }

  class Parser {
    const site: Site
    var ancestorDetails: seq<Details>
    var bodyContent: string
    var inBody: bool
    var visitedBody: bool
    var lang: Option<string>
    var dir: Option<string>
    var title: string
    var styleHrefs: seq<string>
    var assetPaths: map<string, string>
    var internalHrefs: seq<string>
    var allIds: seq<string>
    // The pieces the body content is made of, and the asset references rewritten so far.
    ghost var pieces: seq<Piece>
    ghost var references: seq<Reference>

    constructor (site: Site)
      ensures this.site == site && Valid() && Abs() == INITIAL
    {
      this.site := site;
      ancestorDetails, bodyContent, inBody, visitedBody := [], "", false, false;
      lang, dir, title := None, None, "";
      styleHrefs, assetPaths, internalHrefs, allIds := [], map[], [], [];
      pieces, references := [], [];
    }

    /** The body content is the printed pieces. */
    ghost predicate Valid()
      reads this
    {
      bodyContent == PrintAll(pieces)
    }

    ghost function Abs(): State
      reads this
    {
      State(ancestorDetails, pieces, inBody, visitedBody, lang, dir, title, styleHrefs, assetPaths, references,
            internalHrefs, allIds)
    }

    // ----- Writing -----

    method AddStartTagToBody(tag: string, attrs: seq<Attribute>, selfClose: bool)
      requires Valid()
      modifies `bodyContent, `pieces
      ensures Valid() && pieces == old(pieces) + [StartPiece(tag, attrs, selfClose)]
    {
      var attrPart := "";
      assert attrs[0..] == attrs && "" + PrintAttrs(attrs) == PrintAttrs(attrs);
      for i := 0 to |attrs|
        invariant unchanged(this)
        invariant attrPart + PrintAttrs(attrs[i..]) == PrintAttrs(attrs)
      {
        assert attrs[i..][1..] == attrs[i + 1..];
        Assoc(attrPart, PrintAttr(attrs[i]), PrintAttrs(attrs[i + 1..]));
        var part := [' '] + attrs[i].name;
        if attrs[i].value.Some? {
          part := part + ("=\"" + Escape(attrs[i].value.value, true) + "\"");
        } else {
          assert part + "" == part;
        }
        attrPart := attrPart + part;
      }
      assert attrs[|attrs|..] == [] && attrPart + PrintAttrs([]) == attrPart;
      var closePart := if selfClose then " />" else ">";
      assert attrPart == PrintAttrs(attrs);
      ghost var piece := StartPiece(tag, attrs, selfClose);
      PrintSnoc(pieces, piece);
      assert "<" + tag + attrPart + closePart == Print(piece);
      bodyContent := bodyContent + ("<" + tag + attrPart + closePart);
      pieces := pieces + [piece];
    }

    method AddEndTagToBody(tag: string)
      requires Valid()
      modifies `bodyContent, `pieces
      ensures Valid() && pieces == old(pieces) + [EndPiece(tag)]
    {
      PrintSnoc(pieces, EndPiece(tag));
      bodyContent := bodyContent + ("</" + tag + ">");
      pieces := pieces + [EndPiece(tag)];
    }

    // ----- Tags outside the body -----

    method HandleHtmlTag(attrs: seq<Attribute>) returns (error: Option<Error>)
      modifies `lang, `dir
      ensures match HtmlTag(site, old(Abs()), attrs)
        case Err(e) => error == Some(e)
        case Ok(st) => error == None && Abs() == st
    {
      if Tags(ancestorDetails) != [] {
        return Some(HtmlHasParent);
      }
      if lang.Some? && lang.value != "" {
        return Some(SecondHtml);
      }
      var newLang := Value(attrs, "lang");
      if newLang == "" || newLang != site.locale {
        return Some(BadLang);
      }
      var dirVal := Value(attrs, "dir");
      if dirVal != "rtl" && dirVal != "ltr" {
        return Some(BadDir);
      }
      lang, dir := Some(newLang), Some(dirVal);
      return None;
    }

    method SwapAssetPath(origPath: string) returns (r: Result<string, Error>)
      modifies `assetPaths, `references
      ensures match SwapAsset(site, old(Abs()), origPath)
        case Err(e) => r == Err(e)
        case Ok((st, href)) => r == Ok(href) && Abs() == st
    {
      var url := site.parseUrl(origPath);
      if url.scheme != "" {
        return Err(AssetScheme);
      }
      var path := site.locate(url.path);
      if path.None? {
        return Err(AssetMissing);
      }
      var assetName := AssetName(path.value);
      if assetName !in assetPaths {
        assetPaths := assetPaths[assetName := path.value];
      } else if assetPaths[assetName] != path.value {
        return Err(AssetClash);
      } else {
        assert assetPaths[assetName := path.value] == assetPaths;
      }
      references := references + [Reference(assetName, path.value)];
      return Ok(CHROME_ASSETS + assetName);
    }

    method HandleLinkTag(attrs: seq<Attribute>) returns (error: Option<Error>)
      modifies `assetPaths, `references, `styleHrefs
      ensures match LinkTag(site, old(Abs()), attrs)
        case Err(e) => error == Some(e)
        case Ok(st) => error == None && Abs() == st
    {
      hide SwapAsset;
      if Value(attrs, "rel") != "stylesheet" {
        return None;
      }
      var href := Value(attrs, "href");
      if href == "" {
        return Some(NoStyleHref);
      }
      var swapped := SwapAssetPath(href);
      if swapped.Err? {
        return Some(swapped.error);
      }
      styleHrefs := styleHrefs + [swapped.value];
      return None;
    }

    method HandleBodyTag() returns (error: Option<Error>)
      modifies `visitedBody
      ensures match BodyTag(old(Abs()))
        case Err(e) => error == Some(e)
        case Ok(st) => error == None && Abs() == st.(inBody := inBody) && inBody == old(inBody)
    {
      if Tags(ancestorDetails) != ["html"] {
        return Some(BodyContext);
      }
      if visitedBody {
        return Some(SecondBody);
      }
      visitedBody := true;
      return None;
    }

    // ----- Tags in the body; each returns the attributes to write -----

    method HandleImgTag(attrs: seq<Attribute>) returns (r: Result<seq<Attribute>, Error>)
      modifies `assetPaths, `references
      ensures match ImgTag(site, old(Abs()), attrs)
        case Err(e) => r == Err(e)
        case Ok(h) => r == Ok(h.attrs) && Abs() == h.st && h.pageId == None
    {
      hide SwapAsset;
      if Has(attrs, "srcset") {
        return Err(SrcSet);
      }
      var src := Value(attrs, "src");
      if src == "" {
        return Ok(attrs);
      }
      var swapped := SwapAssetPath(src);
      if swapped.Err? {
        return Err(swapped.error);
      }
      return Ok(Put(attrs, "src", swapped.value));
    }

    method HandleATag(attrs0: seq<Attribute>) returns (r: Result<seq<Attribute>, Error>)
      modifies `internalHrefs
      ensures match AnchorTag(site, old(Abs()), attrs0)
        case Err(e) => r == Err(e)
        case Ok(h) => r == Ok(h.attrs) && Abs() == h.st && h.pageId == None
    {
      hide ConvertHref;
      var attrs := Del(Del(Del(attrs0, "rel"), "referrerpolicy"), "target");
      var href := Value(attrs, "href");
      if href == "" {
        return Ok(attrs);
      }
      var isExternal, isInternal := false, false;
      if IsExternal(href) {
        isExternal := true;
      } else if "mailto:" <= href {
        attrs := Del(attrs, "href");
      } else if "#" <= href {
        isInternal := true;
      } else if UP <= href {
        var converted := ConvertHref(site, href);
        if converted.Err? {
          return Err(converted.error);
        }
        href, isInternal := converted.value.0, converted.value.1;
        attrs := Put(attrs, "href", href);
        isExternal := !isInternal;
      } else {
        return Err(UnexpectedHref);
      }
      if isExternal {
        attrs := Put(attrs, "target", "_blank");
        attrs := Put(attrs, "rel", "noreferrer");
      }
      if isInternal {
        internalHrefs := internalHrefs + [href];
      }
      return Ok(attrs);
    }

    method HandleDivTag(attrs: seq<Attribute>) returns (r: Result<(seq<Attribute>, Option<string>), Error>)
      ensures match DivTag(Abs(), attrs)
        case Err(e) => r == Err(e)
        case Ok(h) => r == Ok((h.attrs, h.pageId)) && h.st == Abs()
    {
      var id := Value(attrs, "id");
      if HasClass(attrs, "heading-anchor") {
        if id == "" {
          return Err(NoHeadingId);
        }
        var pageId := "";
        var i := |ancestorDetails|;
        assert ancestorDetails[..i] == ancestorDetails;
        while i > 0 && pageId == ""
          invariant 0 <= i <= |ancestorDetails|
          invariant NearestPage(ancestorDetails) == if pageId != "" then pageId else NearestPage(ancestorDetails[..i])
        {
          i := i - 1;
          assert ancestorDetails[..i + 1][..i] == ancestorDetails[..i];
          if ancestorDetails[i].pageId.Some? {
            pageId := ancestorDetails[i].pageId.value;
          }
        }
        if pageId == "" {
          return Err(NoHeadingPage);
        }
        return Ok((Put(attrs, "id", pageId + "___" + id), None));
      } else if HasClass(attrs, "olm-page") {
        if id == "" {
          return Err(NoPageId);
        }
        for i := 0 to |ancestorDetails|
          invariant forall k :: 0 <= k < i ==> ancestorDetails[k].pageId.None?
        {
          if ancestorDetails[i].pageId.Some? {
            return Err(NestedPage);
          }
        }
        return Ok((attrs, Some(id)));
      }
      return Ok((attrs, None));
    }

    // ----- All tags -----

    method SaveIdOf(tag: string, attrs: seq<Attribute>, ghost pageId: Option<string>)
      returns (r: Result<seq<Attribute>, Error>)
      modifies `allIds
      ensures match SaveId(Handled(old(Abs()), attrs, pageId), tag)
        case Err(e) => r == Err(e)
        case Ok(h) => r == Ok(h.attrs) && Abs() == h.st && h.pageId == pageId
    {
      var id := Value(attrs, "id");
      if id == "" || !inBody {
        return Ok(attrs);
      }
      if id in allIds {
        if tag == "input" && HasClass(attrs, "toggler") {
          return Ok(Del(attrs, "id"));
        }
        return Err(DuplicateId);
      }
      allIds := allIds + [id];
      return Ok(attrs);
    }

    /** The tag's own handler. */
    method DispatchTag(tag: string, attrs: seq<Attribute>) returns (r: Result<(seq<Attribute>, Option<string>), Error>)
      modifies this
      ensures bodyContent == old(bodyContent) && pieces == old(pieces)
      ensures match Dispatch(site, old(Abs()), tag, attrs)
        case Err(e) => r == Err(e)
        case Ok(h) => r == Ok((h.attrs, h.pageId)) && Abs() == h.st
    {
      hide HtmlTag, LinkTag, ImgTag, AnchorTag, DivTag;
      if !inBody {
        var error := None;
        if tag == "html" {
          error := HandleHtmlTag(attrs);
        } else if tag == "link" {
          error := HandleLinkTag(attrs);
        } else if tag == "body" {
          error := HandleBodyTag();
          inBody := true;
        }
        return if error.Some? then Err(error.value) else Ok((attrs, None));
      }
      if tag in FORBIDDEN {
        return Err(ForbiddenTag);
      } else if tag == "div" {
        r := HandleDivTag(attrs);
      } else {
        var written := Ok(attrs);
        if tag == "img" {
          written := HandleImgTag(attrs);
        } else if tag == "a" {
          written := HandleATag(attrs);
        }
        return if written.Err? then Err(written.error) else Ok((written.value, None));
      }
    }

    method HandleTag(tag: string, pairs: seq<Attribute>, isClosed: bool) returns (error: Option<Error>)
      requires Valid()
      modifies this
      ensures match Manual.HandleTag(site, old(Abs()), tag, pairs, isClosed)
        case Err(e) => error == Some(e)
        case Ok(st) => error == None && Valid() && Abs() == st
    {
      hide Dispatch, SaveId;
      for i := 0 to |pairs|
        invariant forall j, k :: 0 <= j < k < i ==> pairs[j].name != pairs[k].name
      {
        if exists j :: 0 <= j < i && pairs[j].name == pairs[i].name {
          return Some(DuplicateAttr);
        }
      }
      var handled := DispatchTag(tag, pairs);
      if handled.Err? {
        return Some(handled.error);
      }
      var (attrs, pageId) := handled.value;
      var saved := SaveIdOf(tag, attrs, pageId);
      if saved.Err? {
        return Some(saved.error);
      }
      ghost var h := Handled(Abs(), saved.value, pageId);
      Finish(tag, saved.value, isClosed, pageId);
      assert Abs() == Emit(h, tag, isClosed);
      return None;
    }

    /** The end of `_handle_tag`: write the tag, and remember it as an ancestor. */
    method Finish(tag: string, attrs: seq<Attribute>, isClosed: bool, pageId: Option<string>)
      requires Valid()
      modifies this
      ensures Valid() && Abs() == Emit(Handled(old(Abs()), attrs, pageId), tag, isClosed)
    {
      var isVoidTag := tag in VOID;
      var isOpenTag := !isVoidTag && !isClosed;
      EmitIs(Handled(Abs(), attrs, pageId), tag, isClosed);
      hide Emit;
      if inBody {
        AddStartTagToBody(tag, attrs, isVoidTag);
        if !isVoidTag && !isOpenTag {
          AddEndTagToBody(tag);
        }
      }
      if isOpenTag {
        ancestorDetails := ancestorDetails + [Details(tag, tag, pageId)];
      }
    }

    method HandleEndTag(tag: string) returns (error: Option<Error>)
      requires Valid()
      modifies this
      ensures match Manual.HandleEndTag(old(Abs()), tag)
        case Err(e) => error == Some(e)
        case Ok(st) => error == None && Valid() && Abs() == st
    {
      if ancestorDetails == [] {
        return Some(UnmatchedEnd);
      }
      var n := |ancestorDetails| - 1;
      var details := ancestorDetails[n];
      ancestorDetails := ancestorDetails[..n];
      if details.origTag != tag {
        return Some(UnmatchedEnd);
      }
      if inBody {
        AddEndTagToBody(details.tag);
      }
      if tag == "body" {
        inBody := false;
      }
      return None;
    }

    method HandleData(data: string)
      requires Valid()
      modifies `bodyContent, `pieces, `title
      ensures Valid() && Abs() == Manual.HandleData(old(Abs()), data)
    {
      if inBody {
        PrintSnoc(pieces, TextPiece(data));
        bodyContent := bodyContent + Escape(data, false);
        pieces := pieces + [TextPiece(data)];
      } else if Tags(ancestorDetails) == ["html", "head", "title"] {
        title := title + data;
      }
    }

    /** One event of the underlying HTML parser. */
    method Feed(e: Event) returns (error: Option<Error>)
      requires Valid()
      modifies this
      ensures match Step(site, old(Abs()), e)
        case Err(x) => error == Some(x)
        case Ok(st) => error == None && Valid() && Abs() == st
    {
      hide Manual.HandleTag, Manual.HandleEndTag, Manual.HandleData;
      match e {
        case StartTag(tag, pairs) => error := HandleTag(tag, pairs, false);
        case StartEndTag(tag, pairs) => error := HandleTag(tag, pairs, true);
        case EndTag(tag) => error := HandleEndTag(tag);
        case Data(text) =>
          HandleData(text);
          error := None;
        case CommentText => error := None;
        case Declaration(text) =>
          error := if text != "DOCTYPE html" || Tags(ancestorDetails) != [] then Some(BadDeclaration) else None;
        case ProcessingInstr => error := Some(ProcessingInstruction);
        case UnknownDecl => error := Some(UnknownDeclaration);
      }
    }

    /** `process`: the body content and the asset table of a document that is accepted. */
    method ProcessAll(events: seq<Event>) returns (r: Result<(string, map<string, string>), Error>)
      requires Valid() && Abs() == INITIAL
      modifies this
      ensures match Process(site, events)
        case Err(e) => r == Err(e)
        case Ok(st) => r == Ok((PrintAll(st.pieces), st.assets)) && Abs() == st
    {
      hide Step;
      assert events[..0] == [];
      for i := 0 to |events|
        invariant Valid() && Run(site, events[..i]) == Ok(Abs())
      {
        assert events[..i + 1][..i] == events[..i];
        var error := Feed(events[i]);
        if error.Some? {
          ErrorStays(site, events, i + 1);
          return Err(error.value);
        }
      }
      assert events[..|events|] == events;
      if ancestorDetails != [] || inBody {
        return Err(NotClosed);
      }
      if !visitedBody {
        return Err(NoBody);
      }
      if lang.None? || lang.value == "" || dir.None? || dir.value == "" {
        return Err(NoLangOrDir);
      }
      if title == "" {
        return Err(NoTitle);
      }
      assert internalHrefs[0..] == internalHrefs;
      for i := 0 to |internalHrefs|
        invariant Dangling(internalHrefs, allIds) == Dangling(internalHrefs[i..], allIds)
      {
        assert internalHrefs[i..][1..] == internalHrefs[i + 1..];
        if Back(internalHrefs[i], 1) !in allIds {
          return Err(DanglingHref(internalHrefs[i]));
        }
      }
      return Ok((bodyContent, assetPaths));
    }
  }

  /** After an error the rest of the document is not looked at. */
  lemma {:induction false} ErrorStays(site: Site, events: seq<Event>, n: nat)
    requires n <= |events| && Run(site, events[..n]).Err?
    ensures Run(site, events) == Run(site, events[..n])
    decreases |events|
  {
    if n < |events| {
      assert events[..|events| - 1][..n] == events[..n];
      ErrorStays(site, events[..|events| - 1], n);
    } else {
      assert events[..n] == events;
    }
  }
}
