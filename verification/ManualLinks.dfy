/** Ids, anchors, pages and assets of every accepted manual. */
module ManualLinks {
  import opened ByteStrings
  import opened HtmlWriting
  import opened Manual
  import opened ManualSafety
  import opened Wrappers

  // ----- Attribute dictionaries -----

  lemma {:induction false} PutValue(attrs: seq<Attribute>, name: string, value: string, other: string)
    ensures Value(Put(attrs, name, value), name) == value
    ensures other != name ==> Value(Put(attrs, name, value), other) == Value(attrs, other)
  {
    if attrs != [] {
      PutValue(attrs[1..], name, value, other);
    }
  }

  lemma {:induction false} DelValue(attrs: seq<Attribute>, name: string, other: string)
    ensures Value(Del(attrs, name), name) == ""
    ensures other != name ==> Value(Del(attrs, name), other) == Value(attrs, other)
  {
    if attrs != [] {
      DelValue(attrs[1..], name, other);
    }
  }

  // ----- Ids -----

  /** The id a piece writes, unless it is empty. */
  function IdOf(p: Piece): seq<string> {
    if p.StartPiece? && Value(p.attrs, "id") != "" then [Value(p.attrs, "id")] else []
  }

  /** The ids written, in order. */
  function Ids(ps: seq<Piece>): seq<string> {
    if ps == [] then [] else Ids(ps[..|ps| - 1]) + IdOf(ps[|ps| - 1])
  }

  lemma IdsSnoc(ps: seq<Piece>, p: Piece)
    ensures Ids(ps + [p]) == Ids(ps) + IdOf(p)
  {
    assert (ps + [p])[..|ps|] == ps;
  }

  ghost predicate IdsInv(st: State) {
    st.allIds == Ids(st.pieces) && AllDistinct(st.allIds)
  }

  lemma SaveIdRecords(h: Handled, tag: string, void: bool)
    requires SaveId(h, tag).Ok? && AllDistinct(h.st.allIds)
    ensures var h' := SaveId(h, tag).value;
      && AllDistinct(h'.st.allIds) && h'.pageId == h.pageId
      && h'.st == h.st.(allIds := h'.st.allIds)
      && (tag != "input" ==> h'.attrs == h.attrs)
      && h'.st.allIds == h.st.allIds + (if h.st.inBody then IdOf(StartPiece(tag, h'.attrs, void)) else [])
  {
    hide HasClass;
    DelValue(h.attrs, "id", "id");
  }

  lemma EmitIds(h: Handled, tag: string, closed: bool)
    ensures Ids(Emit(h, tag, closed).pieces)
         == Ids(h.st.pieces) + (if h.st.inBody then IdOf(StartPiece(tag, h.attrs, tag in VOID)) else [])
    ensures Emit(h, tag, closed).allIds == h.st.allIds
  {
    var st' := Emit(h, tag, closed);
    var start := StartPiece(tag, h.attrs, tag in VOID);
    if h.st.inBody {
      IdsSnoc(h.st.pieces, start);
      if tag !in VOID && closed {
        assert st'.pieces == h.st.pieces + [start] + [EndPiece(tag)];
        IdsSnoc(h.st.pieces + [start], EndPiece(tag));
      } else {
        assert st'.pieces == h.st.pieces + [start];
      }
    } else {
      assert st'.pieces == h.st.pieces;
    }
  }

  // ----- Anchors and images -----

  /** An anchor leads to a recorded id, to an outside page in a new tab, or nowhere. */
  ghost predicate AnchorSafe(internalHrefs: seq<string>, attrs: seq<Attribute>) {
    var href := Value(attrs, "href");
    || href == ""
    || ("#" <= href && href in internalHrefs)
    || (IsExternal(href) && Value(attrs, "target") == "_blank" && Value(attrs, "rel") == "noreferrer")
  }

  /** The reference is one that was rewritten. */
  ghost predicate Rewritten(references: seq<Reference>, href: string) {
    exists i :: 0 <= i < |references| && href == CHROME_ASSETS + references[i].name
  }

  ghost predicate PieceSafe(internalHrefs: seq<string>, references: seq<Reference>, p: Piece) {
    && (p.StartPiece? && p.tag == "a" ==> AnchorSafe(internalHrefs, p.attrs))
    && (p.StartPiece? && p.tag == "img" ==>
          Value(p.attrs, "src") == "" || Rewritten(references, Value(p.attrs, "src")))
  }

  lemma SafeStays(hrefs: seq<string>, hrefs': seq<string>, refs: seq<Reference>, refs': seq<Reference>, p: Piece)
    requires hrefs <= hrefs' && refs <= refs' && PieceSafe(hrefs, refs, p)
    ensures PieceSafe(hrefs', refs', p)
  {
    if p.StartPiece? && p.tag == "a" {
      if Value(p.attrs, "href") in hrefs {
        assert Value(p.attrs, "href") in hrefs';
      }
    }
    if p.StartPiece? && p.tag == "img" && Value(p.attrs, "src") != "" {
      RewrittenStays(refs, refs', Value(p.attrs, "src"));
    }
  }

  lemma RewrittenStays(refs: seq<Reference>, refs': seq<Reference>, href: string)
    requires refs <= refs' && Rewritten(refs, href)
    ensures Rewritten(refs', href)
  {
    var i :| 0 <= i < |refs| && href == CHROME_ASSETS + refs[i].name;
    assert refs'[i] == refs[i];
  }

  /** Every recorded reference has its asset, under the name the path gives it. */
  ghost predicate AssetsInv(st: State) {
    && (forall i :: 0 <= i < |st.references| ==> Recorded(st.assets, st.references[i]))
    && (forall i :: 0 <= i < |st.styleHrefs| ==> Rewritten(st.references, st.styleHrefs[i]))
  }

  ghost predicate Recorded(assets: map<string, string>, r: Reference) {
    r.name == AssetName(r.path) && r.name in assets && assets[r.name] == r.path
  }

  lemma SwapAssetSafe(site: Site, st: State, orig: string)
    requires AssetsInv(st) && SwapAsset(site, st, orig).Ok?
    ensures var (st', href) := SwapAsset(site, st, orig).value;
      && AssetsInv(st') && st.references <= st'.references && Rewritten(st'.references, href)
      && st'.styleHrefs == st.styleHrefs
  {
    hide AssetName;
    var (st', href) := SwapAsset(site, st, orig).value;
    var n := |st.references|;
    assert href == CHROME_ASSETS + st'.references[n].name;
    forall i | 0 <= i < |st'.references|
      ensures Recorded(st'.assets, st'.references[i])
    {
      if i < n {
        assert Recorded(st.assets, st.references[i]);
      }
    }
    forall i | 0 <= i < |st.styleHrefs|
      ensures Rewritten(st'.references, st.styleHrefs[i])
    {
      RewrittenStays(st.references, st'.references, st.styleHrefs[i]);
    }
  }

  lemma ConvertedHref(site: Site, href: string)
    requires ConvertHref(site, href).Ok?
    ensures var (href', internal) := ConvertHref(site, href).value;
      if internal then "#" <= href' else IsExternal(href')
  {
    hide RemoveUps, NonEmpty, SplitOn, JoinWith;
    assert "https:" <= SUPPORT;
  }

  lemma ExternalIsMarked(attrs: seq<Attribute>)
    ensures var attrs' := MarkExternal(attrs);
      Value(attrs', "href") == Value(attrs, "href")
      && Value(attrs', "target") == "_blank" && Value(attrs', "rel") == "noreferrer"
  {
    hide Put, Value;
    PutValue(attrs, "target", "_blank", "href");
    PutValue(Put(attrs, "target", "_blank"), "rel", "noreferrer", "href");
    PutValue(Put(attrs, "target", "_blank"), "rel", "noreferrer", "target");
  }

  lemma AnchorTagSafe(site: Site, st: State, attrs: seq<Attribute>)
    requires AnchorTag(site, st, attrs).Ok?
    ensures var h := AnchorTag(site, st, attrs).value;
      && AnchorSafe(h.st.internalHrefs, h.attrs) && st.internalHrefs <= h.st.internalHrefs
      && h.st == st.(internalHrefs := h.st.internalHrefs) && h.pageId == None
  {
    hide Put, Value, Del, ConvertHref, MarkExternal;
    var bare := Del(Del(Del(attrs, "rel"), "referrerpolicy"), "target");
    var href := Value(bare, "href");
    if IsExternal(href) {
      ExternalIsMarked(bare);
    } else if "mailto:" <= href {
      DelValue(bare, "href", "href");
    } else if UP <= href && !("#" <= href) && href != "" {
      var (href', internal) := ConvertHref(site, href).value;
      ConvertedHref(site, href);
      PutValue(bare, "href", href', "href");
      ExternalIsMarked(Put(bare, "href", href'));
    }
  }

  // ----- Pages -----

  predicate OnePage(ds: seq<Details>) {
    forall i, j :: 0 <= i < j < |ds| ==> ds[i].pageId.None? || ds[j].pageId.None?
  }

  // ----- All together -----

  ghost predicate LinksInv(st: State) {
    && IdsInv(st) && AssetsInv(st) && OnePage(st.ancestors)
    && forall i :: 0 <= i < |st.pieces| ==> PieceSafe(st.internalHrefs, st.references, st.pieces[i])
  }

  /** What a handler adds: references and hrefs grow, and the tag may be written. */
  ghost predicate HandledSafely(st: State, h: Handled, tag: string) {
    && AssetsInv(h.st) && st.references <= h.st.references && st.internalHrefs <= h.st.internalHrefs
    && (h.st.inBody ==> PieceSafe(h.st.internalHrefs, h.st.references, StartPiece(tag, h.attrs, tag in VOID)))
    && (h.pageId.Some? ==> forall i :: 0 <= i < |st.ancestors| ==> st.ancestors[i].pageId.None?)
  }

  lemma ImgTagSafe(site: Site, st: State, attrs: seq<Attribute>)
    requires AssetsInv(st) && ImgTag(site, st, attrs).Ok?
    ensures HandledSafely(st, ImgTag(site, st, attrs).value, "img")
  {
    hide SwapAsset, Put, Value, AssetsInv, Rewritten;
    var src := Value(attrs, "src");
    if src != "" {
      SwapAssetSafe(site, st, src);
      SwapAssetShape(site, st, src);
      PutValue(attrs, "src", SwapAsset(site, st, src).value.1, "src");
    }
  }

  lemma LinkTagSafe(site: Site, st: State, attrs: seq<Attribute>)
    requires AssetsInv(st) && LinkTag(site, st, attrs).Ok?
    ensures var st' := LinkTag(site, st, attrs).value;
      AssetsInv(st') && st.references <= st'.references && st'.internalHrefs == st.internalHrefs
  {
    hide SwapAsset, Value, Rewritten, Recorded;
    var href := Value(attrs, "href");
    if Value(attrs, "rel") == "stylesheet" {
      SwapAssetSafe(site, st, href);
      SwapAssetShape(site, st, href);
    }
  }

  lemma DispatchSafe(site: Site, st: State, tag: string, attrs: seq<Attribute>)
    requires AssetsInv(st) && Dispatch(site, st, tag, attrs).Ok?
    ensures HandledSafely(st, Dispatch(site, st, tag, attrs).value, tag)
  {
    hide AnchorTag, ImgTag, LinkTag, SwapAsset, Value, HasClass, NearestPage, Put;
    DispatchShape(site, st, tag, attrs);
    if !st.inBody {
      if tag == "link" {
        LinkTagSafe(site, st, attrs);
      }
    } else if tag == "img" {
      ImgTagSafe(site, st, attrs);
    } else if tag == "a" {
      AnchorTagSafe(site, st, attrs);
    }
  }

  lemma EmitSafe(st: State, h: Handled, tag: string, closed: bool)
    requires forall i :: 0 <= i < |h.st.pieces| ==> PieceSafe(h.st.internalHrefs, h.st.references, h.st.pieces[i])
    requires h.st.inBody ==>
      PieceSafe(h.st.internalHrefs, h.st.references, StartPiece(tag, h.attrs, tag in VOID))
    requires OnePage(h.st.ancestors)
    requires h.pageId.Some? ==> forall i :: 0 <= i < |h.st.ancestors| ==> h.st.ancestors[i].pageId.None?
    ensures var st' := Emit(h, tag, closed);
      && (forall i :: 0 <= i < |st'.pieces| ==> PieceSafe(st'.internalHrefs, st'.references, st'.pieces[i]))
      && OnePage(st'.ancestors)
  {
    hide AnchorSafe, Rewritten;
  }

  lemma TagKeepsLinks(site: Site, st: State, tag: string, pairs: seq<Attribute>, closed: bool)
    requires LinksInv(st) && HandleTag(site, st, tag, pairs, closed).Ok?
    ensures LinksInv(HandleTag(site, st, tag, pairs, closed).value)
  {
    hide Dispatch, SaveId, Emit, Distinct, PieceSafe, OnePage, IdOf, Ids, AllDistinct;
    var h := Dispatch(site, st, tag, pairs).value;
    DispatchSafe(site, st, tag, pairs);
    DispatchShape(site, st, tag, pairs);
    assert h.st.pieces == st.pieces && h.st.ancestors == st.ancestors && h.st.allIds == st.allIds;
    forall i | 0 <= i < |st.pieces|
      ensures PieceSafe(h.st.internalHrefs, h.st.references, h.st.pieces[i])
    {
      SafeStays(st.internalHrefs, h.st.internalHrefs, st.references, h.st.references, st.pieces[i]);
    }
    SaveIdRecords(h, tag, tag in VOID);
    var h' := SaveId(h, tag).value;
    InputIsSafe(h'.st.internalHrefs, h'.st.references, tag, h'.attrs);
    EmitIds(h', tag, closed);
    EmitSafe(st, h', tag, closed);
    EmitAssets(h', tag, closed);
  }

  lemma InputIsSafe(hrefs: seq<string>, refs: seq<Reference>, tag: string, attrs: seq<Attribute>)
    ensures tag == "input" ==> PieceSafe(hrefs, refs, StartPiece(tag, attrs, tag in VOID))
  {
  }

  lemma EmitAssets(h: Handled, tag: string, closed: bool)
    ensures var st' := Emit(h, tag, closed);
      st'.assets == h.st.assets && st'.references == h.st.references && st'.styleHrefs == h.st.styleHrefs
  {
  }

  lemma EndTagKeepsLinks(st: State, tag: string)
    requires LinksInv(st) && HandleEndTag(st, tag).Ok?
    ensures LinksInv(HandleEndTag(st, tag).value)
  {
    hide AnchorSafe, Rewritten, Recorded, AllDistinct, Ids;
    var top := st.ancestors[|st.ancestors| - 1];
    IdsSnoc(st.pieces, EndPiece(top.tag));
  }

  lemma DataKeepsLinks(st: State, text: string)
    requires LinksInv(st)
    ensures LinksInv(HandleData(st, text))
  {
    hide AnchorSafe, Rewritten, Recorded, InContext, AllDistinct, Ids;
    IdsSnoc(st.pieces, TextPiece(text));
  }

  lemma StepKeepsLinks(site: Site, st: State, e: Event)
    requires LinksInv(st) && Step(site, st, e).Ok?
    ensures LinksInv(Step(site, st, e).value)
  {
    hide HandleTag, HandleEndTag, HandleData, LinksInv;
    match e {
      case StartTag(tag, pairs) => TagKeepsLinks(site, st, tag, pairs, false);
      case StartEndTag(tag, pairs) => TagKeepsLinks(site, st, tag, pairs, true);
      case EndTag(tag) => EndTagKeepsLinks(st, tag);
      case Data(text) => DataKeepsLinks(st, text);
      case _ =>
    }
  }

  /** At any point of any run: ids are distinct, pages are not nested, references have their assets. */
  lemma {:induction false} RunKeepsLinks(site: Site, events: seq<Event>)
    requires Run(site, events).Ok?
    ensures LinksInv(Run(site, events).value)
  {
    hide Step;
    if events != [] {
      RunKeepsLinks(site, events[..|events| - 1]);
      StepKeepsLinks(site, Run(site, events[..|events| - 1]).value, events[|events| - 1]);
    }
  }

  lemma {:induction false} NoneDangling(hrefs: seq<string>, ids: seq<string>)
    ensures Dangling(hrefs, ids) == None <==> forall i :: 0 <= i < |hrefs| ==> Back(hrefs[i], 1) in ids
  {
    if hrefs != [] {
      NoneDangling(hrefs[1..], ids);
      assert forall i :: 0 < i < |hrefs| ==> hrefs[i] == hrefs[1..][i - 1];
      assert forall i :: 0 <= i < |hrefs[1..]| ==> hrefs[1..][i] == hrefs[i + 1];
    }
  }

  /** What an accepted anchor may be: nothing, a written id, or an outside page in a new tab. */
  ghost predicate AnchorResolves(ids: seq<string>, attrs: seq<Attribute>) {
    var href := Value(attrs, "href");
    || href == ""
    || ("#" <= href && Back(href, 1) in ids)
    || (IsExternal(href) && Value(attrs, "target") == "_blank" && Value(attrs, "rel") == "noreferrer")
  }

  /**
    In an accepted document the ids written in the body are distinct and are the recorded
    ones, every anchor resolves, and every image and style sheet is a recorded asset.
  */
  lemma AcceptedLinks(site: Site, events: seq<Event>)
    requires Process(site, events).Ok?
    ensures var st := Process(site, events).value;
      && Ids(st.pieces) == st.allIds && AllDistinct(st.allIds)
      && (forall i :: 0 <= i < |st.pieces| && st.pieces[i].StartPiece? && st.pieces[i].tag == "a" ==>
            AnchorResolves(Ids(st.pieces), st.pieces[i].attrs))
      && (forall i :: 0 <= i < |st.pieces| && st.pieces[i].StartPiece? && st.pieces[i].tag == "img" ==>
            Value(st.pieces[i].attrs, "src") == "" || Rewritten(st.references, Value(st.pieces[i].attrs, "src")))
      && AssetsInv(st)
  {
    hide Run, AssetsInv, Rewritten, Value, Ids;
    RunKeepsLinks(site, events);
    var st := Process(site, events).value;
    NoneDangling(st.internalHrefs, st.allIds);
    forall i | 0 <= i < |st.pieces|
      ensures PieceSafe(st.internalHrefs, st.references, st.pieces[i])
    {
    }
  }
}
