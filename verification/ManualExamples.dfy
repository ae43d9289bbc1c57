/** A manual that is accepted although its style sheet is read as another than it holds. */
module ManualExamples {
  import opened HtmlReading
  import opened HtmlWriting
  import opened Manual
  import opened ManualBody
  import opened Wrappers

  function Styled(locale: string): seq<Event> {
    [StartTag("html", [Attribute("lang", Some(locale)), Attribute("dir", Some("ltr"))]),
     StartTag("head", []), StartTag("title", []), Data("Manual"), EndTag("title"), EndTag("head"),
     StartTag("body", []), StartTag("style", []), Data("a>b"), EndTag("style"), EndTag("body"), EndTag("html")]
  }

  const PIECES: seq<Piece> :=
    [StartPiece("body", [], false), StartPiece("style", [], false), TextPiece("a>b"), EndPiece("style"),
     EndPiece("body")]

  // ----- Its run -----

  function Open(tag: string): Details {
    Details(tag, tag, None)
  }

  /** The elements open after so many events. */
  function OpenAfter(k: nat): seq<Details> {
    (if 1 <= k <= 11 then [Open("html")] else [])
    + (if 2 <= k <= 5 then [Open("head")] else if 7 <= k <= 10 then [Open("body")] else [])
    + (if 3 <= k <= 4 then [Open("title")] else if 8 <= k <= 9 then [Open("style")] else [])
  }

  function WrittenAfter(k: nat): nat {
    if k <= 6 then 0 else if k <= 11 then k - 6 else 5
  }

  function StateAfter(locale: string, k: nat): State {
    if k == 0 then INITIAL
    else
      State(OpenAfter(k), PIECES[..WrittenAfter(k)], 7 <= k <= 10, 7 <= k, Some(locale), Some("ltr"),
            if 4 <= k then "Manual" else "", [], map[], [], [], [])
  }

  /** Opening an element that has no handler of its own. */
  lemma Opens(site: Site, st: State, tag: string)
    requires tag in {"head", "title", "style"} && (tag == "head" ==> !st.inBody)
    ensures Step(site, st, StartTag(tag, []))
         == Ok(st.(ancestors := st.ancestors + [Open(tag)],
                   pieces := st.pieces + if st.inBody then [StartPiece(tag, [], false)] else []))
  {
    hide HtmlTag, LinkTag, BodyTag, ImgTag, AnchorTag, DivTag, HasClass;
    assert [StartPiece(tag, [], false)] + [] == [StartPiece(tag, [], false)];
  }

  lemma Closes(site: Site, st: State, below: seq<Details>, tag: string)
    requires st.ancestors == below + [Open(tag)]
    ensures Step(site, st, EndTag(tag))
         == Ok(st.(ancestors := below, inBody := st.inBody && tag != "body",
                   pieces := st.pieces + if st.inBody then [EndPiece(tag)] else []))
  {
    assert st.ancestors[..|below|] == below;
    assert st.pieces + [] == st.pieces;
  }

  lemma OpensHtml(site: Site)
    requires site.locale != ""
    ensures Step(site, INITIAL, Styled(site.locale)[0]) == Ok(StateAfter(site.locale, 1))
  {
    var attrs := [Attribute("lang", Some(site.locale)), Attribute("dir", Some("ltr"))];
    assert attrs[1..] == [Attribute("dir", Some("ltr"))] && Value(attrs, "dir") == Value(attrs[1..], "dir") == "ltr";
    var st := INITIAL.(lang := Some(site.locale), dir := Some("ltr"));
    assert Tags([]) == [] && HtmlTag(site, INITIAL, attrs) == Ok(st);
    assert Emit(Handled(st, attrs, None), "html", false) == StateAfter(site.locale, 1);
  }

  lemma OpensBody(site: Site)
    ensures Step(site, StateAfter(site.locale, 6), StartTag("body", [])) == Ok(StateAfter(site.locale, 7))
  {
    assert Tags([Open("html")]) == ["html"];
    var st := StateAfter(site.locale, 6);
    assert BodyTag(st) == Ok(st.(visitedBody := true, inBody := true));
    assert PIECES[..0] + ([PIECES[0]] + []) == PIECES[..1];
    assert OpenAfter(7) == OpenAfter(6) + [Open("body")];
  }

  lemma TakesTitle(site: Site)
    ensures Step(site, StateAfter(site.locale, 3), Data("Manual")) == Ok(StateAfter(site.locale, 4))
  {
    assert Tags(OpenAfter(3)) == ["html", "head", "title"];
    assert "" + "Manual" == "Manual";
  }

  lemma TakesText(site: Site, st: State, text: string)
    requires st.inBody
    ensures Step(site, st, Data(text)) == Ok(st.(pieces := st.pieces + [TextPiece(text)]))
  {
  }

  lemma WritesOne(k: nat)
    requires k < |PIECES|
    ensures PIECES[..k + 1] == PIECES[..k] + [PIECES[k]]
  {
  }

  lemma PiecesAfter(k: nat)
    requires k < 12
    ensures PIECES[..WrittenAfter(k)]
         + (if 6 <= k <= 10 then [PIECES[k - 6]] else []) == PIECES[..WrittenAfter(k + 1)]
  {
    if 6 <= k <= 10 {
      WritesOne(k - 6);
    }
  }

  lemma OpensNext(site: Site, k: nat, tag: string)
    requires (k, tag) in {(1, "head"), (2, "title"), (7, "style")}
    ensures Step(site, StateAfter(site.locale, k), StartTag(tag, [])) == Ok(StateAfter(site.locale, k + 1))
  {
    hide Step, WrittenAfter;
    PiecesAfter(k);
    Opens(site, StateAfter(site.locale, k), tag);
    assert OpenAfter(k + 1) == OpenAfter(k) + [Open(tag)];
  }

  lemma ClosesNext(site: Site, k: nat, tag: string)
    requires (k, tag) in {(4, "title"), (5, "head"), (9, "style"), (10, "body"), (11, "html")}
    ensures Step(site, StateAfter(site.locale, k), EndTag(tag)) == Ok(StateAfter(site.locale, k + 1))
  {
    hide Step, WrittenAfter;
    PiecesAfter(k);
    assert OpenAfter(k) == OpenAfter(k + 1) + [Open(tag)];
    Closes(site, StateAfter(site.locale, k), OpenAfter(k + 1), tag);
  }

  lemma TakesNext(site: Site)
    ensures Step(site, StateAfter(site.locale, 8), Data("a>b")) == Ok(StateAfter(site.locale, 9))
  {
    hide Step, WrittenAfter;
    PiecesAfter(8);
    TakesText(site, StateAfter(site.locale, 8), "a>b");
    assert OpenAfter(8) == OpenAfter(9);
  }

  lemma Steps(site: Site, k: nat)
    requires k < 12 && site.locale != ""
    ensures Step(site, StateAfter(site.locale, k), Styled(site.locale)[k]) == Ok(StateAfter(site.locale, k + 1))
  {
    hide Step, StateAfter;
    if k == 0 {
      StartsEmpty(site.locale);
      OpensHtml(site);
    } else if k in {1, 2, 7} {
      OpensNext(site, k, Styled(site.locale)[k].tag);
    } else if k == 3 {
      TakesTitle(site);
    } else if k == 6 {
      OpensBody(site);
    } else if k == 8 {
      TakesNext(site);
    } else {
      ClosesNext(site, k, Styled(site.locale)[k].tag);
    }
  }

  lemma {:induction false} StyledRuns(site: Site, k: nat)
    requires k <= 12 && site.locale != ""
    ensures Run(site, Styled(site.locale)[..k]) == Ok(StateAfter(site.locale, k))
  {
    hide Step, StateAfter;
    var doc := Styled(site.locale);
    if k == 0 {
      StartsEmpty(site.locale);
    } else {
      StyledRuns(site, k - 1);
      Steps(site, k - 1);
      assert doc[..k][..k - 1] == doc[..k - 1];
    }
  }

  lemma StartsEmpty(locale: string)
    ensures StateAfter(locale, 0) == INITIAL
  {
  }

  lemma StyledIsAccepted(site: Site)
    requires site.locale != ""
    ensures Process(site, Styled(site.locale)) == Ok(StateAfter(site.locale, 12))
    ensures StateAfter(site.locale, 12).pieces == PIECES
  {
    hide Run;
    StyledRuns(site, 12);
    assert Styled(site.locale)[..12] == Styled(site.locale);
    assert OpenAfter(12) == [] && PIECES[..5] == PIECES;
  }

  // ----- Its events -----

  function StageAfter(k: nat): Stage {
    if k <= 6 then Before
    else if k in {8, 9} then At(In("style", false))
    else if k <= 10 then At(Outside(false))
    else Past
  }

  lemma {:induction false} StyledReaches(locale: string, k: nat)
    requires k <= 12
    ensures Reached(Styled(locale)[..k]) == Some(StageAfter(k))
    ensures k <= 8 ==> PlainEvents(Styled(locale)[..k])
    ensures 9 <= k ==> !PlainEvents(Styled(locale)[..k])
  {
    var doc := Styled(locale);
    if k != 0 {
      StyledReaches(locale, k - 1);
      assert doc[..k][..k - 1] == doc[..k - 1];
      NextStage(locale, k - 1);
    }
  }

  lemma NextStage(locale: string, k: nat)
    requires k < 12
    ensures OnEvent(StageAfter(k), Styled(locale)[k]) == Some(StageAfter(k + 1))
    ensures PlainEvent(Some(StageAfter(k)), Styled(locale)[k]) <==> k != 8
  {
    var text := "a>b";
    assert text[1] == '>';
  }

  lemma NamesAreOk()
    ensures forall name :: name in {"html", "head", "title", "body", "style"} ==> TagNameOk(name)
    ensures AttrNameOk("lang") && AttrNameOk("dir")
  {
  }

  lemma StyledIsWellFormed(locale: string)
    ensures forall i :: 0 <= i < 12 ==> EventOk(Styled(locale)[i])
  {
    hide TagNameOk, AttrNameOk;
    NamesAreOk();
  }

  // ----- Its reading -----

  lemma ReadsAs()
    ensures Tokens(AsRead(PIECES))
         == [Start("body", [], false), Start("style", [], false), Chars("a&gt;b"), End("style"), End("body")]
  {
    hide AsReadText;
    var body, style, ends := PIECES[0], PIECES[1], [PIECES[3]] + [PIECES[4]];
    ReadOneByOne();
    RawPieces();
    assert AsRead(PIECES) == [body] + ([style, TextPiece("a&gt;b")] + ends);
    TokensCons(body, [style, TextPiece("a&gt;b")] + ends);
    TokensOfRaw(style, "a&gt;b", ends);
    TokensCons(PIECES[3], [PIECES[4]]);
    TokensCons(PIECES[4], []);
    assert [PIECES[4]] + [] == [PIECES[4]] && Tokens([]) == [] && ReadAttrs([]) == [];
    assert Tokens(ends) == [End("style")] + [End("body")];
    assert PutText("a&gt;b", Tokens(ends)) == [Chars("a&gt;b")] + Tokens(ends);
  }

  lemma RawPieces()
    ensures AsRead(PIECES)
         == [PIECES[0]] + ([PIECES[1], TextPiece(AsReadText("a>b", false))] + ([PIECES[3]] + [PIECES[4]]))
  {
    hide AsReadText;
    var ends := [PIECES[3]] + [PIECES[4]];
    assert PIECES[1..][1..] == [PIECES[2]] + ends && PIECES[2..][1..] == ends;
    EndFirst(PIECES[3], [PIECES[4]]);
    EndFirst(PIECES[4], []);
    assert [PIECES[4]] + [] == [PIECES[4]];
    assert "a>b" + [] == "a>b";
    assert Contents(ends) == ([], ends) && Contents(PIECES[1..][1..]) == ("a>b", ends);
    assert AsRead(PIECES[1..]) == [PIECES[1], TextPiece(AsReadText("a>b", false))] + ends;
  }

  /**
    A manual with a style sheet in its body is accepted in any locale, and a reader finds
    other text in the style sheet than the manual had.
  */
  lemma StyleSheetIsMisread(site: Site)
    requires site.locale != ""
    ensures var doc := Styled(site.locale);
      && Process(site, doc).Ok? && Process(site, doc).value.pieces == PIECES
      && (forall i :: 0 <= i < |doc| ==> EventOk(doc[i])) && Reached(doc).Some? && !PlainEvents(doc)
      && ReadTokens(PrintAll(PIECES), false) != Some(Tokens(PIECES))
      && ReadTokens(PrintAll(PIECES), false)
         == Some([Start("body", [], false), Start("style", [], false), Chars("a&gt;b"), End("style"), End("body")])
  {
    StyledIsAccepted(site);
    StyledReaches(site.locale, 12);
    StyledIsWellFormed(site.locale);
    ReadsAs();
    assert Styled(site.locale)[..12] == Styled(site.locale) && |Styled(site.locale)| == 12;
    hide *;
    AcceptedBodyReadsBackIff(site, Styled(site.locale));
  }
}
