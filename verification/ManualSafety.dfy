/** What holds of every accepted manual: one balanced body, ids, anchors and assets. */
module ManualSafety {
  import opened HtmlWriting
  import opened Manual
  import opened Wrappers

  // ----- Balanced markup -----

  /** The elements open after one more piece; none if it closes an element that is not on top. */
  function ScanPiece(open: Option<seq<string>>, p: Piece): Option<seq<string>> {
    match open
    case None => None
    case Some(stack) =>
      match p
      case StartPiece(tag, _, void) => Some(if void then stack else stack + [tag])
      case EndPiece(tag) =>
        if stack != [] && stack[|stack| - 1] == tag then Some(stack[..|stack| - 1]) else None
      case TextPiece(_) => Some(stack)
  }

  function Scan(ps: seq<Piece>): Option<seq<string>> {
    if ps == [] then Some([]) else ScanPiece(Scan(ps[..|ps| - 1]), ps[|ps| - 1])
  }

  lemma ScanSnoc(ps: seq<Piece>, p: Piece)
    ensures Scan(ps + [p]) == ScanPiece(Scan(ps), p)
  {
    assert (ps + [p])[..|ps|] == ps;
  }

  /** An element that may be written inside the body. */
  predicate AllowedPiece(p: Piece) {
    p.StartPiece? ==> p.tag !in FORBIDDEN && p.void == (p.tag in VOID)
  }

  /** The body element has been opened, and what was written in it since leaves `stack` open. */
  ghost predicate OpenBody(ps: seq<Piece>, stack: seq<string>) {
    && ps != [] && ps[0].StartPiece? && ps[0].tag == "body" && !ps[0].void
    && Scan(ps[1..]) == Some(stack)
    && forall i :: 1 <= i < |ps| ==> AllowedPiece(ps[i])
  }

  /** Exactly one body element, whose contents are balanced and hold no forbidden element. */
  ghost predicate OneBody(ps: seq<Piece>) {
    && |ps| >= 2 && ps[|ps| - 1] == EndPiece("body") && OpenBody(ps[..|ps| - 1], [])
  }

  lemma OpenBodySnoc(ps: seq<Piece>, stack: seq<string>, p: Piece)
    requires OpenBody(ps, stack) && AllowedPiece(p) && ScanPiece(Some(stack), p).Some?
    ensures OpenBody(ps + [p], ScanPiece(Some(stack), p).value)
  {
    assert (ps + [p])[1..] == ps[1..] + [p];
    ScanSnoc(ps[1..], p);
  }

  // ----- Phases of a run -----

  predicate NoBodyOpen(ds: seq<Details>) {
    forall i :: 0 <= i < |ds| ==> ds[i].tag != "body"
  }

  /** Elements on the stack are written under their own name, and are not void. */
  predicate PlainStack(ds: seq<Details>) {
    forall i :: 0 <= i < |ds| ==> ds[i].tag == ds[i].origTag && ds[i].tag !in VOID
  }

  ghost predicate BeforeBody(st: State) {
    !st.visitedBody && !st.inBody && NoBodyOpen(st.ancestors) && st.pieces == []
  }

  ghost predicate InsideBody(st: State) {
    && st.visitedBody && st.inBody
    && |st.ancestors| >= 2 && st.ancestors[0].tag == "html" && st.ancestors[1].tag == "body"
    && NoBodyOpen(st.ancestors[2..])
    && OpenBody(st.pieces, Tags(st.ancestors[2..]))
  }

  /** After a self-closed body tag: the flag is set, but no end tag can clear it any more. */
  ghost predicate StuckInBody(st: State) {
    st.visitedBody && st.inBody && NoBodyOpen(st.ancestors)
  }

  ghost predicate AfterBody(st: State) {
    st.visitedBody && !st.inBody && NoBodyOpen(st.ancestors) && OneBody(st.pieces)
  }

  ghost predicate Phase(st: State) {
    PlainStack(st.ancestors) && (BeforeBody(st) || InsideBody(st) || StuckInBody(st) || AfterBody(st))
  }

  // ----- What the handlers leave alone -----

  /** A handler that is not a body tag changes neither the stack, the pieces nor the flags. */
  ghost predicate SameShape(st: State, st': State) {
    && st'.ancestors == st.ancestors && st'.pieces == st.pieces
    && st'.inBody == st.inBody && st'.visitedBody == st.visitedBody
  }

  lemma SwapAssetShape(site: Site, st: State, orig: string)
    requires SwapAsset(site, st, orig).Ok?
    ensures var st' := SwapAsset(site, st, orig).value.0;
      SameShape(st, st') && st'.allIds == st.allIds && st'.internalHrefs == st.internalHrefs
  {
  }

  lemma DispatchShape(site: Site, st: State, tag: string, attrs: seq<Attribute>)
    requires Dispatch(site, st, tag, attrs).Ok?
    ensures var st' := Dispatch(site, st, tag, attrs).value.st;
      if tag == "body" && !st.inBody
      then InContext(st, ["html"]) && !st.visitedBody && st' == st.(visitedBody := true, inBody := true)
      else SameShape(st, st') && (st.inBody ==> tag !in FORBIDDEN)
    ensures var st' := Dispatch(site, st, tag, attrs).value.st;
      st'.allIds == st.allIds && (!st.inBody ==> st'.internalHrefs == st.internalHrefs)
  {
    hide SwapAsset, ConvertHref, Put, Del, Value, HasClass, NearestPage, SplitOn;
    forall orig | SwapAsset(site, st, orig).Ok?
      ensures var st' := SwapAsset(site, st, orig).value.0;
        SameShape(st, st') && st'.allIds == st.allIds && st'.internalHrefs == st.internalHrefs
    {
      SwapAssetShape(site, st, orig);
    }
  }

  lemma SaveIdShape(h: Handled, tag: string)
    requires SaveId(h, tag).Ok?
    ensures SameShape(h.st, SaveId(h, tag).value.st)
  {
  }

  // ----- One step keeps the phase -----

  lemma TagsSnoc(ds: seq<Details>, d: Details)
    ensures Tags(ds + [d]) == Tags(ds) + [d.tag]
  {
  }

  lemma EmitInside(h: Handled, tag: string, closed: bool)
    requires InsideBody(h.st) && PlainStack(h.st.ancestors) && tag !in FORBIDDEN
    ensures InsideBody(Emit(h, tag, closed)) && PlainStack(Emit(h, tag, closed).ancestors)
  {
    var st, st' := h.st, Emit(h, tag, closed);
    var start := StartPiece(tag, h.attrs, tag in VOID);
    var inner := st.ancestors[2..];
    OpenBodySnoc(st.pieces, Tags(inner), start);
    if tag in VOID {
      assert st'.pieces == st.pieces + [start] && st'.ancestors == st.ancestors;
    } else if closed {
      assert st'.pieces == st.pieces + [start] + [EndPiece(tag)] && st'.ancestors == st.ancestors;
      OpenBodySnoc(st.pieces + [start], Tags(inner) + [tag], EndPiece(tag));
      assert (Tags(inner) + [tag])[..|inner|] == Tags(inner);
    } else {
      var d := Details(tag, tag, h.pageId);
      assert st'.pieces == st.pieces + [start];
      assert st'.ancestors[2..] == inner + [d];
      TagsSnoc(inner, d);
    }
  }

  lemma EmitOutside(h: Handled, tag: string, closed: bool)
    requires !h.st.inBody && PlainStack(h.st.ancestors) && NoBodyOpen(h.st.ancestors) && tag != "body"
    ensures var st' := Emit(h, tag, closed);
      st'.pieces == h.st.pieces && !st'.inBody && st'.visitedBody == h.st.visitedBody
      && PlainStack(st'.ancestors) && NoBodyOpen(st'.ancestors)
  {
    assert Emit(h, tag, closed).pieces == h.st.pieces + [];
  }

  lemma EmitStuck(h: Handled, tag: string, closed: bool)
    requires StuckInBody(h.st) && PlainStack(h.st.ancestors) && tag !in FORBIDDEN
    ensures StuckInBody(Emit(h, tag, closed)) && PlainStack(Emit(h, tag, closed).ancestors)
  {
  }

  lemma EmitBody(h: Handled, closed: bool)
    requires h.st.inBody && h.st.visitedBody && h.st.pieces == [] && InContext(h.st, ["html"])
    requires PlainStack(h.st.ancestors)
    ensures Phase(Emit(h, "body", closed))
  {
    var st, st' := h.st, Emit(h, "body", closed);
    assert |Tags(st.ancestors)| == 1 && Tags(st.ancestors)[0] == "html";
    if closed {
      assert st'.ancestors == st.ancestors;
      assert StuckInBody(st');
    } else {
      var start := StartPiece("body", h.attrs, false);
      assert st'.pieces == [start];
      assert st'.ancestors == st.ancestors + [Details("body", "body", h.pageId)];
      assert st'.ancestors[2..] == [] && Tags(st'.ancestors[2..]) == [];
      assert st'.pieces[1..] == [];
      assert InsideBody(st');
    }
  }

  lemma TagKeepsPhase(site: Site, st: State, tag: string, pairs: seq<Attribute>, closed: bool)
    requires Phase(st) && HandleTag(site, st, tag, pairs, closed).Ok?
    ensures Phase(HandleTag(site, st, tag, pairs, closed).value)
  {
    hide Dispatch, SaveId, Emit, PlainStack, NoBodyOpen, OneBody, OpenBody, Distinct;
    var h := Dispatch(site, st, tag, pairs).value;
    DispatchShape(site, st, tag, pairs);
    SaveIdShape(h, tag);
    var h' := SaveId(h, tag).value;
    if tag == "body" && !st.inBody {
      EmitBody(h', closed);
    } else if InsideBody(st) {
      EmitInside(h', tag, closed);
    } else if StuckInBody(st) {
      EmitStuck(h', tag, closed);
    } else {
      EmitOutside(h', tag, closed);
    }
  }

  lemma EndTagKeepsPhase(st: State, tag: string)
    requires Phase(st) && HandleEndTag(st, tag).Ok?
    ensures Phase(HandleEndTag(st, tag).value)
  {
    hide OpenBody;
    var n := |st.ancestors| - 1;
    var st' := HandleEndTag(st, tag).value;
    var rest := st.ancestors[..n];
    if InsideBody(st) {
      var end := EndPiece(tag);
      if n == 1 {
        assert Tags(st.ancestors[2..]) == [];
        assert st'.pieces[..|st.pieces|] == st.pieces;
        BodyIsLong(st.pieces, []);
      } else {
        var inner := st.ancestors[2..];
        assert Tags(inner)[|inner| - 1] == tag;
        assert Tags(inner)[..|inner| - 1] == Tags(rest[2..]);
        OpenBodySnoc(st.pieces, Tags(inner), end);
      }
    }
  }

  lemma BodyIsLong(ps: seq<Piece>, stack: seq<string>)
    requires OpenBody(ps, stack)
    ensures |ps| >= 1
  {
  }

  lemma DataKeepsPhase(st: State, text: string)
    requires Phase(st)
    ensures Phase(HandleData(st, text))
  {
    hide OneBody, PlainStack, NoBodyOpen;
    if InsideBody(st) {
      OpenBodySnoc(st.pieces, Tags(st.ancestors[2..]), TextPiece(text));
    }
  }

  lemma StepKeepsPhase(site: Site, st: State, e: Event)
    requires Phase(st) && Step(site, st, e).Ok?
    ensures Phase(Step(site, st, e).value)
  {
    hide HandleTag, HandleEndTag, HandleData, Phase;
    match e {
      case StartTag(tag, pairs) => TagKeepsPhase(site, st, tag, pairs, false);
      case StartEndTag(tag, pairs) => TagKeepsPhase(site, st, tag, pairs, true);
      case EndTag(tag) => EndTagKeepsPhase(st, tag);
      case Data(text) => DataKeepsPhase(st, text);
      case _ =>
    }
  }

  lemma {:induction false} RunKeepsPhase(site: Site, events: seq<Event>)
    requires Run(site, events).Ok?
    ensures Phase(Run(site, events).value)
  {
    hide Step;
    if events != [] {
      RunKeepsPhase(site, events[..|events| - 1]);
      StepKeepsPhase(site, Run(site, events[..|events| - 1]).value, events[|events| - 1]);
    }
  }

  /** What an accepted document writes is exactly one body element, balanced and free of forbidden elements. */
  lemma AcceptedIsOneBody(site: Site, events: seq<Event>)
    requires Process(site, events).Ok?
    ensures OneBody(Process(site, events).value.pieces)
  {
    RunKeepsPhase(site, events);
  }

  /** A document with a self-closed body tag is never accepted, whatever comes before and after it. */
  lemma {:induction false} SelfClosedBodyIsRejected(
    site: Site, events: seq<Event>, pairs: seq<Attribute>, more: seq<Event>)
    ensures Process(site, events + [StartEndTag("body", pairs)] + more).Err?
    ensures Run(site, events + [StartEndTag("body", pairs)] + more).Ok? ==>
      var st := Run(site, events + [StartEndTag("body", pairs)] + more).value;
      StuckInBody(st) && PlainStack(st.ancestors)
  {
    var all := events + [StartEndTag("body", pairs)] + more;
    var n := |all| - 1;
    if Run(site, all).Ok? {
      if more == [] {
        assert all[..n] == events && all[n] == StartEndTag("body", pairs);
        RunKeepsPhase(site, events);
        ClosedBodySticks(site, Run(site, events).value, pairs);
      } else {
        assert all[..n] == events + [StartEndTag("body", pairs)] + more[..|more| - 1];
        assert all[n] == more[|more| - 1];
        SelfClosedBodyIsRejected(site, events, pairs, more[..|more| - 1]);
        StepStaysStuck(site, Run(site, all[..n]).value, all[n]);
      }
    }
  }

  lemma ClosedBodySticks(site: Site, st: State, pairs: seq<Attribute>)
    requires Phase(st) && HandleTag(site, st, "body", pairs, true).Ok?
    ensures var st' := HandleTag(site, st, "body", pairs, true).value; StuckInBody(st') && PlainStack(st'.ancestors)
  {
    hide Dispatch, SaveId;
    DispatchShape(site, st, "body", pairs);
    SaveIdShape(Dispatch(site, st, "body", pairs).value, "body");
  }

  lemma StepStaysStuck(site: Site, st: State, e: Event)
    requires StuckInBody(st) && PlainStack(st.ancestors) && Step(site, st, e).Ok?
    ensures StuckInBody(Step(site, st, e).value) && PlainStack(Step(site, st, e).value.ancestors)
  {
    hide Dispatch, SaveId, Emit, Distinct;
    match e {
      case StartTag(tag, pairs) =>
        DispatchShape(site, st, tag, pairs);
        SaveIdShape(Dispatch(site, st, tag, pairs).value, tag);
        EmitStuck(SaveId(Dispatch(site, st, tag, pairs).value, tag).value, tag, false);
      case StartEndTag(tag, pairs) =>
        DispatchShape(site, st, tag, pairs);
        SaveIdShape(Dispatch(site, st, tag, pairs).value, tag);
        EmitStuck(SaveId(Dispatch(site, st, tag, pairs).value, tag).value, tag, true);
      case EndTag(tag) =>
      case _ =>
    }
  }
}
