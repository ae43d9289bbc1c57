/** The body of every accepted manual, read back: what is written is what was meant. */
module ManualBody {
  import opened HtmlReading
  import opened HtmlWriting
  import opened Manual
  import opened ManualSafety
  import opened Wrappers

  // ----- Attribute dictionaries -----

  /** Attributes with well-formed names, each name once. */
  predicate Dict(attrs: seq<Attribute>) {
    NamesOk(attrs) && Distinct(attrs)
  }

  /** What `Put` and `Del` do with an attribute. */
  predicate From(attrs: seq<Attribute>, name: string, a: Attribute) {
    a in attrs || (a.name == name && a.value.Some?)
  }

  lemma {:induction false} PutFrom(attrs: seq<Attribute>, name: string, value: string)
    ensures forall a :: a in Put(attrs, name, value) ==> From(attrs, name, a)
  {
    if attrs != [] {
      PutFrom(attrs[1..], name, value);
    }
  }

  lemma {:induction false} DelFrom(attrs: seq<Attribute>, name: string)
    ensures forall a :: a in Del(attrs, name) ==> a in attrs
  {
    if attrs != [] {
      DelFrom(attrs[1..], name);
    }
  }

  lemma PutTakes(attrs: seq<Attribute>, name: string, value: string)
    requires NoneTaken(attrs) && !("=" <= name)
    ensures NoneTaken(Put(attrs, name, value))
  {
    hide Put;
    PutFrom(attrs, name, value);
    NoneTakenIn(attrs);
    var put := Put(attrs, name, value);
    forall i, j | 0 <= i < |put| && 0 <= j < |put|
      ensures put[i].value.Some? || !("=" <= put[j].name)
    {
      assert From(attrs, name, put[i]) && From(attrs, name, put[j]);
    }
  }

  lemma DelTakes(attrs: seq<Attribute>, name: string)
    requires NoneTaken(attrs)
    ensures NoneTaken(Del(attrs, name))
  {
    hide Del;
    DelFrom(attrs, name);
    NoneTakenIn(attrs);
    var kept := Del(attrs, name);
    forall i, j | 0 <= i < |kept| && 0 <= j < |kept|
      ensures kept[i].value.Some? || !("=" <= kept[j].name)
    {
      assert kept[i] in attrs && kept[j] in attrs;
    }
  }

  lemma NoneTakenIn(attrs: seq<Attribute>)
    requires NoneTaken(attrs)
    ensures forall a, b :: a in attrs && b in attrs ==> a.value.Some? || !("=" <= b.name)
  {
  }

  predicate NamesOk(attrs: seq<Attribute>) {
    forall i :: 0 <= i < |attrs| ==> AttrNameOk(attrs[i].name)
  }

  lemma NamesCons(a: Attribute, rest: seq<Attribute>)
    ensures NamesOk([a] + rest) <==> AttrNameOk(a.name) && NamesOk(rest)
  {
    hide AttrNameOk;
    var all := [a] + rest;
    assert all[0] == a && forall i :: 0 <= i < |rest| ==> rest[i] == all[i + 1];
  }

  lemma DistinctCons(a: Attribute, rest: seq<Attribute>)
    ensures Distinct([a] + rest) <==> Distinct(rest) && !Has(rest, a.name)
  {
    var all := [a] + rest;
    assert all[0] == a && forall i :: 0 <= i < |rest| ==> rest[i] == all[i + 1];
  }

  lemma DictCons(a: Attribute, rest: seq<Attribute>)
    ensures Dict([a] + rest) <==> AttrNameOk(a.name) && Dict(rest) && !Has(rest, a.name)
  {
    hide AttrNameOk, NamesOk, Distinct, Has;
    NamesCons(a, rest);
    DistinctCons(a, rest);
  }

  lemma HasCons(a: Attribute, rest: seq<Attribute>, name: string)
    ensures Has([a] + rest, name) <==> a.name == name || Has(rest, name)
  {
    var all := [a] + rest;
    assert all[0] == a;
    if Has(rest, name) {
      var i :| 0 <= i < |rest| && rest[i].name == name;
      assert all[i + 1] == rest[i];
    }
  }

  lemma {:induction false} PutDict(attrs: seq<Attribute>, name: string, value: string, other: string)
    requires Dict(attrs) && AttrNameOk(name)
    ensures Dict(Put(attrs, name, value))
    ensures Has(Put(attrs, name, value), other) <==> Has(attrs, other) || other == name
  {
    hide AttrNameOk, Dict, Has;
    var a := Attribute(name, Some(value));
    if attrs == [] {
      NoAttributes(other);
      NoAttributes(name);
      assert [a] + [] == [a];
      DictCons(a, []);
      HasCons(a, [], other);
    } else {
      var head, tail := attrs[0], attrs[1..];
      assert attrs == [head] + tail;
      DictCons(head, tail);
      HasCons(head, tail, other);
      if head.name == name {
        DictCons(a, tail);
        HasCons(a, tail, other);
      } else {
        PutDict(tail, name, value, other);
        PutDict(tail, name, value, head.name);
        DictCons(head, Put(tail, name, value));
        HasCons(head, Put(tail, name, value), other);
      }
    }
  }

  lemma {:induction false} DelDict(attrs: seq<Attribute>, name: string, other: string)
    requires Dict(attrs)
    ensures Dict(Del(attrs, name))
    ensures Has(Del(attrs, name), other) <==> Has(attrs, other) && other != name
  {
    hide AttrNameOk, Dict, Has;
    if attrs == [] {
      NoAttributes(other);
    } else {
      var head, tail := attrs[0], attrs[1..];
      assert attrs == [head] + tail;
      DictCons(head, tail);
      HasCons(head, tail, other);
      DelDict(tail, name, other);
      DelDict(tail, name, head.name);
      DictCons(head, Del(tail, name));
      HasCons(head, Del(tail, name), other);
    }
  }

  lemma NoAttributes(name: string)
    ensures Dict([]) && !Has([], name)
  {
  }

  // ----- What handlers leave -----

  /** Attributes that read back: none of them is taken for the value of another. */
  predicate Writable(attrs: seq<Attribute>) {
    Dict(attrs) && NoneTaken(attrs)
  }

  lemma WrittenNamesOk(name: string)
    requires name in {"href", "src", "id", "target", "rel"}
    ensures AttrNameOk(name) && !("=" <= name)
  {
  }

  lemma PutWritable(attrs: seq<Attribute>, name: string, value: string)
    requires Writable(attrs) && name in {"href", "src", "id", "target", "rel"}
    ensures Writable(Put(attrs, name, value))
  {
    hide AttrNameOk, Dict, NoneTaken, Put;
    WrittenNamesOk(name);
    PutDict(attrs, name, value, "");
    PutTakes(attrs, name, value);
  }

  lemma DelWritable(attrs: seq<Attribute>, name: string)
    requires Writable(attrs)
    ensures Writable(Del(attrs, name))
  {
    hide Dict, NoneTaken, Del;
    DelDict(attrs, name, "");
    DelTakes(attrs, name);
  }

  lemma MarkWritable(attrs: seq<Attribute>)
    requires Writable(attrs)
    ensures Writable(MarkExternal(attrs))
  {
    hide Writable, Put;
    PutWritable(attrs, "target", "_blank");
    PutWritable(Put(attrs, "target", "_blank"), "rel", "noreferrer");
  }

  lemma AnchorWritable(site: Site, st: State, attrs: seq<Attribute>)
    requires Writable(attrs) && AnchorTag(site, st, attrs).Ok?
    ensures Writable(AnchorTag(site, st, attrs).value.attrs)
  {
    hide Writable, Put, Del, Value, ConvertHref, MarkExternal;
    DelWritable(attrs, "rel");
    DelWritable(Del(attrs, "rel"), "referrerpolicy");
    DelWritable(Del(Del(attrs, "rel"), "referrerpolicy"), "target");
    var bare := Del(Del(Del(attrs, "rel"), "referrerpolicy"), "target");
    DelWritable(bare, "href");
    MarkWritable(bare);
    var converted := ConvertHref(site, Value(bare, "href"));
    if converted.Ok? {
      PutWritable(bare, "href", converted.value.0);
      MarkWritable(Put(bare, "href", converted.value.0));
    }
  }

  lemma ImgWritable(site: Site, st: State, attrs: seq<Attribute>)
    requires Writable(attrs) && ImgTag(site, st, attrs).Ok?
    ensures Writable(ImgTag(site, st, attrs).value.attrs)
  {
    hide Writable, Put, Value, Has, SwapAsset;
    var swapped := SwapAsset(site, st, Value(attrs, "src"));
    if swapped.Ok? {
      PutWritable(attrs, "src", swapped.value.1);
    }
  }

  lemma DivWritable(st: State, attrs: seq<Attribute>)
    requires Writable(attrs) && DivTag(st, attrs).Ok?
    ensures Writable(DivTag(st, attrs).value.attrs)
  {
    hide Writable, Put, Value, HasClass, NearestPage;
    PutWritable(attrs, "id", NearestPage(st.ancestors) + "___" + Value(attrs, "id"));
  }

  lemma DispatchWritable(site: Site, st: State, tag: string, attrs: seq<Attribute>)
    requires Writable(attrs) && Dispatch(site, st, tag, attrs).Ok?
    ensures Writable(Dispatch(site, st, tag, attrs).value.attrs)
  {
    hide Writable, AnchorTag, ImgTag, DivTag, HtmlTag, LinkTag, BodyTag;
    if st.inBody {
      if tag == "img" {
        ImgWritable(site, st, attrs);
      } else if tag == "a" {
        AnchorWritable(site, st, attrs);
      } else if tag == "div" {
        DivWritable(st, attrs);
      }
    }
  }

  lemma SaveIdWritable(h: Handled, tag: string)
    requires Writable(h.attrs) && SaveId(h, tag).Ok?
    ensures Writable(SaveId(h, tag).value.attrs)
  {
    hide Writable, HasClass, Value, Del;
    DelWritable(h.attrs, "id");
  }

  // ----- Runs -----

  /** A tag event as a tokenizer gives it: a well-formed name, and attributes with such names. */
  predicate EventOk(e: Event) {
    match e
    case StartTag(tag, pairs) => TagNameOk(tag) && NamesOk(pairs) && NoneTaken(pairs)
    case StartEndTag(tag, pairs) => TagNameOk(tag) && NamesOk(pairs) && NoneTaken(pairs)
    case _ => true
  }

  predicate Written(p: Piece) {
    match p
    case StartPiece(tag, attrs, _) => TagNameOk(tag) && Writable(attrs)
    case EndPiece(tag) => TagNameOk(tag)
    case TextPiece(_) => true
  }

  ghost predicate WrittenWell(st: State) {
    && (forall i :: 0 <= i < |st.pieces| ==> Written(st.pieces[i]))
    && (forall i :: 0 <= i < |st.ancestors| ==> TagNameOk(st.ancestors[i].tag))
  }

  lemma EmitWritesWell(h: Handled, tag: string, closed: bool)
    requires WrittenWell(h.st) && TagNameOk(tag) && Writable(h.attrs)
    ensures WrittenWell(Emit(h, tag, closed))
  {
    hide TagNameOk, Writable;
  }

  lemma TagWritesWell(site: Site, st: State, tag: string, pairs: seq<Attribute>, closed: bool)
    requires WrittenWell(st) && TagNameOk(tag) && NamesOk(pairs) && NoneTaken(pairs)
    requires HandleTag(site, st, tag, pairs, closed).Ok?
    ensures WrittenWell(HandleTag(site, st, tag, pairs, closed).value)
  {
    hide TagNameOk, Dispatch, SaveId, Emit, Written, NamesOk, NoneTaken, Distinct;
    var h := Dispatch(site, st, tag, pairs).value;
    assert Writable(pairs);
    DispatchWritable(site, st, tag, pairs);
    DispatchShape(site, st, tag, pairs);
    SaveIdWritable(h, tag);
    SaveIdShape(h, tag);
    EmitWritesWell(SaveId(h, tag).value, tag, closed);
  }

  lemma StepWritesWell(site: Site, st: State, e: Event)
    requires WrittenWell(st) && EventOk(e) && Step(site, st, e).Ok?
    ensures WrittenWell(Step(site, st, e).value)
  {
    hide TagNameOk, NamesOk, NoneTaken, HandleTag, InContext;
    match e {
      case StartTag(tag, pairs) => TagWritesWell(site, st, tag, pairs, false);
      case StartEndTag(tag, pairs) => TagWritesWell(site, st, tag, pairs, true);
      case _ =>
    }
  }

  /** At any point of any run the pieces written have well-formed names and no attribute twice. */
  lemma {:induction false} RunWritesWell(site: Site, events: seq<Event>)
    requires Run(site, events).Ok? && forall i :: 0 <= i < |events| ==> EventOk(events[i])
    ensures WrittenWell(Run(site, events).value)
  {
    hide Step, EventOk, Written, TagNameOk;
    if events != [] {
      var n := |events| - 1;
      RunWritesWell(site, events[..n]);
      StepWritesWell(site, Run(site, events[..n]).value, events[n]);
    }
  }

  lemma WrittenIsOk(p: Piece)
    requires Written(p)
    ensures PieceOk(p)
  {
    hide AttrNameOk, TagNameOk, NoneTaken;
  }

  // ----- Elements that hold only text -----

  /** Where a document stands: before its body, at some place in it, or past it. */
  datatype Stage = Before | At(place: Place) | Past

  function OnEvent(stage: Stage, e: Event): Option<Stage> {
    match stage
    case Before => Some(if (e.StartTag? || e.StartEndTag?) && e.tag == "body" then At(Outside(false)) else Before)
    case Past => Some(Past)
    case At(place) =>
      match e
      case StartTag(tag, _) => Placed(OnStart(place, tag))
      case StartEndTag(tag, _) =>
        if OnStart(place, tag).None? then None else Placed(OnEnd(OnStart(place, tag).value, tag))
      case EndTag(tag) =>
        if tag != "body" then Placed(OnEnd(place, tag)) else if place.Outside? then Some(Past) else None
      case _ => Some(stage)
  }

  function Placed(at: Option<Place>): Option<Stage> {
    match at case None => None case Some(place) => Some(At(place))
  }

  /**
    The stage a document's events reach; there is none when, in the body, an element that
    holds only text holds another, or one stands where its contents are not read.
  */
  function Reached(events: seq<Event>): Option<Stage> {
    if events == [] then Some(Before)
    else
      match Reached(events[..|events| - 1])
      case None => None
      case Some(stage) => OnEvent(stage, events[|events| - 1])
  }

  /** The pieces written lead to where the events are, while the body is open. */
  ghost predicate InStage(st: State, stage: Stage) {
    if !st.visitedBody then stage.Before? && st.pieces == [] && !st.inBody
    else if st.inBody then stage.At? && Lead(Outside(false), st.pieces) == Some(stage.place)
    else stage.Past? && Flat(Outside(false), st.pieces)
  }

  lemma {:induction false} LeadSnoc(at: Place, ps: seq<Piece>, p: Piece)
    ensures Lead(at, ps + [p]) == if Lead(at, ps).None? then None else OnPiece(Lead(at, ps).value, p)
    decreases |ps|
  {
    hide OnPiece;
    if ps == [] {
      assert ps + [p] == [p] && [p][1..] == [];
    } else {
      assert (ps + [p])[0] == ps[0] && (ps + [p])[1..] == ps[1..] + [p];
      if OnPiece(at, ps[0]).Some? {
        LeadSnoc(OnPiece(at, ps[0]).value, ps[1..], p);
      }
    }
  }

  lemma NoRawVoids(at: Place, tag: string)
    requires tag in VOID
    ensures OnStart(at, tag).Some? ==> OnEnd(OnStart(at, tag).value, tag) == OnStart(at, tag)
    ensures !Switches(tag)
  {
  }

  /** Writing a tag leads where the event leads. */
  lemma EmitLeads(h: Handled, tag: string, closed: bool, at: Place)
    requires h.st.inBody && Lead(Outside(false), h.st.pieces) == Some(at) && OnStart(at, tag).Some?
    requires closed ==> OnEnd(OnStart(at, tag).value, tag).Some?
    ensures Lead(Outside(false), Emit(h, tag, closed).pieces)
         == if closed then OnEnd(OnStart(at, tag).value, tag) else OnStart(at, tag)
  {
    hide OnStart, OnEnd, Switches;
    var start := StartPiece(tag, h.attrs, tag in VOID);
    LeadSnoc(Outside(false), h.st.pieces, start);
    if tag in VOID {
      NoRawVoids(at, tag);
      assert Emit(h, tag, closed).pieces == h.st.pieces + [start];
    } else if closed {
      assert Emit(h, tag, closed).pieces == h.st.pieces + [start] + [EndPiece(tag)];
      LeadSnoc(Outside(false), h.st.pieces + [start], EndPiece(tag));
    } else {
      assert Emit(h, tag, closed).pieces == h.st.pieces + [start];
    }
  }

  lemma EmitQuiet(h: Handled, tag: string, closed: bool)
    requires !h.st.inBody
    ensures var st' := Emit(h, tag, closed);
      st'.pieces == h.st.pieces && !st'.inBody && st'.visitedBody == h.st.visitedBody
  {
    assert Emit(h, tag, closed).pieces == h.st.pieces + [];
  }

  lemma EmitFlags(h: Handled, tag: string, closed: bool)
    ensures var st' := Emit(h, tag, closed); st'.inBody == h.st.inBody && st'.visitedBody == h.st.visitedBody
  {
  }

  lemma BodyStarts()
    ensures OnStart(Outside(false), "body") == Some(Outside(false))
  {
  }

  lemma TagStaysInStage(site: Site, st: State, stage: Stage, tag: string, pairs: seq<Attribute>, closed: bool)
    requires InStage(st, stage) && HandleTag(site, st, tag, pairs, closed).Ok?
    requires OnEvent(stage, if closed then StartEndTag(tag, pairs) else StartTag(tag, pairs)).Some?
    ensures InStage(HandleTag(site, st, tag, pairs, closed).value,
                    OnEvent(stage, if closed then StartEndTag(tag, pairs) else StartTag(tag, pairs)).value)
  {
    hide Dispatch, SaveId, Emit, Distinct, Lead, OnStart, OnEnd, InContext;
    var h := Dispatch(site, st, tag, pairs).value;
    DispatchShape(site, st, tag, pairs);
    SaveIdShape(h, tag);
    var h' := SaveId(h, tag).value;
    EmitFlags(h', tag, closed);
    if !h'.st.inBody {
      EmitQuiet(h', tag, closed);
    } else if st.inBody {
      EmitLeads(h', tag, closed, stage.place);
    } else {
      NothingLeads();
      BodyStarts();
      BodyEnds();
      EmitLeads(h', tag, closed, Outside(false));
    }
  }

  lemma BodyEnds()
    ensures OnEnd(Outside(false), "body") == Some(Outside(false))
  {
  }

  lemma NothingLeads()
    ensures Lead(Outside(false), []) == Some(Outside(false))
  {
  }

  lemma StepStaysInStage(site: Site, st: State, stage: Stage, e: Event)
    requires Phase(st) && InStage(st, stage) && Step(site, st, e).Ok? && OnEvent(stage, e).Some?
    ensures InStage(Step(site, st, e).value, OnEvent(stage, e).value)
  {
    hide HandleTag, Lead, InContext, Phase, OnStart;
    match e {
      case StartTag(tag, pairs) => TagStaysInStage(site, st, stage, tag, pairs, false);
      case StartEndTag(tag, pairs) => TagStaysInStage(site, st, stage, tag, pairs, true);
      case EndTag(tag) =>
        PlainTop(st, tag);
        LeadSnoc(Outside(false), st.pieces, EndPiece(tag));
      case Data(text) => LeadSnoc(Outside(false), st.pieces, TextPiece(text));
      case _ =>
    }
  }

  /** An element is written under the name of its end tag. */
  lemma PlainTop(st: State, tag: string)
    requires Phase(st) && HandleEndTag(st, tag).Ok?
    ensures st.ancestors[|st.ancestors| - 1].tag == tag
  {
  }

  lemma {:induction false} RunStaysInStage(site: Site, events: seq<Event>)
    requires Run(site, events).Ok? && Reached(events).Some?
    ensures InStage(Run(site, events).value, Reached(events).value)
  {
    hide Step, OnEvent, Phase, Flat, Lead;
    if events != [] {
      var n := |events| - 1;
      RunStaysInStage(site, events[..n]);
      RunKeepsPhase(site, events[..n]);
      StepStaysInStage(site, Run(site, events[..n]).value, Reached(events[..n]).value, events[n]);
    }
  }

  // ----- Plain text in them -----

  predicate PlainPiece(at: Place, p: Piece) {
    at.In? && p.TextPiece? ==> Plain(p.text, at.tag in RCDATA)
  }

  /** No text in such an element would be read otherwise. */
  predicate PlainFrom(at: Place, ps: seq<Piece>)
    decreases |ps|
  {
    ps == [] || (PlainPiece(at, ps[0]) && (OnPiece(at, ps[0]).Some? ==> PlainFrom(OnPiece(at, ps[0]).value, ps[1..])))
  }

  lemma {:induction false} PlainSnoc(at: Place, ps: seq<Piece>, p: Piece)
    requires Lead(at, ps).Some?
    ensures PlainFrom(at, ps + [p]) <==> PlainFrom(at, ps) && PlainPiece(Lead(at, ps).value, p)
    decreases |ps|
  {
    hide OnPiece, PlainPiece;
    if ps == [] {
      assert ps + [p] == [p] && [p][1..] == [];
    } else {
      assert (ps + [p])[0] == ps[0] && (ps + [p])[1..] == ps[1..] + [p];
      PlainSnoc(OnPiece(at, ps[0]).value, ps[1..], p);
    }
  }

  lemma PlainSplits(a: string, b: string, references: bool)
    ensures Plain(a + b, references) <==> Plain(a, references) && Plain(b, references)
  {
    var s := a + b;
    assert forall i :: 0 <= i < |a| ==> s[i] == a[i];
    assert forall i :: 0 <= i < |b| ==> s[|a| + i] == b[i];
    assert forall i :: |a| <= i < |s| ==> s[i] == b[i - |a|];
  }

  lemma {:induction false} ContentsPlain(at: Place, ps: seq<Piece>)
    requires at.In?
    ensures PlainFrom(at, ps) <==> Plain(Contents(ps).0, at.tag in RCDATA) && PlainFrom(at, Contents(ps).1)
    decreases |ps|
  {
    if ps != [] && ps[0].TextPiece? {
      hide Plain;
      ContentsPlain(at, ps[1..]);
      PlainSplits(ps[0].text, Contents(ps[1..]).0, at.tag in RCDATA);
    }
  }

  /** Which says the same of whole contents. */
  lemma {:induction false} PlainIffSurvives(ps: seq<Piece>, foreign: bool)
    requires Flat(Outside(foreign), ps)
    ensures PlainFrom(Outside(foreign), ps) <==> Survives(ps)
    decreases |ps|
  {
    hide Plain, Switches, Contents;
    if ps != [] {
      var at := Outside(foreign);
      FlatTail(at, ps);
      var next := OnPiece(at, ps[0]).value;
      hide Flat;
      if RawStart(ps[0]) {
        var more := Contents(ps[1..]).1;
        ContentsShrink(ps[1..]);
        ContentsEnd(next, ps[1..]);
        ContentsPlain(next, ps[1..]);
        PlainIffSurvives(more, foreign);
      } else {
        PlainIffSurvives(ps[1..], next.foreign);
      }
    }
  }

  /** Text that stands in such an element of the body is plain. */
  predicate PlainEvent(stage: Option<Stage>, e: Event) {
    stage.Some? && stage.value.At? && stage.value.place.In? && e.Data? ==>
      Plain(e.text, stage.value.place.tag in RCDATA)
  }

  /** All text of the document that stands in elements such as `style`, in its body, needs no escapes. */
  predicate PlainEvents(events: seq<Event>) {
    events == []
    || (PlainEvents(events[..|events| - 1]) && PlainEvent(Reached(events[..|events| - 1]), events[|events| - 1]))
  }

  lemma EmitPlain(h: Handled, tag: string, closed: bool, at: Place)
    requires h.st.inBody && Lead(Outside(false), h.st.pieces) == Some(at) && OnStart(at, tag).Some?
    ensures PlainFrom(Outside(false), Emit(h, tag, closed).pieces) == PlainFrom(Outside(false), h.st.pieces)
  {
    hide OnStart, OnEnd, PlainFrom, Lead;
    var start := StartPiece(tag, h.attrs, tag in VOID);
    PlainSnoc(Outside(false), h.st.pieces, start);
    LeadSnoc(Outside(false), h.st.pieces, start);
    if tag !in VOID && closed {
      assert Emit(h, tag, closed).pieces == h.st.pieces + [start] + [EndPiece(tag)];
      PlainSnoc(Outside(false), h.st.pieces + [start], EndPiece(tag));
    } else {
      assert Emit(h, tag, closed).pieces == h.st.pieces + [start];
    }
  }

  lemma NothingIsPlain()
    ensures PlainFrom(Outside(false), [])
  {
  }

  lemma TagStaysPlain(site: Site, st: State, stage: Stage, tag: string, pairs: seq<Attribute>, closed: bool)
    requires InStage(st, stage) && HandleTag(site, st, tag, pairs, closed).Ok?
    requires OnEvent(stage, if closed then StartEndTag(tag, pairs) else StartTag(tag, pairs)).Some?
    ensures PlainFrom(Outside(false), HandleTag(site, st, tag, pairs, closed).value.pieces)
         == PlainFrom(Outside(false), st.pieces)
  {
    hide Dispatch, SaveId, Emit, Distinct, Lead, OnStart, OnEnd, InContext, PlainFrom, Flat;
    var h := Dispatch(site, st, tag, pairs).value;
    DispatchShape(site, st, tag, pairs);
    SaveIdShape(h, tag);
    var h' := SaveId(h, tag).value;
    EmitFlags(h', tag, closed);
    if !h'.st.inBody {
      EmitQuiet(h', tag, closed);
    } else if st.inBody {
      EmitPlain(h', tag, closed, stage.place);
    } else {
      NothingLeads();
      BodyStarts();
      EmitPlain(h', tag, closed, Outside(false));
    }
  }

  lemma StepStaysPlain(site: Site, st: State, stage: Stage, e: Event)
    requires Phase(st) && InStage(st, stage) && Step(site, st, e).Ok? && OnEvent(stage, e).Some?
    ensures PlainFrom(Outside(false), Step(site, st, e).value.pieces)
       <==> PlainFrom(Outside(false), st.pieces) && PlainEvent(Some(stage), e)
  {
    hide HandleTag, Lead, InContext, Phase, OnStart, OnEnd, PlainFrom, Plain, Flat;
    match e {
      case StartTag(tag, pairs) => TagStaysPlain(site, st, stage, tag, pairs, false);
      case StartEndTag(tag, pairs) => TagStaysPlain(site, st, stage, tag, pairs, true);
      case EndTag(tag) =>
        PlainTop(st, tag);
        if st.inBody {
          PlainSnoc(Outside(false), st.pieces, EndPiece(tag));
        }
      case Data(text) =>
        if st.inBody {
          PlainSnoc(Outside(false), st.pieces, TextPiece(text));
        }
      case _ =>
    }
  }

  /** At any point of any run, what is written is plain exactly when the events are. */
  lemma {:induction false} RunStaysPlain(site: Site, events: seq<Event>)
    requires Run(site, events).Ok? && Reached(events).Some?
    ensures PlainFrom(Outside(false), Run(site, events).value.pieces) <==> PlainEvents(events)
  {
    hide Step, OnEvent, Phase, PlainFrom, InStage, PlainEvent;
    if events == [] {
      NothingIsPlain();
    } else {
      var n := |events| - 1;
      RunStaysPlain(site, events[..n]);
      RunStaysInStage(site, events[..n]);
      RunKeepsPhase(site, events[..n]);
      StepStaysPlain(site, Run(site, events[..n]).value, Reached(events[..n]).value, events[n]);
    }
  }

  // ----- Accepted documents -----

  lemma AcceptedIsFlat(site: Site, events: seq<Event>)
    requires Process(site, events).Ok? && Reached(events).Some?
    requires forall i :: 0 <= i < |events| ==> EventOk(events[i])
    ensures var pieces := Process(site, events).value.pieces;
      && (forall p :: p in pieces ==> PieceOk(p)) && Flat(Outside(false), pieces)
      && (Survives(pieces) <==> PlainEvents(events))
  {
    hide Run, PieceOk, Written, EventOk, Survives, Flat, Lead, Reached, PlainFrom, PlainEvents;
    RunWritesWell(site, events);
    RunStaysInStage(site, events);
    RunStaysPlain(site, events);
    var pieces := Process(site, events).value.pieces;
    forall p | p in pieces
      ensures PieceOk(p)
    {
      WrittenIsOk(p);
    }
    PlainIffSurvives(pieces, false);
  }

  /**
    The body of every accepted document is read as `AsRead` gives it, and as the tags,
    attributes and text that were written exactly when no text of the document that stands
    in an element such as `style` needs escapes, which a reader does not undo there.
  */
  lemma AcceptedBodyReadsBackIff(site: Site, events: seq<Event>)
    requires Process(site, events).Ok? && Reached(events).Some?
    requires forall i :: 0 <= i < |events| ==> EventOk(events[i])
    ensures var pieces := Process(site, events).value.pieces;
      && ReadTokens(PrintAll(pieces), false) == Some(Tokens(AsRead(pieces)))
      && (ReadTokens(PrintAll(pieces), false) == Some(Tokens(pieces)) <==> PlainEvents(events))
  {
    hide *;
    AcceptedIsFlat(site, events);
    var pieces := Process(site, events).value.pieces;
    PrintReadsAs(pieces, false);
    PrintReadsBackIff(pieces, false);
  }
}
