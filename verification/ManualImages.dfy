/** Images of every accepted manual: what is written leads to a copy of the file that was meant. */
module ManualImages {
  import opened HtmlWriting
  import opened Manual
  import opened ManualLinks
  import opened ManualPackage
  import opened ManualSafety
  import opened Wrappers

  predicate IsImage(e: Event) {
    (e.StartTag? || e.StartEndTag?) && e.tag == "img"
  }

  /** The file an image's source names. */
  function ImageFile(site: Site, pairs: seq<Attribute>): Option<string> {
    site.locate(site.parseUrl(Value(pairs, "src")).path)
  }

  /** What is written for an image: its file's name for the source, every other attribute as it was. */
  ghost predicate WrittenFor(site: Site, pairs: seq<Attribute>, p: Piece) {
    && p.StartPiece? && p.tag == "img" && p.void && ImageFile(site, pairs).Some?
    && Value(p.attrs, "src") == CHROME_ASSETS + AssetName(ImageFile(site, pairs).value)
    && forall name :: name != "src" ==> Value(p.attrs, name) == Value(pairs, name)
  }

  lemma SrcIsPut(pairs: seq<Attribute>, src: string)
    ensures Value(Put(pairs, "src", src), "src") == src
    ensures forall name :: name != "src" ==> Value(Put(pairs, "src", src), name) == Value(pairs, name)
  {
    hide Put, Value;
    PutValue(pairs, "src", src, "src");
    forall name | name != "src"
      ensures Value(Put(pairs, "src", src), name) == Value(pairs, name)
    {
      PutValue(pairs, "src", src, name);
    }
  }

  /** One image event in the body. */
  lemma ImageIsWritten(site: Site, st: State, pairs: seq<Attribute>, closed: bool)
    requires st.inBody && Value(pairs, "src") != "" && HandleTag(site, st, "img", pairs, closed).Ok?
    ensures var st' := HandleTag(site, st, "img", pairs, closed).value;
      && |st'.pieces| == |st.pieces| + 1 && WrittenFor(site, pairs, st'.pieces[|st.pieces|])
      && |st'.references| == |st.references| + 1
      && st'.references[|st.references|].path == ImageFile(site, pairs).value
      && st'.references[|st.references|].name == AssetName(ImageFile(site, pairs).value)
  {
    hide AssetName, Put, Value, Has, Distinct, HasClass;
    var h := Dispatch(site, st, "img", pairs).value;
    SrcIsPut(pairs, CHROME_ASSETS + AssetName(ImageFile(site, pairs).value));
    var h' := SaveId(h, "img").value;
    assert h'.attrs == h.attrs && h'.st.pieces == st.pieces && h'.st.references == h.st.references;
    assert Emit(h', "img", closed).pieces == st.pieces + [StartPiece("img", h.attrs, true)];
  }

  /** A step only adds to what is written and to what is recorded. */
  lemma StepGrows(site: Site, st: State, e: Event)
    requires LinksInv(st) && Step(site, st, e).Ok?
    ensures st.pieces <= Step(site, st, e).value.pieces && st.references <= Step(site, st, e).value.references
  {
    hide Dispatch, SaveId, Distinct, InContext, IdsInv, AssetsInv, PieceSafe;
    match e {
      case StartTag(tag, pairs) => TagGrows(site, st, tag, pairs, false);
      case StartEndTag(tag, pairs) => TagGrows(site, st, tag, pairs, true);
      case _ =>
    }
  }

  lemma TagGrows(site: Site, st: State, tag: string, pairs: seq<Attribute>, closed: bool)
    requires LinksInv(st) && HandleTag(site, st, tag, pairs, closed).Ok?
    ensures var st' := HandleTag(site, st, tag, pairs, closed).value;
      st.pieces <= st'.pieces && st.references <= st'.references
  {
    hide Dispatch, SaveId, Distinct, Ids, AssetsInv, PieceSafe, OnePage;
    var h := Dispatch(site, st, tag, pairs).value;
    DispatchShape(site, st, tag, pairs);
    DispatchSafe(site, st, tag, pairs);
    SaveIdRecords(h, tag, tag in VOID);
  }

  lemma {:induction false} RunGrows(site: Site, events: seq<Event>, k: nat)
    requires k <= |events| && Run(site, events).Ok?
    ensures Run(site, events[..k]).Ok?
    ensures var st, st' := Run(site, events[..k]).value, Run(site, events).value;
      st.pieces <= st'.pieces && st.references <= st'.references
  {
    hide Step, LinksInv;
    var n := |events| - 1;
    if k == |events| {
      assert events[..k] == events;
    } else {
      assert events[..n][..k] == events[..k];
      RunGrows(site, events[..n], k);
      RunKeepsLinks(site, events[..n]);
      StepGrows(site, Run(site, events[..n]).value, events[n]);
    }
  }

  /** The run up to and with one event. */
  lemma RunTo(site: Site, events: seq<Event>, k: nat)
    requires k < |events| && Run(site, events).Ok?
    ensures Run(site, events[..k]).Ok? && Step(site, Run(site, events[..k]).value, events[k]).Ok?
    ensures Run(site, events[..k + 1]) == Step(site, Run(site, events[..k]).value, events[k])
  {
    hide Step;
    RunGrows(site, events, k);
    RunGrows(site, events, k + 1);
    assert events[..k + 1][..k] == events[..k] && events[..k + 1][k] == events[k];
  }

  /**
    An image with a source, in the body of an accepted document, is written as it was but
    for its source, which names the file that the original source named; that file is
    recorded under this name.
  */
  lemma ImageLeadsToItsFile(site: Site, events: seq<Event>, k: nat)
    requires Process(site, events).Ok? && k < |events| && IsImage(events[k])
    ensures Run(site, events[..k]).Ok?
    ensures var st, st' := Run(site, events[..k]).value, Process(site, events).value;
      st.inBody && Value(events[k].pairs, "src") != "" ==>
        && |st.pieces| < |st'.pieces| && WrittenFor(site, events[k].pairs, st'.pieces[|st.pieces|])
        && Recorded(st'.assets, Reference(AssetName(ImageFile(site, events[k].pairs).value),
                                          ImageFile(site, events[k].pairs).value))
  {
    hide Run, HandleTag, Value, LinksInv, AssetName, WrittenFor, ImageFile, Recorded;
    RunTo(site, events, k);
    RunGrows(site, events, k + 1);
    var st, st' := Run(site, events[..k]).value, Process(site, events).value;
    if st.inBody && Value(events[k].pairs, "src") != "" {
      ImageIsWritten(site, st, events[k].pairs, events[k].StartEndTag?);
      AcceptedLinks(site, events);
      var next := Run(site, events[..k + 1]).value;
      assert st'.pieces[|st.pieces|] == next.pieces[|st.pieces|];
      assert st'.references[|st.references|] == next.references[|st.references|];
    }
  }

  /** What is copied under the name in an image's source is the file that was named. */
  ghost predicate CopiedFor(site: Site, pairs: seq<Attribute>, p: Piece, copied: map<string, string>,
                            read: string -> string)
  {
    && WrittenFor(site, pairs, p)
    && var file := ImageFile(site, pairs).value;
       AssetName(file) in copied && copied[AssetName(file)] == read(file)
  }

  /** In a packaged manual every image of every locale leads to a copy of its own file. */
  lemma ImageIsCopied(sites: seq<Site>, documents: seq<seq<Event>>, pages: seq<string>, all: map<string, string>,
                      read: string -> string, l: nat, k: nat)
    requires l < |sites| == |documents| && PackagedUpTo(sites, documents, |sites|, pages, all)
    requires k < |documents[l]| && IsImage(documents[l][k])
    ensures Process(sites[l], documents[l]).Ok? && Run(sites[l], documents[l][..k]).Ok?
    ensures var st, st' := Run(sites[l], documents[l][..k]).value, Process(sites[l], documents[l]).value;
      st.inBody && Value(documents[l][k].pairs, "src") != "" ==>
        |st.pieces| < |st'.pieces|
        && CopiedFor(sites[l], documents[l][k].pairs, st'.pieces[|st.pieces|], Copied(all, read), read)
  {
    hide PrintAll;
    assert Packaged(sites[l], documents[l], pages[l], all);
    hide Process, Run, AssetName, Value, WrittenFor, ImageFile;
    ImageLeadsToItsFile(sites[l], documents[l], k);
    RecordedIsCopied(sites[l], documents[l], pages[l], all, read);
  }

  lemma RecordedIsCopied(site: Site, document: seq<Event>, page: string, all: map<string, string>,
                         read: string -> string)
    requires Packaged(site, document, page, all)
    ensures forall r :: Recorded(Process(site, document).value.assets, r) ==>
      r.name in Copied(all, read) && Copied(all, read)[r.name] == read(r.path)
  {
    hide Process, PrintAll, AssetName;
  }
}
