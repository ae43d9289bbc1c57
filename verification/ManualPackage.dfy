/** Packaging the manual in all its locales: pages, the merged asset table, and the files copied. */
module ManualPackage {
  import opened ByteStrings
  import opened HtmlWriting
  import opened Manual
  import opened ManualLinks
  import opened ManualParser
  import opened Wrappers

  // ----- Links across pages -----

  /** The page a relative reference leads to, as its parts are joined. */
  function LinkedPage(site: Site, href: string): string {
    var parts := NonEmpty(SplitOn(RemoveUps(site.parseUrl(href).path), '/'));
    JoinWith(if parts != [] && parts[0] == TOP_PAGE then parts[1..] else parts, "__")
  }

  /**
    A reference to a heading of another page is rewritten to the id that the heading is
    given there, exactly when the heading is below the page that the reference names.
  */
  lemma LinkMeetsHeading(site: Site, href: string, st: State, heading: seq<Attribute>)
    requires ConvertHref(site, href).Ok? && ConvertHref(site, href).value.1
    requires HasClass(heading, "heading-anchor") && DivTag(st, heading).Ok?
    requires site.parseUrl(href).fragment == Value(heading, "id")
    ensures Back(ConvertHref(site, href).value.0, 1) == Value(DivTag(st, heading).value.attrs, "id")
       <==> NearestPage(st.ancestors) == LinkedPage(site, href)
  {
    hide Put, Value, HasClass, NearestPage, RemoveUps, NonEmpty, SplitOn, JoinWith;
    var id := Value(heading, "id");
    var near, linked := NearestPage(st.ancestors), LinkedPage(site, href);
    PutValue(heading, "id", near + "___" + id, "id");
    assert Back("#" + linked + "___" + id, 1) == linked + "___" + id;
    assert Back("#" + linked + ("___" + id), 1) == linked + ("___" + id) == linked + "___" + id;
    if near + "___" + id == linked + "___" + id {
      var tail := "___" + id;
      assert near + tail == near + "___" + id && linked + tail == linked + "___" + id;
      assert near == (near + tail)[..|near|] && linked == (linked + tail)[..|linked|];
    }
  }

  /** A reference into the top page itself. */
  predicate IntoTopPage(site: Site, href: string) {
    && NonEmpty(SplitOn(RemoveUps(site.parseUrl(href).path), '/')) == [TOP_PAGE]
    && site.parseUrl(href).fragment != ""
  }

  /**
    A reference to a heading of the top page loses the page's name: no page at all is left
    in it.  So it never leads to the heading it names, on whatever page that stands, and to
    no other heading unless the name of a page begins with an underscore.
  */
  lemma TopPageHeadingsAreMissed(site: Site, href: string, st: State, heading: seq<Attribute>)
    requires IntoTopPage(site, href)
    ensures ConvertHref(site, href) == Ok(("#___" + site.parseUrl(href).fragment, true))
    ensures HasClass(heading, "heading-anchor") && DivTag(st, heading).Ok? ==>
      var id := Value(DivTag(st, heading).value.attrs, "id");
      id == "___" + site.parseUrl(href).fragment ==>
        "_" <= NearestPage(st.ancestors) && Value(heading, "id") != site.parseUrl(href).fragment
  {
    hide Put, Value, HasClass, NearestPage, RemoveUps, NonEmpty, SplitOn;
    var fragment := site.parseUrl(href).fragment;
    assert "tor-browser" != ".." && "tor-browser" != ".";
    assert "#" + [] + ("___" + fragment) == "#___" + fragment;
    if HasClass(heading, "heading-anchor") && DivTag(st, heading).Ok? {
      var page, id := NearestPage(st.ancestors), Value(heading, "id");
      PutValue(heading, "id", page + "___" + id, "id");
      if page + "___" + id == "___" + fragment {
        assert (page + "___" + id)[0] == page[0] && ("___" + fragment)[0] == '_';
        assert |page + "___" + id| == |page| + 3 + |id| && |"___" + fragment| == 3 + |fragment|;
      }
    }
  }

  // ----- Merging -----

  predicate Within(part: map<string, string>, whole: map<string, string>) {
    forall name :: name in part ==> name in whole && whole[name] == part[name]
  }

  predicate Agree(a: map<string, string>, b: map<string, string>) {
    forall name :: name in a && name in b ==> a[name] == b[name]
  }

  /** Adds a locale's assets to those of the locales before it. */
  method MergeAssets(all: map<string, string>, table: map<string, string>)
    returns (r: Result<map<string, string>, string>)
    ensures r.Ok? <==> Agree(all, table)
    ensures r.Ok? ==> r.value == all + table
    ensures r.Err? ==> r.error in all && r.error in table && all[r.error] != table[r.error]
  {
    var merged, names := all, table.Keys;
    while names != {}
      invariant names <= table.Keys
      invariant merged.Keys == all.Keys + (table.Keys - names)
      invariant Within(all, merged)
      invariant forall name :: name in table && name !in names ==> merged[name] == table[name]
      decreases names
    {
      var name :| name in names;
      if name !in merged {
        merged := merged[name := table[name]];
      } else if merged[name] != table[name] {
        return Err(name);
      }
      names := names - {name};
    }
    assert merged == all + table;
    return Ok(merged);
  }

  // ----- The package -----

  datatype Failure = Rejected(locale: nat, error: Error) | DuplicateAsset(name: string)

  /** The asset table of an accepted document. */
  function Table(site: Site, document: seq<Event>): map<string, string>
    requires Process(site, document).Ok?
  {
    Process(site, document).value.assets
  }

  /** The file copied under the name of each rewritten reference is the one it named before. */
  ghost predicate CopiesResolve(st: State, copied: map<string, string>, read: string -> string) {
    forall i :: 0 <= i < |st.references| ==>
      st.references[i].name in copied && copied[st.references[i].name] == read(st.references[i].path)
  }

  /** The pages of the first `n` locales are theirs, and `all` is the union of their tables. */
  ghost predicate PackagedUpTo(sites: seq<Site>, documents: seq<seq<Event>>, n: nat, pages: seq<string>,
                               all: map<string, string>)
    requires n <= |sites| == |documents|
  {
    && |pages| == n
    && (forall l :: 0 <= l < n ==> Packaged(sites[l], documents[l], pages[l], all))
    && (forall name :: name in all ==> FromLocale(sites, documents, n, name))
  }

  ghost predicate Packaged(site: Site, document: seq<Event>, page: string, all: map<string, string>) {
    && Process(site, document).Ok? && page == PrintAll(Process(site, document).value.pieces)
    && Within(Table(site, document), all)
  }

  ghost predicate FromLocale(sites: seq<Site>, documents: seq<seq<Event>>, n: nat, name: string)
    requires n <= |sites| == |documents|
  {
    exists l :: 0 <= l < n && Process(sites[l], documents[l]).Ok? && name in Table(sites[l], documents[l])
  }

  /** The pages written are those of the locales before the one that fails. */
  ghost predicate PagesOf(sites: seq<Site>, documents: seq<seq<Event>>, pages: seq<string>)
    requires |pages| <= |sites| == |documents|
  {
    forall l :: 0 <= l < |pages| ==> PageOf(sites[l], documents[l], pages[l])
  }

  ghost predicate PageOf(site: Site, document: seq<Event>, page: string) {
    Process(site, document).Ok? && page == PrintAll(Process(site, document).value.pieces)
  }

  lemma PackagedPages(sites: seq<Site>, documents: seq<seq<Event>>, n: nat, pages: seq<string>,
                      all: map<string, string>)
    requires n <= |sites| == |documents| && PackagedUpTo(sites, documents, n, pages, all)
    ensures |pages| == n && PagesOf(sites, documents, pages)
  {
    hide Packaged, FromLocale, PageOf;
    forall l | 0 <= l < n
      ensures PageOf(sites[l], documents[l], pages[l])
    {
      PackagedPage(sites[l], documents[l], pages[l], all);
    }
  }

  lemma PackagedPage(site: Site, document: seq<Event>, page: string, all: map<string, string>)
    requires Packaged(site, document, page, all)
    ensures PageOf(site, document, page)
  {
    hide Process, PrintAll, Table;
  }

  /**
    Why packaging fails at a locale: its document is not accepted, or it and one before it
    disagree about a name.
  */
  ghost predicate BlamesAt(sites: seq<Site>, documents: seq<seq<Event>>, l: nat, f: Failure)
    requires l < |sites| == |documents|
  {
    match f
    case Rejected(l', e) => l' == l && Process(sites[l], documents[l]) == Err(e)
    case DuplicateAsset(name) =>
      exists k :: 0 <= k < l && Disagree(sites[k], documents[k], sites[l], documents[l], name)
  }

  ghost predicate Disagree(site: Site, document: seq<Event>, site': Site, document': seq<Event>, name: string) {
    && Process(site, document).Ok? && Process(site', document').Ok?
    && name in Table(site, document) && name in Table(site', document')
    && Table(site, document)[name] != Table(site', document')[name]
  }

  lemma MergedHolds(sites: seq<Site>, documents: seq<seq<Event>>, n: nat, pages: seq<string>,
                    all: map<string, string>, page: string, table: map<string, string>, l: nat)
    requires l < n <= |sites| == |documents| && PackagedUpTo(sites, documents, n, pages, all) && Agree(all, table)
    ensures Packaged(sites[l], documents[l], (pages + [page])[l], all + table)
  {
    hide Process, Table, PrintAll, FromLocale;
    assert Packaged(sites[l], documents[l], pages[l], all);
    assert (pages + [page])[l] == pages[l];
  }

  lemma MergedComesFrom(sites: seq<Site>, documents: seq<seq<Event>>, n: nat, pages: seq<string>,
                        all: map<string, string>, name: string)
    requires n < |sites| == |documents| && PackagedUpTo(sites, documents, n, pages, all)
    requires Process(sites[n], documents[n]).Ok? && name in all + Table(sites[n], documents[n])
    ensures FromLocale(sites, documents, n + 1, name)
  {
    hide Process, Table, Packaged;
    if name !in Table(sites[n], documents[n]) {
      assert FromLocale(sites, documents, n, name);
    }
  }

  lemma NewPackaged(site: Site, document: seq<Event>, all: map<string, string>, page: string)
    requires Process(site, document).Ok? && page == PrintAll(Process(site, document).value.pieces)
    ensures Packaged(site, document, page, all + Table(site, document))
  {
    hide Process, PrintAll, Table;
  }

  lemma AllPackaged(sites: seq<Site>, documents: seq<seq<Event>>, n: nat, pages: seq<string>,
                    all: map<string, string>, page: string)
    requires n < |sites| == |documents| && PackagedUpTo(sites, documents, n, pages, all)
    requires Process(sites[n], documents[n]).Ok? && Agree(all, Table(sites[n], documents[n]))
    requires page == PrintAll(Process(sites[n], documents[n]).value.pieces)
    ensures |pages| == n
    ensures forall l :: 0 <= l < n + 1 ==>
      Packaged(sites[l], documents[l], (pages + [page])[l], all + Table(sites[n], documents[n]))
  {
    hide Process, Table, PrintAll, Agree, Packaged, FromLocale;
    forall l | 0 <= l < n + 1
      ensures Packaged(sites[l], documents[l], (pages + [page])[l], all + Table(sites[n], documents[n]))
    {
      if l < n {
        MergedHolds(sites, documents, n, pages, all, page, Table(sites[n], documents[n]), l);
      } else {
        NewPackaged(sites[n], documents[n], all, page);
      }
    }
  }

  lemma AddLocale(sites: seq<Site>, documents: seq<seq<Event>>, n: nat, pages: seq<string>,
                  all: map<string, string>, page: string)
    requires n < |sites| == |documents| && PackagedUpTo(sites, documents, n, pages, all)
    requires Process(sites[n], documents[n]).Ok? && Agree(all, Table(sites[n], documents[n]))
    requires page == PrintAll(Process(sites[n], documents[n]).value.pieces)
    ensures PackagedUpTo(sites, documents, n + 1, pages + [page], all + Table(sites[n], documents[n]))
  {
    hide Process, Table, PrintAll, Agree, Packaged, FromLocale;
    AllPackaged(sites, documents, n, pages, all, page);
    forall name | name in all + Table(sites[n], documents[n])
      ensures FromLocale(sites, documents, n + 1, name)
    {
      MergedComesFrom(sites, documents, n, pages, all, name);
    }
  }

  lemma MergedDisagrees(site: Site, document: seq<Event>, page: string, site': Site, document': seq<Event>,
                        all: map<string, string>, name: string)
    requires Packaged(site, document, page, all) && name in Table(site, document)
    requires Process(site', document').Ok? && name in Table(site', document')
    requires name in all && all[name] != Table(site', document')[name]
    ensures Disagree(site, document, site', document', name)
  {
    hide Process, PrintAll, Table;
  }

  lemma FindLocale(sites: seq<Site>, documents: seq<seq<Event>>, n: nat, pages: seq<string>,
                   all: map<string, string>, name: string)
    returns (l: nat)
    requires n <= |sites| == |documents| && PackagedUpTo(sites, documents, n, pages, all) && name in all
    ensures l < n <= |pages| && Packaged(sites[l], documents[l], pages[l], all)
    ensures Process(sites[l], documents[l]).Ok? && name in Table(sites[l], documents[l])
  {
    hide Process, Table, Packaged;
    assert FromLocale(sites, documents, n, name);
    l :| 0 <= l < n && Process(sites[l], documents[l]).Ok? && name in Table(sites[l], documents[l]);
  }

  lemma ClashIsBlamed(sites: seq<Site>, documents: seq<seq<Event>>, n: nat, pages: seq<string>,
                      all: map<string, string>, name: string)
    requires n < |sites| == |documents| && PackagedUpTo(sites, documents, n, pages, all)
    requires Process(sites[n], documents[n]).Ok?
    requires name in all && name in Table(sites[n], documents[n]) && all[name] != Table(sites[n], documents[n])[name]
    ensures BlamesAt(sites, documents, n, DuplicateAsset(name))
  {
    hide Process, Table, Packaged, PackagedUpTo, Disagree;
    var l := FindLocale(sites, documents, n, pages, all, name);
    MergedDisagrees(sites[l], documents[l], pages[l], sites[n], documents[n], all, name);
  }

  lemma NothingPackaged(sites: seq<Site>, documents: seq<seq<Event>>)
    requires |sites| == |documents|
    ensures PackagedUpTo(sites, documents, 0, [], map[])
  {
  }

  lemma RejectedIsBlamed(sites: seq<Site>, documents: seq<seq<Event>>, l: nat, e: Error)
    requires l < |sites| == |documents| && Process(sites[l], documents[l]) == Err(e)
    ensures BlamesAt(sites, documents, l, Rejected(l, e))
  {
  }

  /**
    `main`: every locale's page and the merged table, or the pages of the locales up to the
    one that fails, and what is to blame there.
  */
  method PackageManual(sites: seq<Site>, documents: seq<seq<Event>>)
    returns (pages: seq<string>, r: Result<map<string, string>, Failure>)
    requires |sites| == |documents|
    ensures |pages| <= |sites| && PagesOf(sites, documents, pages)
    ensures match r
      case Ok(all) => PackagedUpTo(sites, documents, |sites|, pages, all)
      case Err(f) => |pages| < |sites| && BlamesAt(sites, documents, |pages|, f)
  {
    hide Process, PackagedUpTo, BlamesAt, PrintAll, PagesOf;
    var all: map<string, string> := map[];
    pages := [];
    NothingPackaged(sites, documents);
    for n := 0 to |sites|
      invariant PackagedUpTo(sites, documents, n, pages, all)
    {
      PackagedPages(sites, documents, n, pages, all);
      var parser := new Parser(sites[n]);
      var processed := parser.ProcessAll(documents[n]);
      if processed.Err? {
        RejectedIsBlamed(sites, documents, n, processed.error);
        return pages, Err(Rejected(n, processed.error));
      }
      var (content, table) := processed.value;
      var merged := MergeAssets(all, table);
      if merged.Err? {
        ClashIsBlamed(sites, documents, n, pages, all, merged.error);
        return pages, Err(DuplicateAsset(merged.error));
      }
      AddLocale(sites, documents, n, pages, all, content);
      pages, all := pages + [content], merged.value;
    }
    PackagedPages(sites, documents, |sites|, pages, all);
    return pages, Ok(all);
  }

  lemma NeverDisagree(site: Site, document: seq<Event>, page: string, site': Site, document': seq<Event>,
                      page': string, all: map<string, string>, name: string)
    requires Packaged(site, document, page, all) && Packaged(site', document', page', all)
    ensures !Disagree(site, document, site', document', name)
  {
    hide Process, Table, PrintAll;
  }

  /** Nothing can be blamed when the manual can be packaged, so a failure is never spurious. */
  lemma BlameIsRight(sites: seq<Site>, documents: seq<seq<Event>>, l: nat, f: Failure, pages: seq<string>,
                     all: map<string, string>)
    requires l < |sites| == |documents| && PackagedUpTo(sites, documents, |sites|, pages, all)
    ensures !BlamesAt(sites, documents, l, f)
  {
    hide Process, PrintAll, Table, Disagree, FromLocale;
    assert Packaged(sites[l], documents[l], pages[l], all);
    if f.DuplicateAsset? {
      forall k | 0 <= k < l
        ensures !Disagree(sites[k], documents[k], sites[l], documents[l], f.name)
      {
        assert Packaged(sites[k], documents[k], pages[k], all);
        NeverDisagree(sites[k], documents[k], pages[k], sites[l], documents[l], pages[l], all, f.name);
      }
    }
  }

  /** The files copied at the end: under each name, the contents of the file it stands for. */
  function Copied(all: map<string, string>, read: string -> string): map<string, string> {
    map name | name in all :: read(all[name])
  }

  /**
    In a packaged manual, in every locale, each rewritten reference leads to a copy of the
    file that the original reference led to.
  */
  lemma CopiesAreTheOriginals(sites: seq<Site>, documents: seq<seq<Event>>, pages: seq<string>,
                              all: map<string, string>, read: string -> string, l: nat)
    requires l < |sites| == |documents| && PackagedUpTo(sites, documents, |sites|, pages, all)
    ensures Process(sites[l], documents[l]).Ok?
    ensures CopiesResolve(Process(sites[l], documents[l]).value, Copied(all, read), read)
  {
    hide Process, PrintAll, AssetName;
    assert Packaged(sites[l], documents[l], pages[l], all);
    var st := Process(sites[l], documents[l]).value;
    AcceptedLinks(sites[l], documents[l]);
    forall i | 0 <= i < |st.references|
      ensures st.references[i].name in Copied(all, read)
           && Copied(all, read)[st.references[i].name] == read(st.references[i].path)
    {
      assert Recorded(st.assets, st.references[i]);
    }
  }
}
