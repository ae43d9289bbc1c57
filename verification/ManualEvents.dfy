/** What each event of an accepted manual adds to what is written, and what was permitted. */
module ManualEvents {
  import opened ByteStrings
  import opened HtmlWriting
  import opened Manual
  import opened ManualImages
  import opened ManualLinks
  import opened ManualSafety
  import opened Wrappers

  // ----- Attributes that are left alone -----

  /** The attributes of other names, in order. */
  function Others(attrs: seq<Attribute>, names: set<string>): seq<Attribute> {
    if attrs == [] then []
    else (if attrs[0].name in names then [] else [attrs[0]]) + Others(attrs[1..], names)
  }

  /** The same attributes in the same order, but for the values of one name. */
  predicate SameBut(attrs: seq<Attribute>, pairs: seq<Attribute>, name: string) {
    && |attrs| == |pairs|
    && forall i :: 0 <= i < |pairs| ==>
         attrs[i].name == pairs[i].name && (pairs[i].name != name ==> attrs[i] == pairs[i])
  }

  lemma {:induction false} DelIsOthers(attrs: seq<Attribute>, name: string, names: set<string>)
    ensures Others(Del(attrs, name), names) == Others(attrs, names + {name})
  {
    if attrs != [] {
      DelIsOthers(attrs[1..], name, names);
      if attrs[0].name != name {
        assert ([attrs[0]] + Del(attrs[1..], name))[1..] == Del(attrs[1..], name);
      }
    }
  }

  lemma {:induction false} OthersOfNone(attrs: seq<Attribute>)
    ensures Others(attrs, {}) == attrs
  {
    if attrs != [] {
      OthersOfNone(attrs[1..]);
    }
  }

  lemma {:induction false} OthersHave(attrs: seq<Attribute>, names: set<string>, name: string)
    ensures Has(Others(attrs, names), name) <==> Has(attrs, name) && name !in names
  {
    if attrs != [] {
      var head, tail := attrs[0], attrs[1..];
      assert attrs == [head] + tail;
      OthersHave(tail, names, name);
      HasFirst(head, tail, name);
      HasFirst(head, Others(tail, names), name);
      assert [] + Others(tail, names) == Others(tail, names);
    }
  }

  lemma HasFirst(a: Attribute, rest: seq<Attribute>, name: string)
    ensures Has([a] + rest, name) <==> a.name == name || Has(rest, name)
  {
    var all := [a] + rest;
    assert all[0] == a && forall i :: 0 <= i < |rest| ==> all[i + 1] == rest[i];
  }

  lemma {:induction false} OthersValue(attrs: seq<Attribute>, names: set<string>, name: string)
    requires name !in names
    ensures Value(Others(attrs, names), name) == Value(attrs, name)
  {
    if attrs != [] {
      var rest := Others(attrs[1..], names);
      OthersValue(attrs[1..], names, name);
      ValueFirst(attrs[0], attrs[1..], name);
      ValueFirst(attrs[0], rest, name);
      assert [] + rest == rest && attrs == [attrs[0]] + attrs[1..];
      hide Value;
    }
  }

  lemma ValueFirst(a: Attribute, rest: seq<Attribute>, name: string)
    ensures Value([a] + rest, name)
         == if a.name != name then Value(rest, name) else if a.value.Some? then a.value.value else ""
  {
    assert ([a] + rest)[1..] == rest;
  }

  lemma {:induction false} PutInPlace(attrs: seq<Attribute>, name: string, value: string)
    requires Has(attrs, name)
    ensures SameBut(Put(attrs, name, value), attrs, name)
  {
    if attrs[0].name != name {
      assert attrs == [attrs[0]] + attrs[1..];
      HasFirst(attrs[0], attrs[1..], name);
      PutInPlace(attrs[1..], name, value);
    }
  }

  lemma {:induction false} PutAtEnd(attrs: seq<Attribute>, name: string, value: string)
    requires !Has(attrs, name)
    ensures Put(attrs, name, value) == attrs + [Attribute(name, Some(value))]
  {
    if attrs != [] {
      assert attrs == [attrs[0]] + attrs[1..];
      HasFirst(attrs[0], attrs[1..], name);
      PutAtEnd(attrs[1..], name, value);
    }
  }

  lemma {:induction false} ValueIsThere(attrs: seq<Attribute>, name: string)
    requires Value(attrs, name) != ""
    ensures Has(attrs, name)
  {
    if attrs[0].name != name {
      ValueIsThere(attrs[1..], name);
      assert attrs == [attrs[0]] + attrs[1..];
      HasFirst(attrs[0], attrs[1..], name);
    }
  }

  lemma ThreeDropped(attrs: seq<Attribute>)
    ensures Del(Del(Del(attrs, "rel"), "referrerpolicy"), "target")
         == Others(attrs, {"rel", "referrerpolicy", "target"})
  {
    var one := Del(attrs, "rel");
    var two := Del(one, "referrerpolicy");
    OthersOfNone(Del(two, "target"));
    DelIsOthers(two, "target", {});
    DelIsOthers(one, "referrerpolicy", {"target"});
    DelIsOthers(attrs, "rel", {"target", "referrerpolicy"});
    assert {} + {"target"} == {"target"} && {"target"} + {"referrerpolicy"} == {"target", "referrerpolicy"};
    assert {"target", "referrerpolicy"} + {"rel"} == {"rel", "referrerpolicy", "target"};
  }

  // ----- Classes -----

  /** A class stands in the list, between spaces or at its ends. */
  ghost predicate InClassList(list: string, name: string) {
    exists a, b :: list == a + (name + b) && SpaceBefore(a) && SpaceBehind(b)
  }

  predicate SpaceBefore(a: string) {
    a == "" || a[|a| - 1] == ' '
  }

  predicate SpaceBehind(b: string) {
    b == "" || b[0] == ' '
  }

  /** Where the first of the characters is, or the end. */
  function Upto(s: string, c: char): (n: nat)
    ensures n <= |s| && c !in s[..n] && (n < |s| ==> s[n] == c)
  {
    if s == [] || s[0] == c then 0
    else
      var n := Upto(s[1..], c);
      assert s[..n + 1] == [s[0]] + s[1..][..n];
      n + 1
  }

  lemma NotBefore(s: string, c: char, n: nat)
    requires n <= |s| && c !in s[..n]
    ensures forall k :: 0 <= k < n ==> s[k] != c
  {
    assert forall k :: 0 <= k < n ==> s[k] == s[..n][k];
  }

  lemma UptoIs(s: string, c: char, n: nat)
    requires n <= |s| && c !in s[..n] && (n < |s| ==> s[n] == c)
    ensures Upto(s, c) == n
  {
    NotBefore(s, c, n);
    NotBefore(s, c, Upto(s, c));
  }

  /** What stands behind the first of the characters, split. */
  function RestSplit(s: string, c: char): seq<string> {
    var n := Upto(s, c);
    if n == |s| then [] else SplitOn(s[n + 1..], c)
  }

  lemma {:induction false} SplitFirst(s: string, c: char)
    ensures SplitOn(s, c) == [s[..Upto(s, c)]] + RestSplit(s, c)
  {
    hide *;
    if s == [] || s[0] == c {
      SplitHere(s, c);
    } else {
      SplitFirst(s[1..], c);
      SplitBehind(s, c);
      FirstOfRest(s[1..][..Upto(s[1..], c)], RestSplit(s[1..], c));
    }
  }

  lemma SplitHere(s: string, c: char)
    requires s == [] || s[0] == c
    ensures SplitOn(s, c) == [s[..Upto(s, c)]] + RestSplit(s, c)
  {
  }

  lemma SplitBehind(s: string, c: char)
    requires s != [] && s[0] != c
    ensures s[..Upto(s, c)] == [s[0]] + s[1..][..Upto(s[1..], c)] && RestSplit(s, c) == RestSplit(s[1..], c)
    ensures var rest := SplitOn(s[1..], c); SplitOn(s, c) == [[s[0]] + rest[0]] + rest[1..]
  {
    hide SplitOn;
    var n := Upto(s[1..], c);
    assert n + 1 < |s| ==> s[n + 2..] == s[1..][n + 1..];
    SplitOne(s, c);
  }

  lemma SplitOne(s: string, c: char)
    requires s != [] && s[0] != c
    ensures var rest := SplitOn(s[1..], c); SplitOn(s, c) == [[s[0]] + rest[0]] + rest[1..]
  {
  }

  lemma FirstOfRest<T>(x: T, rest: seq<T>)
    ensures ([x] + rest)[0] == x && ([x] + rest)[1..] == rest
  {
  }

  lemma Listed(list: string, a: string, name: string, b: string)
    requires list == a + (name + b) && SpaceBefore(a) && SpaceBehind(b)
    ensures InClassList(list, name)
  {
  }

  lemma Listing(list: string, name: string) returns (a: string, b: string)
    requires InClassList(list, name)
    ensures list == a + (name + b) && SpaceBefore(a) && SpaceBehind(b)
  {
    a, b :| list == a + (name + b) && SpaceBefore(a) && SpaceBehind(b);
  }

  lemma ListedFirst(list: string, name: string)
    requires ' ' !in name && name == list[..Upto(list, ' ')]
    ensures InClassList(list, name)
  {
    var n := Upto(list, ' ');
    assert list == name + list[n..] && "" + (name + list[n..]) == name + list[n..];
    Listed(list, "", name, list[n..]);
  }

  lemma ListedLater(list: string, name: string)
    requires Upto(list, ' ') < |list| && InClassList(list[Upto(list, ' ') + 1..], name)
    ensures InClassList(list, name)
  {
    var n := Upto(list, ' ');
    hide InClassList, Upto, SpaceBehind;
    var a, b := Listing(list[n + 1..], name);
    MoreInFront(list, n + 1, a, name + b);
    assert SpaceBefore(list[..n + 1] + a);
    Listed(list, list[..n + 1] + a, name, b);
  }

  lemma MoreInFront(list: string, n: nat, a: string, rest: string)
    requires n <= |list| && list[n..] == a + rest
    ensures list == (list[..n] + a) + rest
  {
    Assoc(list[..n], a, rest);
    assert list == list[..n] + list[n..];
  }

  lemma ListedWhere(list: string, name: string)
    requires ' ' !in name && InClassList(list, name)
    ensures var n := Upto(list, ' '); name == list[..n] || (n < |list| && InClassList(list[n + 1..], name))
  {
    var n := Upto(list, ' ');
    hide InClassList, Upto, SpaceBehind;
    var a, b := Listing(list, name);
    if a == "" {
      StartsWithName(list, name, b);
    } else {
      BehindSpace(list, a, name + b);
      assert SpaceBefore(a[n + 1..]);
      Listed(list[n + 1..], a[n + 1..], name, b);
    }
  }

  lemma StartsWithName(list: string, name: string, b: string)
    requires ' ' !in name && list == "" + (name + b) && SpaceBehind(b)
    ensures name == list[..Upto(list, ' ')]
  {
    assert list == name + b && list[..|name|] == name;
    UptoIs(list, ' ', |name|);
  }

  lemma BehindSpace(list: string, a: string, rest: string)
    requires a != "" && list == a + rest && SpaceBefore(a)
    ensures var n := Upto(list, ' '); n < |a| && list[n + 1..] == a[n + 1..] + rest
  {
    var n := Upto(list, ' ');
    NotBefore(list, ' ', n);
    assert list[|a| - 1] == ' ';
  }

  /** The test for a class is one for its place in the list. */
  lemma {:induction false} SplitHas(list: string, name: string)
    requires ' ' !in name
    ensures name in SplitOn(list, ' ') <==> InClassList(list, name)
    decreases |list|
  {
    hide SplitOn, InClassList;
    var n := Upto(list, ' ');
    SplitFirst(list, ' ');
    if n < |list| {
      SplitHas(list[n + 1..], name);
      if InClassList(list[n + 1..], name) {
        ListedLater(list, name);
      }
    }
    if name == list[..n] {
      ListedFirst(list, name);
    }
    if InClassList(list, name) {
      ListedWhere(list, name);
    }
  }

  lemma ClassIff(attrs: seq<Attribute>, name: string)
    requires ' ' !in name
    ensures HasClass(attrs, name) <==> InClassList(Value(attrs, "class"), name)
  {
    hide SplitOn, InClassList, Value;
    SplitHas(Value(attrs, "class"), name);
  }

  // ----- What is written for a tag -----

  /** The elements without contents, by section 13.1.2 of the WHATWG HTML standard; one of today's names is older. */
  predicate IsVoid(tag: string) {
    tag in {"area", "base", "br", "col", "embed", "hr", "img", "input", "link", "meta", "source", "track", "wbr"}
  }

  /** The source of an image is the name of its file. */
  ghost predicate ImgWritten(site: Site, pairs: seq<Attribute>, attrs: seq<Attribute>) {
    if Value(pairs, "src") == "" then attrs == pairs
    else
      && ImageFile(site, pairs).Some? && SameBut(attrs, pairs, "src")
      && Value(attrs, "src")
         == "chrome://browser/content/aboutmanual/assets/" + AssetName(ImageFile(site, pairs).value)
  }

  const OUTSIDE: seq<Attribute> := [Attribute("target", Some("_blank")), Attribute("rel", Some("noreferrer"))]

  /** An anchor keeps all but where it leads and how it is opened. */
  ghost predicate AnchorWritten(site: Site, pairs: seq<Attribute>, attrs: seq<Attribute>) {
    var href, bare := Value(pairs, "href"), Others(pairs, {"rel", "referrerpolicy", "target"});
    if href == "" || "#" <= href then attrs == bare
    else if "http:" <= href || "https:" <= href then attrs == bare + OUTSIDE
    else if "mailto:" <= href then attrs == Others(pairs, {"rel", "referrerpolicy", "target", "href"})
    else
      && "../../" <= href && ConvertHref(site, href).Ok? && |bare| <= |attrs|
      && SameBut(attrs[..|bare|], bare, "href") && Value(attrs, "href") == ConvertHref(site, href).value.0
      && attrs[|bare|..] == if ConvertHref(site, href).value.1 then [] else OUTSIDE
  }

  /** A heading's id gets the page it is on in front. */
  ghost predicate DivWritten(st: State, pairs: seq<Attribute>, attrs: seq<Attribute>) {
    if InClassList(Value(pairs, "class"), "heading-anchor") then
      && Value(pairs, "id") != "" && NearestPage(st.ancestors) != ""
      && SameBut(attrs, pairs, "id") && Value(attrs, "id") == NearestPage(st.ancestors) + "___" + Value(pairs, "id")
    else attrs == pairs
  }

  /** A toggler whose id has been written before. */
  ghost predicate RepeatedToggler(st: State, tag: string, pairs: seq<Attribute>) {
    && tag == "input" && InClassList(Value(pairs, "class"), "toggler")
    && Value(pairs, "id") != "" && Value(pairs, "id") in Ids(st.pieces)
  }

  /** All other tags keep their attributes, but for the id of a repeated toggler. */
  ghost predicate AttrsWritten(site: Site, st: State, tag: string, pairs: seq<Attribute>, attrs: seq<Attribute>) {
    if st.inBody && tag == "img" then ImgWritten(site, pairs, attrs)
    else if st.inBody && tag == "a" then AnchorWritten(site, pairs, attrs)
    else if st.inBody && tag == "div" then DivWritten(st, pairs, attrs)
    else attrs == if st.inBody && RepeatedToggler(st, tag, pairs) then Others(pairs, {"id"}) else pairs
  }

  lemma ImgIsWritten(site: Site, st: State, pairs: seq<Attribute>)
    requires ImgTag(site, st, pairs).Ok?
    ensures ImgWritten(site, pairs, ImgTag(site, st, pairs).value.attrs)
  {
    hide AssetName, Put, Value, Has, SameBut;
    if Value(pairs, "src") != "" {
      var src := CHROME_ASSETS + AssetName(ImageFile(site, pairs).value);
      ValueIsThere(pairs, "src");
      PutInPlace(pairs, "src", src);
      PutValue(pairs, "src", src, "src");
    }
  }

  lemma DivIsWritten(st: State, pairs: seq<Attribute>)
    requires DivTag(st, pairs).Ok?
    ensures DivWritten(st, pairs, DivTag(st, pairs).value.attrs)
  {
    hide Put, Value, Has, SameBut, NearestPage, HasClass, InClassList;
    ClassIff(pairs, "heading-anchor");
    var id := NearestPage(st.ancestors) + "___" + Value(pairs, "id");
    if HasClass(pairs, "heading-anchor") {
      ValueIsThere(pairs, "id");
      PutInPlace(pairs, "id", id);
      PutValue(pairs, "id", id, "id");
    }
  }

  /** An attribute list marked as leading outside has the marks at its end. */
  lemma MarksAtEnd(attrs: seq<Attribute>)
    requires !Has(attrs, "target") && !Has(attrs, "rel")
    ensures MarkExternal(attrs) == attrs + OUTSIDE
  {
    hide Put;
    PutAtEnd(attrs, "target", "_blank");
    var one := attrs + [Attribute("target", Some("_blank"))];
    assert forall i :: 0 <= i < |one| ==> i < |attrs| ==> one[i] == attrs[i];
    PutAtEnd(one, "rel", "noreferrer");
    assert one + [Attribute("rel", Some("noreferrer"))] == attrs + OUTSIDE;
  }

  lemma {:induction false} PutKeepsNames(attrs: seq<Attribute>, name: string, value: string, other: string)
    ensures Has(Put(attrs, name, value), other) <==> Has(attrs, other) || other == name
  {
    hide Has;
    HasNone(other);
    if attrs == [] {
      HasFirst(Attribute(name, Some(value)), [], other);
      assert [Attribute(name, Some(value))] + [] == [Attribute(name, Some(value))];
    } else {
      assert attrs == [attrs[0]] + attrs[1..];
      HasFirst(attrs[0], attrs[1..], other);
      if attrs[0].name == name {
        HasFirst(Attribute(name, Some(value)), attrs[1..], other);
      } else {
        PutKeepsNames(attrs[1..], name, value, other);
        HasFirst(attrs[0], Put(attrs[1..], name, value), other);
      }
    }
  }

  lemma HasNone(name: string)
    ensures !Has([], name)
  {
  }

  lemma AnchorIsWritten(site: Site, st: State, pairs: seq<Attribute>)
    requires AnchorTag(site, st, pairs).Ok?
    ensures AnchorWritten(site, pairs, AnchorTag(site, st, pairs).value.attrs)
  {
    hide Put, Del, Value, Has, SameBut, ConvertHref, MarkExternal, Others;
    var three := {"rel", "referrerpolicy", "target"};
    var bare := Others(pairs, three);
    ThreeDropped(pairs);
    OthersValue(pairs, three, "href");
    OthersHave(pairs, three, "target");
    OthersHave(pairs, three, "rel");
    MarksAtEnd(bare);
    MailDropped(pairs);
    var href := Value(pairs, "href");
    assert "#" <= href ==> href[0] == '#';
    assert "../../" <= href ==> href[0] == '.';
    assert "mailto:" <= href ==> href[0] == 'm';
    assert IsExternal(href) ==> href[0] == 'h';
    if "../../" <= href && !IsExternal(href) && ConvertHref(site, href).Ok? {
      var to := ConvertHref(site, href).value.0;
      ValueIsThere(bare, "href");
      PutInPlace(bare, "href", to);
      ConvertedIsMarked(bare, to);
    }
  }

  lemma MailDropped(pairs: seq<Attribute>)
    ensures Del(Others(pairs, {"rel", "referrerpolicy", "target"}), "href")
         == Others(pairs, {"rel", "referrerpolicy", "target", "href"})
  {
    hide Del, Others;
    var four := {"rel", "referrerpolicy", "target", "href"};
    ThreeDropped(pairs);
    var two := Del(Del(pairs, "rel"), "referrerpolicy");
    OthersOfNone(Del(Del(two, "target"), "href"));
    DelIsOthers(Del(two, "target"), "href", {});
    DelIsOthers(two, "target", {"href"});
    DelIsOthers(Del(pairs, "rel"), "referrerpolicy", {"href", "target"});
    DelIsOthers(pairs, "rel", {"href", "target", "referrerpolicy"});
    assert {} + {"href"} == {"href"} && {"href"} + {"target"} == {"href", "target"};
    assert {"href", "target"} + {"referrerpolicy"} == {"href", "target", "referrerpolicy"};
    assert {"href", "target", "referrerpolicy"} + {"rel"} == four;
  }

  lemma ConvertedIsMarked(bare: seq<Attribute>, to: string)
    requires !Has(bare, "target") && !Has(bare, "rel") && Has(bare, "href")
    ensures var attrs := Put(bare, "href", to);
      && |attrs| == |bare| && SameBut(attrs, bare, "href") && Value(attrs, "href") == to
      && MarkExternal(attrs) == attrs + OUTSIDE && Value(attrs + OUTSIDE, "href") == to
      && (attrs + OUTSIDE)[..|bare|] == attrs && (attrs + OUTSIDE)[|bare|..] == OUTSIDE
      && attrs[..|bare|] == attrs && attrs[|bare|..] == []
  {
    hide Put, Value, Has;
    var attrs := Put(bare, "href", to);
    PutInPlace(bare, "href", to);
    PutValue(bare, "href", to, "href");
    PutKeepsNames(bare, "href", to, "target");
    PutKeepsNames(bare, "href", to, "rel");
    MarksAtEnd(attrs);
    ExternalIsMarked(attrs);
  }

  /** The handlers alone: a repeated toggler still has its id. */
  lemma DispatchWrites(site: Site, st: State, tag: string, pairs: seq<Attribute>)
    requires Dispatch(site, st, tag, pairs).Ok?
    ensures var attrs := Dispatch(site, st, tag, pairs).value.attrs;
      if st.inBody && tag == "img" then ImgWritten(site, pairs, attrs)
      else if st.inBody && tag == "a" then AnchorWritten(site, pairs, attrs)
      else if st.inBody && tag == "div" then DivWritten(st, pairs, attrs)
      else attrs == pairs
  {
    hide ImgWritten, AnchorWritten, DivWritten, ImgTag, AnchorTag, DivTag, HtmlTag, LinkTag, BodyTag;
    if st.inBody {
      if tag == "img" {
        ImgIsWritten(site, st, pairs);
      } else if tag == "a" {
        AnchorIsWritten(site, st, pairs);
      } else if tag == "div" {
        DivIsWritten(st, pairs);
      }
    }
  }

  lemma SaveIdWrites(h: Handled, tag: string)
    requires SaveId(h, tag).Ok? && h.st.allIds == Ids(h.st.pieces)
    ensures SaveId(h, tag).value.attrs
         == if h.st.inBody && RepeatedToggler(h.st, tag, h.attrs) then Others(h.attrs, {"id"}) else h.attrs
  {
    hide Value, HasClass, InClassList, Del, Others, Ids;
    ClassIff(h.attrs, "toggler");
    OthersOfNone(Del(h.attrs, "id"));
    DelIsOthers(h.attrs, "id", {});
    assert {} + {"id"} == {"id"};
  }

  /** A start tag in the body adds itself, and its end when it is closed at once; one in front of it adds nothing. */
  ghost predicate TagAdds(site: Site, st: State, tag: string, pairs: seq<Attribute>, closed: bool, added: seq<Piece>) {
    if !st.inBody && tag != "body" then added == []
    else
      && added != [] && added[0].StartPiece? && added[0].tag == tag && added[0].void == IsVoid(tag)
      && AttrsWritten(site, st, tag, pairs, added[0].attrs)
      && added[1..] == if closed && !IsVoid(tag) then [EndPiece(tag)] else []
  }

  lemma EmitAdds(h: Handled, tag: string, closed: bool, added: seq<Piece>)
    requires added == Emit(h, tag, closed).pieces[|h.st.pieces|..]
    ensures Emit(h, tag, closed).pieces == h.st.pieces + added
    ensures if !h.st.inBody then added == []
      else added == [StartPiece(tag, h.attrs, IsVoid(tag))] + if closed && !IsVoid(tag) then [EndPiece(tag)] else []
  {
  }

  lemma TagIsWritten(site: Site, st: State, tag: string, pairs: seq<Attribute>, closed: bool, added: seq<Piece>)
    requires LinksInv(st) && HandleTag(site, st, tag, pairs, closed).Ok?
    requires st.pieces <= HandleTag(site, st, tag, pairs, closed).value.pieces
    requires added == HandleTag(site, st, tag, pairs, closed).value.pieces[|st.pieces|..]
    ensures TagAdds(site, st, tag, pairs, closed, added)
  {
    assert st.allIds == Ids(st.pieces);
    hide LinksInv, Dispatch, SaveId, Emit, Distinct, Ids, InContext, ImgWritten, AnchorWritten, DivWritten, Others,
      IsVoid, InClassList, Value;
    var h := Dispatch(site, st, tag, pairs).value;
    DispatchShape(site, st, tag, pairs);
    DispatchWrites(site, st, tag, pairs);
    SaveIdWrites(h, tag);
    SaveIdShape(h, tag);
    EmitAdds(SaveId(h, tag).value, tag, closed, added);
  }

  /** What an event adds to the body. */
  ghost predicate Adds(site: Site, st: State, e: Event, added: seq<Piece>) {
    match e
    case StartTag(tag, pairs) => TagAdds(site, st, tag, pairs, false, added)
    case StartEndTag(tag, pairs) => TagAdds(site, st, tag, pairs, true, added)
    case EndTag(tag) => added == if st.inBody then [EndPiece(tag)] else []
    case Data(text) => added == if st.inBody then [TextPiece(text)] else []
    case _ => added == []
  }

  lemma StepAdds(site: Site, st: State, e: Event, added: seq<Piece>)
    requires Phase(st) && LinksInv(st) && Step(site, st, e).Ok? && st.pieces <= Step(site, st, e).value.pieces
    requires added == Step(site, st, e).value.pieces[|st.pieces|..]
    ensures Adds(site, st, e, added)
  {
    assert PlainStack(st.ancestors);
    hide LinksInv, Phase, HandleTag, TagAdds, InContext;
    match e {
      case StartTag(tag, pairs) => TagIsWritten(site, st, tag, pairs, false, added);
      case StartEndTag(tag, pairs) => TagIsWritten(site, st, tag, pairs, true, added);
      case _ =>
    }
  }

  /** Between two events of an accepted document stands exactly what the first of them adds. */
  lemma EventIsWritten(site: Site, events: seq<Event>, k: nat)
    requires Process(site, events).Ok? && k < |events|
    ensures Run(site, events[..k]).Ok? && Run(site, events[..k + 1]).Ok?
    ensures var st, st' := Run(site, events[..k]).value, Run(site, events[..k + 1]).value;
      && st.pieces <= st'.pieces <= Process(site, events).value.pieces
      && Adds(site, st, events[k], st'.pieces[|st.pieces|..])
  {
    hide Run, Step, LinksInv, Phase, Adds;
    RunTo(site, events, k);
    RunGrows(site, events, k + 1);
    var st, st' := Run(site, events[..k]).value, Run(site, events[..k + 1]).value;
    RunKeepsLinks(site, events[..k]);
    RunKeepsPhase(site, events[..k]);
    StepGrows(site, st, events[k]);
    StepAdds(site, st, events[k], st'.pieces[|st.pieces|..]);
  }

  // ----- What is recorded -----

  const ASSETS: string := "chrome://browser/content/aboutmanual/assets/"

  predicate IsStyle(st: State, tag: string, pairs: seq<Attribute>) {
    !st.inBody && tag == "link" && Value(pairs, "rel") == "stylesheet"
  }

  /** The page that a tag opens. */
  ghost function PageOpened(st: State, tag: string, pairs: seq<Attribute>): Option<string> {
    var list := Value(pairs, "class");
    if st.inBody && tag == "div" && InClassList(list, "olm-page") && !InClassList(list, "heading-anchor") then
      Some(Value(pairs, "id"))
    else None
  }

  /** What a start tag leaves for the head of the page, and which element it opens. */
  ghost predicate TagRecords(site: Site, st: State, tag: string, pairs: seq<Attribute>, closed: bool, st': State) {
    && (if !st.inBody && tag == "html" then
          st'.lang == Some(Value(pairs, "lang")) && st'.dir == Some(Value(pairs, "dir"))
        else st'.lang == st.lang && st'.dir == st.dir)
    && (if IsStyle(st, tag, pairs) then
          && site.locate(site.parseUrl(Value(pairs, "href")).path).Some?
          && st'.styleHrefs
             == st.styleHrefs + [ASSETS + AssetName(site.locate(site.parseUrl(Value(pairs, "href")).path).value)]
        else st'.styleHrefs == st.styleHrefs)
    && st'.title == st.title
    && st'.inBody == (st.inBody || tag == "body")
    && st'.visitedBody == (st.visitedBody || (!st.inBody && tag == "body"))
    && st'.ancestors
       == st.ancestors + if closed || IsVoid(tag) then [] else [Details(tag, tag, PageOpened(st, tag, pairs))]
  }

  /** What an event leaves but for the body and the assets. */
  ghost predicate Leaves(site: Site, st: State, e: Event, st': State) {
    match e
    case StartTag(tag, pairs) => TagRecords(site, st, tag, pairs, false, st')
    case StartEndTag(tag, pairs) => TagRecords(site, st, tag, pairs, true, st')
    case EndTag(tag) =>
      && st.ancestors != [] && st.ancestors[|st.ancestors| - 1].tag == tag
      && st' == st.(ancestors := st.ancestors[..|st.ancestors| - 1], inBody := st.inBody && tag != "body",
                    pieces := st'.pieces)
    case Data(text) =>
      var inTitle := !st.inBody && Tags(st.ancestors) == ["html", "head", "title"];
      st' == st.(title := if inTitle then st.title + text else st.title, pieces := st'.pieces)
    case _ => st' == st
  }

  lemma OutsideRecords(site: Site, st: State, tag: string, pairs: seq<Attribute>)
    requires !st.inBody && Dispatch(site, st, tag, pairs).Ok?
    ensures var h := Dispatch(site, st, tag, pairs).value;
      h.pageId == None && TagRecords(site, st, tag, pairs, true, h.st.(ancestors := st.ancestors))
  {
    hide AssetName, Value, InContext, IsVoid;
    assert st.ancestors + [] == st.ancestors;
  }

  lemma InsideRecords(site: Site, st: State, tag: string, pairs: seq<Attribute>)
    requires st.inBody && Dispatch(site, st, tag, pairs).Ok?
    ensures var h := Dispatch(site, st, tag, pairs).value;
      h.pageId == PageOpened(st, tag, pairs) && TagRecords(site, st, tag, pairs, true, h.st.(ancestors := st.ancestors))
  {
    hide Put, Del, AssetName, InClassList, HasClass, NearestPage, ConvertHref, MarkExternal, Value, InContext, IsVoid,
      Has;
    ClassIff(pairs, "heading-anchor");
    ClassIff(pairs, "olm-page");
    assert st.ancestors + [] == st.ancestors;
  }

  lemma DispatchRecords(site: Site, st: State, tag: string, pairs: seq<Attribute>)
    requires Dispatch(site, st, tag, pairs).Ok?
    ensures var h := Dispatch(site, st, tag, pairs).value;
      && h.pageId == PageOpened(st, tag, pairs)
      && h.st.inBody == (st.inBody || tag == "body")
      && h.st.visitedBody == (st.visitedBody || (!st.inBody && tag == "body"))
      && TagRecords(site, st, tag, pairs, true, h.st.(ancestors := st.ancestors))
  {
    hide Dispatch, InClassList, IsStyle, AssetName, IsVoid;
    if st.inBody {
      InsideRecords(site, st, tag, pairs);
    } else {
      OutsideRecords(site, st, tag, pairs);
    }
  }

  lemma TagLeaves(site: Site, st: State, tag: string, pairs: seq<Attribute>, closed: bool)
    requires HandleTag(site, st, tag, pairs, closed).Ok?
    ensures TagRecords(site, st, tag, pairs, closed, HandleTag(site, st, tag, pairs, closed).value)
  {
    hide Dispatch, Distinct, AssetName, PageOpened, IsStyle, Value, HasClass;
    DispatchRecords(site, st, tag, pairs);
    DispatchShape(site, st, tag, pairs);
    assert IsVoid(tag) == (tag in VOID);
  }

  lemma StepLeaves(site: Site, st: State, e: Event)
    requires Phase(st) && Step(site, st, e).Ok?
    ensures Leaves(site, st, e, Step(site, st, e).value)
  {
    assert PlainStack(st.ancestors);
    hide Phase, HandleTag, TagRecords;
    match e {
      case StartTag(tag, pairs) => TagLeaves(site, st, tag, pairs, false);
      case StartEndTag(tag, pairs) => TagLeaves(site, st, tag, pairs, true);
      case _ =>
    }
  }

  /** In an accepted document every event leaves what it should for the head, and for the events behind it. */
  lemma EventIsRecorded(site: Site, events: seq<Event>, k: nat)
    requires Process(site, events).Ok? && k < |events|
    ensures Run(site, events[..k]).Ok? && Run(site, events[..k + 1]).Ok?
    ensures Leaves(site, Run(site, events[..k]).value, events[k], Run(site, events[..k + 1]).value)
  {
    hide Run, Step, Phase, Leaves;
    RunTo(site, events, k);
    RunKeepsPhase(site, events[..k]);
    StepLeaves(site, Run(site, events[..k]).value, events[k]);
  }

  // ----- References -----

  /** The file a tag refers to: an image's, or that of a style sheet in the head. */
  function FileOf(site: Site, st: State, tag: string, pairs: seq<Attribute>): Option<string> {
    if st.inBody && tag == "img" && Value(pairs, "src") != "" then site.locate(site.parseUrl(Value(pairs, "src")).path)
    else if IsStyle(st, tag, pairs) then site.locate(site.parseUrl(Value(pairs, "href")).path)
    else None
  }

  /** A file is recorded under its name, and an anchor that stays in the document is kept for the final check. */
  ghost predicate TagRefers(site: Site, st: State, tag: string, pairs: seq<Attribute>, written: seq<Attribute>,
                            st': State)
  {
    && st'.internalHrefs == st.internalHrefs +
         (if st.inBody && tag == "a" && "#" <= Value(written, "href") then [Value(written, "href")] else [])
    && match FileOf(site, st, tag, pairs)
       case None => st'.assets == st.assets && st'.references == st.references
       case Some(file) =>
         && st'.assets == st.assets[AssetName(file) := file]
         && st'.references == st.references + [Reference(AssetName(file), file)]
  }

  lemma AnchorRefers(site: Site, st: State, pairs: seq<Attribute>)
    requires AnchorTag(site, st, pairs).Ok?
    ensures var h := AnchorTag(site, st, pairs).value;
      h.st == st.(internalHrefs := st.internalHrefs +
                    if "#" <= Value(h.attrs, "href") then [Value(h.attrs, "href")] else [])
  {
    hide Put, Value, Del, ConvertHref, MarkExternal;
    var bare := Del(Del(Del(pairs, "rel"), "referrerpolicy"), "target");
    var href := Value(bare, "href");
    assert st.internalHrefs + [] == st.internalHrefs;
    assert "#" <= href ==> href[0] == '#';
    assert UP <= href ==> href[0] == '.';
    assert "mailto:" <= href ==> href[0] == 'm';
    assert IsExternal(href) ==> href[0] == 'h';
    if IsExternal(href) {
      ExternalIsMarked(bare);
    } else if "mailto:" <= href {
      DelValue(bare, "href", "href");
    } else if UP <= href {
      var (to, internal) := ConvertHref(site, href).value;
      ConvertedHref(site, href);
      assert IsExternal(to) ==> to[0] == 'h';
      assert "#" <= to ==> to[0] == '#';
      PutValue(bare, "href", to, "href");
      ExternalIsMarked(Put(bare, "href", to));
    }
  }

  lemma DispatchRefers(site: Site, st: State, tag: string, pairs: seq<Attribute>)
    requires Dispatch(site, st, tag, pairs).Ok?
    ensures var h := Dispatch(site, st, tag, pairs).value; TagRefers(site, st, tag, pairs, h.attrs, h.st)
  {
    hide AnchorTag, DivTag, AssetName, Value, HasClass, Put, Has, InContext;
    assert st.internalHrefs + [] == st.internalHrefs;
    if st.inBody && tag == "a" {
      AnchorRefers(site, st, pairs);
    }
    if st.inBody && tag == "div" {
      DivRefers(st, pairs);
    }
  }

  lemma TagRefersTo(site: Site, st: State, tag: string, pairs: seq<Attribute>, closed: bool, added: seq<Piece>)
    requires HandleTag(site, st, tag, pairs, closed).Ok?
    requires st.pieces <= HandleTag(site, st, tag, pairs, closed).value.pieces
    requires added == HandleTag(site, st, tag, pairs, closed).value.pieces[|st.pieces|..]
    ensures st.inBody ==> added != [] && added[0].StartPiece?
    ensures TagRefers(site, st, tag, pairs, if st.inBody then added[0].attrs else pairs,
                      HandleTag(site, st, tag, pairs, closed).value)
  {
    hide Dispatch, SaveId, Emit, Value, Distinct, AssetName, IsVoid, FileOf;
    DispatchRefers(site, st, tag, pairs);
    DispatchShape(site, st, tag, pairs);
    var h := Dispatch(site, st, tag, pairs).value;
    SaveIdLeaves(h, tag);
    SaveIdShape(h, tag);
    EmitAdds(SaveId(h, tag).value, tag, closed, added);
    EmitLeaves(SaveId(h, tag).value, tag, closed);
  }

  lemma SaveIdLeaves(h: Handled, tag: string)
    requires SaveId(h, tag).Ok?
    ensures SaveId(h, tag).value.st == h.st.(allIds := SaveId(h, tag).value.st.allIds)
    ensures tag != "input" ==> SaveId(h, tag).value.attrs == h.attrs
  {
    hide Value, HasClass, Del;
  }

  lemma EmitLeaves(h: Handled, tag: string, closed: bool)
    ensures var st' := Emit(h, tag, closed);
      && st'.assets == h.st.assets && st'.references == h.st.references && st'.internalHrefs == h.st.internalHrefs
  {
  }

  lemma DivRefers(st: State, pairs: seq<Attribute>)
    requires DivTag(st, pairs).Ok?
    ensures DivTag(st, pairs).value.st == st
  {
    hide Value, HasClass, NearestPage, Put;
  }

  /** What an event leaves for the assets and for the final check of references. */
  ghost predicate Refers(site: Site, st: State, e: Event, added: seq<Piece>, st': State) {
    if e.StartTag? || e.StartEndTag? then
      && (st.inBody ==> added != [] && added[0].StartPiece?)
      && TagRefers(site, st, e.tag, e.pairs, if st.inBody then added[0].attrs else e.pairs, st')
    else st'.assets == st.assets && st'.references == st.references && st'.internalHrefs == st.internalHrefs
  }

  lemma EventRefers(site: Site, events: seq<Event>, k: nat)
    requires Process(site, events).Ok? && k < |events|
    ensures Run(site, events[..k]).Ok? && Run(site, events[..k + 1]).Ok?
    ensures var st, st' := Run(site, events[..k]).value, Run(site, events[..k + 1]).value;
      st.pieces <= st'.pieces && Refers(site, st, events[k], st'.pieces[|st.pieces|..], st')
  {
    hide Run, HandleTag, TagRefers, LinksInv;
    RunTo(site, events, k);
    RunKeepsLinks(site, events[..k]);
    var st, st' := Run(site, events[..k]).value, Run(site, events[..k + 1]).value;
    StepGrows(site, st, events[k]);
    var added := st'.pieces[|st.pieces|..];
    match events[k] {
      case StartTag(tag, pairs) => TagRefersTo(site, st, tag, pairs, false, added);
      case StartEndTag(tag, pairs) => TagRefersTo(site, st, tag, pairs, true, added);
      case _ =>
    }
  }

  // ----- What is permitted -----

  /** A reference to a file that there is, by a path alone. */
  ghost predicate AssetFound(site: Site, st: State, orig: string) {
    && site.parseUrl(orig).scheme == "" && site.locate(site.parseUrl(orig).path).Some?
    && var file := site.locate(site.parseUrl(orig).path).value;
       AssetName(file) in st.assets ==> st.assets[AssetName(file)] == file
  }

  ghost predicate OutsidePermitted(site: Site, st: State, tag: string, pairs: seq<Attribute>) {
    && (tag == "html" ==>
          && st.ancestors == [] && (st.lang == None || st.lang == Some(""))
          && Value(pairs, "lang") == site.locale && site.locale != "" && Value(pairs, "dir") in ["rtl", "ltr"])
    && (IsStyle(st, tag, pairs) ==> Value(pairs, "href") != "" && AssetFound(site, st, Value(pairs, "href")))
    && (tag == "body" ==> Tags(st.ancestors) == ["html"] && !st.visitedBody)
  }

  ghost predicate InsidePermitted(site: Site, st: State, tag: string, pairs: seq<Attribute>) {
    var list, id, href, src := Value(pairs, "class"), Value(pairs, "id"), Value(pairs, "href"), Value(pairs, "src");
    && tag !in {"script", "noscript", "meta", "link", "html", "head", "body"}
    && (tag == "img" ==> !Has(pairs, "srcset") && (src != "" ==> AssetFound(site, st, src)))
    && (tag == "a" ==>
          || href == "" || "#" <= href || "http:" <= href || "https:" <= href || "mailto:" <= href
          || ("../../" <= href && ConvertHref(site, href).Ok?))
    && (tag == "div" && InClassList(list, "heading-anchor") ==> id != "" && NearestPage(st.ancestors) != "")
    && (PageOpened(st, tag, pairs).Some? ==> id != "" && forall d :: d in st.ancestors ==> d.pageId.None?)
  }

  /** The id an element is given. */
  ghost function GivenId(st: State, tag: string, pairs: seq<Attribute>): string {
    if st.inBody && tag == "div" && InClassList(Value(pairs, "class"), "heading-anchor") then
      NearestPage(st.ancestors) + "___" + Value(pairs, "id")
    else Value(pairs, "id")
  }

  ghost predicate TagPermitted(site: Site, st: State, tag: string, pairs: seq<Attribute>) {
    && (forall i, j :: 0 <= i < j < |pairs| ==> pairs[i].name != pairs[j].name)
    && (if st.inBody then InsidePermitted(site, st, tag, pairs) else OutsidePermitted(site, st, tag, pairs))
    && (st.inBody || tag == "body" ==>
          var id := GivenId(st, tag, pairs);
          id == "" || id !in Ids(st.pieces) || (tag == "input" && InClassList(Value(pairs, "class"), "toggler")))
  }

  /** The events that do not make a document rejected. */
  ghost predicate Permitted(site: Site, st: State, e: Event) {
    match e
    case StartTag(tag, pairs) => TagPermitted(site, st, tag, pairs)
    case StartEndTag(tag, pairs) => TagPermitted(site, st, tag, pairs)
    case EndTag(tag) => st.ancestors != [] && st.ancestors[|st.ancestors| - 1].tag == tag
    case Declaration(text) => text == "DOCTYPE html" && st.ancestors == []
    case ProcessingInstr => false
    case UnknownDecl => false
    case _ => true
  }

  lemma NoneOpen(ds: seq<Details>)
    ensures Tags(ds) == [] <==> ds == []
    ensures (exists i :: 0 <= i < |ds| && ds[i].pageId.Some?) <==> !forall d :: d in ds ==> d.pageId.None?
  {
    assert |Tags(ds)| == |ds|;
  }

  lemma AssetFoundIff(site: Site, st: State, orig: string)
    ensures SwapAsset(site, st, orig).Ok? <==> AssetFound(site, st, orig)
  {
    hide AssetName;
  }

  lemma OutsideOkIff(site: Site, st: State, tag: string, pairs: seq<Attribute>)
    requires !st.inBody
    ensures Dispatch(site, st, tag, pairs).Ok? <==> OutsidePermitted(site, st, tag, pairs)
  {
    hide SwapAsset, AssetFound, Value;
    AssetFoundIff(site, st, Value(pairs, "href"));
    NoneOpen(st.ancestors);
  }

  lemma AnchorOkIff(site: Site, st: State, pairs: seq<Attribute>)
    ensures AnchorTag(site, st, pairs).Ok? <==>
      var href := Value(pairs, "href");
      || href == "" || "#" <= href || "http:" <= href || "https:" <= href || "mailto:" <= href
      || ("../../" <= href && ConvertHref(site, href).Ok?)
  {
    hide Del, Value, ConvertHref, Put, MarkExternal, Others;
    ThreeDropped(pairs);
    OthersValue(pairs, {"rel", "referrerpolicy", "target"}, "href");
  }

  lemma InsideOkIff(site: Site, st: State, tag: string, pairs: seq<Attribute>)
    requires st.inBody
    ensures Dispatch(site, st, tag, pairs).Ok? <==> InsidePermitted(site, st, tag, pairs)
  {
    hide SwapAsset, AssetFound, Value, AnchorTag, InClassList, HasClass, NearestPage, Put, Has, ConvertHref;
    AssetFoundIff(site, st, Value(pairs, "src"));
    NoneOpen(st.ancestors);
    AnchorOkIff(site, st, pairs);
    ClassIff(pairs, "heading-anchor");
    ClassIff(pairs, "olm-page");
  }

  lemma AnchorKeepsValue(site: Site, st: State, pairs: seq<Attribute>, name: string)
    requires AnchorTag(site, st, pairs).Ok? && name !in {"href", "rel", "referrerpolicy", "target"}
    ensures Value(AnchorTag(site, st, pairs).value.attrs, name) == Value(pairs, name)
  {
    hide Put, Del, Value, ConvertHref;
    var one := Del(pairs, "rel");
    var two := Del(one, "referrerpolicy");
    var bare := Del(two, "target");
    DelValue(pairs, "rel", name);
    DelValue(one, "referrerpolicy", name);
    DelValue(two, "target", name);
    DelValue(bare, "href", name);
    MarkKeepsValue(bare, name);
    var converted := ConvertHref(site, Value(bare, "href"));
    if converted.Ok? {
      PutValue(bare, "href", converted.value.0, name);
      MarkKeepsValue(Put(bare, "href", converted.value.0), name);
    }
  }

  lemma MarkKeepsValue(attrs: seq<Attribute>, name: string)
    requires name !in {"rel", "target"}
    ensures Value(MarkExternal(attrs), name) == Value(attrs, name)
  {
    hide Put, Value;
    PutValue(attrs, "target", "_blank", name);
    PutValue(Put(attrs, "target", "_blank"), "rel", "noreferrer", name);
  }

  lemma GivenIdIs(site: Site, st: State, tag: string, pairs: seq<Attribute>)
    requires Dispatch(site, st, tag, pairs).Ok?
    ensures Value(Dispatch(site, st, tag, pairs).value.attrs, "id") == GivenId(st, tag, pairs)
    ensures st.inBody && tag == "input" ==> Dispatch(site, st, tag, pairs).value.attrs == pairs
  {
    hide Value, AnchorTag, SwapAsset, InClassList, HasClass, NearestPage, Put, Has, HtmlTag, LinkTag, BodyTag;
    ClassIff(pairs, "heading-anchor");
    PutValue(pairs, "id", NearestPage(st.ancestors) + "___" + Value(pairs, "id"), "id");
    if st.inBody && tag == "a" {
      AnchorKeepsValue(site, st, pairs, "id");
    }
    if st.inBody && tag == "img" && Value(pairs, "src") != "" {
      PutValue(pairs, "src", SwapAsset(site, st, Value(pairs, "src")).value.1, "id");
    }
  }

  lemma TagOkIff(site: Site, st: State, tag: string, pairs: seq<Attribute>, closed: bool)
    requires st.allIds == Ids(st.pieces)
    ensures HandleTag(site, st, tag, pairs, closed).Ok? <==> TagPermitted(site, st, tag, pairs)
  {
    hide Dispatch, OutsidePermitted, InsidePermitted, Value, HasClass, InClassList, Ids, Emit, GivenId;
    if st.inBody {
      InsideOkIff(site, st, tag, pairs);
    } else {
      OutsideOkIff(site, st, tag, pairs);
    }
    if Dispatch(site, st, tag, pairs).Ok? {
      var h := Dispatch(site, st, tag, pairs).value;
      DispatchShape(site, st, tag, pairs);
      GivenIdIs(site, st, tag, pairs);
      ClassIff(h.attrs, "toggler");
    }
  }

  /** The events that are accepted are those that are permitted. */
  lemma StepOkIff(site: Site, st: State, e: Event)
    requires Phase(st) && LinksInv(st)
    ensures Step(site, st, e).Ok? <==> Permitted(site, st, e)
  {
    assert PlainStack(st.ancestors) && st.allIds == Ids(st.pieces);
    NoneOpen(st.ancestors);
    hide Phase, LinksInv, HandleTag, TagPermitted, Ids;
    match e {
      case StartTag(tag, pairs) => TagOkIff(site, st, tag, pairs, false);
      case StartEndTag(tag, pairs) => TagOkIff(site, st, tag, pairs, true);
      case _ =>
    }
  }

  ghost predicate PermittedAt(site: Site, events: seq<Event>, k: nat)
    requires k < |events|
  {
    Run(site, events[..k]).Ok? && Permitted(site, Run(site, events[..k]).value, events[k])
  }

  ghost predicate AllPermitted(site: Site, events: seq<Event>) {
    forall k :: 0 <= k < |events| ==> PermittedAt(site, events, k)
  }

  lemma AllPermittedSnoc(site: Site, events: seq<Event>, e: Event)
    ensures AllPermitted(site, events + [e])
       <==> AllPermitted(site, events) && PermittedAt(site, events + [e], |events|)
  {
    hide Run, Permitted;
    var all := events + [e];
    forall k | 0 <= k < |events|
      ensures PermittedAt(site, all, k) <==> PermittedAt(site, events, k)
    {
      assert all[..k] == events[..k];
    }
  }

  lemma RunSnocIff(site: Site, events: seq<Event>, e: Event)
    ensures Run(site, events + [e]).Ok? <==> Run(site, events).Ok? && PermittedAt(site, events + [e], |events|)
  {
    hide Step, Permitted, Phase, LinksInv;
    assert (events + [e])[..|events|] == events;
    if Run(site, events).Ok? {
      RunKeepsPhase(site, events);
      RunKeepsLinks(site, events);
      StepOkIff(site, Run(site, events).value, e);
    }
  }

  lemma NoEvents(site: Site)
    ensures Run(site, []).Ok? && AllPermitted(site, [])
  {
  }

  /** A run goes on to the end exactly when every event is permitted where it stands. */
  lemma {:induction false} RunOkIff(site: Site, events: seq<Event>)
    ensures Run(site, events).Ok? <==> AllPermitted(site, events)
  {
    hide *;
    if events == [] {
      NoEvents(site);
    } else {
      var init, e := events[..|events| - 1], events[|events| - 1];
      assert events == init + [e];
      RunOkIff(site, init);
      RunSnocIff(site, init, e);
      AllPermittedSnoc(site, init, e);
    }
  }

  /** What the end of a document must have come to. */
  ghost predicate Complete(st: State) {
    && st.ancestors == [] && !st.inBody && st.visitedBody
    && st.lang.Some? && st.lang.value != "" && st.dir.Some? && st.dir.value != "" && st.title != ""
    && forall i :: 0 <= i < |st.internalHrefs| ==> Back(st.internalHrefs[i], 1) in Ids(st.pieces)
  }

  /** A document is accepted exactly when all its events are permitted and it is complete at its end. */
  lemma ProcessOkIff(site: Site, events: seq<Event>)
    ensures Process(site, events).Ok? <==>
      AllPermitted(site, events) && Run(site, events).Ok? && Complete(Run(site, events).value)
  {
    hide Run, AllPermitted, LinksInv, Ids;
    RunOkIff(site, events);
    if Run(site, events).Ok? {
      var st := Run(site, events).value;
      RunKeepsLinks(site, events);
      IdsAreWritten(st);
      NoneDangling(st.internalHrefs, st.allIds);
    }
  }

  lemma IdsAreWritten(st: State)
    requires LinksInv(st)
    ensures st.allIds == Ids(st.pieces)
  {
  }
}
