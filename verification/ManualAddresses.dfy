/** Where the references of a manual lead once they are rewritten, part by part of their paths. */
module ManualAddresses {
  import opened ByteStrings
  import opened Manual
  import opened Wrappers

  // ----- Paths -----

  /** A part of a path that does not lead upwards. */
  predicate IsName(part: string) {
    part != "" && '/' !in part && part != ".."
  }

  function Ups(n: nat): string {
    if n == 0 then "" else "../../" + Ups(n - 1)
  }

  lemma JoinNext(p: string, rest: seq<string>, sep: string)
    requires rest != []
    ensures JoinWith([p] + rest, sep) == p + sep + JoinWith(rest, sep)
  {
    assert ([p] + rest)[1..] == rest;
  }

  /** How a path goes on behind a part of it. */
  function Onward(rest: seq<string>, tail: string): string {
    if rest == [] then tail else "/" + (JoinWith(rest, "/") + tail)
  }

  lemma PathCons(parts: seq<string>, tail: string)
    requires parts != []
    ensures JoinWith(parts, "/") + tail == parts[0] + Onward(parts[1..], tail)
  {
    var p, rest := parts[0], parts[1..];
    assert parts == [p] + rest;
    if rest != [] {
      JoinNext(p, rest, "/");
      Assoc(p, "/", JoinWith(rest, "/") + tail);
      Assoc(p + "/", JoinWith(rest, "/"), tail);
    }
  }

  // ----- Steps upwards are taken out -----

  predicate UpAt(s: string, k: nat) {
    k <= |s| && UP <= s[k..]
  }

  lemma UpAtIs(s: string, k: nat)
    ensures UpAt(s, k) <==>
      && k + 6 <= |s| && s[k] == '.' && s[k + 1] == '.' && s[k + 2] == '/'
      && s[k + 3] == '.' && s[k + 4] == '.' && s[k + 5] == '/'
  {
    if k + 6 <= |s| {
      assert s[k..][..6] == s[k..k + 6];
    }
  }

  lemma {:induction false} NothingUpwards(s: string)
    requires forall k :: !UpAt(s, k)
    ensures RemoveUps(s) == s
    decreases |s|
  {
    assert !UpAt(s, 0) && s[0..] == s;
    if s != [] {
      forall k: nat
        ensures !UpAt(s[1..], k)
      {
        assert !UpAt(s, k + 1);
        assert k + 1 <= |s| ==> s[1..][k..] == s[k + 1..];
      }
      NothingUpwards(s[1..]);
    }
  }

  lemma {:induction false} UpsAreRemoved(n: nat, s: string)
    ensures RemoveUps(Ups(n) + s) == RemoveUps(s)
  {
    if n == 0 {
      assert "" + s == s;
    } else {
      Assoc(UP, Ups(n - 1), s);
      var rest := Ups(n - 1) + s;
      assert (UP + rest)[6..] == rest;
      UpsAreRemoved(n - 1, s);
    }
  }

  /** A path of names does not begin with a step upwards. */
  lemma NameNotUpwards(p: string, after: string)
    requires IsName(p) && (after == "" || after[0] == '/')
    ensures !("../" <= p + after)
  {
    var s := p + after;
    assert |p| == 1 && after != "" ==> s[1] == '/';
    assert |p| == 2 ==> p[0] != '.' || p[1] != '.';
    assert |p| > 2 ==> s[2] == p[2] != '/';
    UpwardsIs(s);
  }

  lemma UpwardsIs(s: string)
    ensures "../" <= s <==> |s| >= 3 && s[0] == '.' && s[1] == '.' && s[2] == '/'
  {
  }

  lemma NotUpwards(parts: seq<string>, tail: string)
    requires (forall p :: p in parts ==> IsName(p)) && (tail == "" || tail == "/")
    ensures !("../" <= JoinWith(parts, "/") + tail)
  {
    if parts != [] {
      PathCons(parts, tail);
      assert parts[0] in parts;
      NameNotUpwards(parts[0], Onward(parts[1..], tail));
    }
  }

  lemma NoUpInPart(p: string, after: string, k: nat)
    requires '/' !in p && (after == "" || (after[0] == '/' && !("../" <= after[1..])))
    requires k <= |p|
    ensures !UpAt(p + after, k)
  {
    var s := p + after;
    UpAtIs(s, k);
  }

  lemma UpAtLater(p: string, more: string, k: nat)
    requires k > |p|
    ensures UpAt(p + ("/" + more), k) <==> UpAt(more, k - |p| - 1)
  {
    var s := p + ("/" + more);
    if k <= |s| {
      assert s[k..] == more[k - |p| - 1..];
    }
  }

  lemma {:induction false} NoUps(parts: seq<string>, tail: string, k: nat)
    requires (forall p :: p in parts ==> IsName(p)) && (tail == "" || tail == "/")
    ensures !UpAt(JoinWith(parts, "/") + tail, k)
  {
    var s := JoinWith(parts, "/") + tail;
    UpAtIs(s, k);
    if parts != [] {
      PathCons(parts, tail);
      var p, rest := parts[0], parts[1..];
      var after := Onward(rest, tail);
      assert p in parts && forall q :: q in rest ==> q in parts;
      NotUpwards(rest, tail);
      assert after != "" ==> after[0] == '/' && !("../" <= after[1..]);
      if k <= |p| {
        NoUpInPart(p, after, k);
      } else if rest != [] {
        NoUps(rest, tail, k - |p| - 1);
        UpAtLater(p, JoinWith(rest, "/") + tail, k);
      }
    }
  }

  // ----- Paths are cut into their parts -----

  lemma {:induction false} SplitPart(p: string, rest: string)
    requires '/' !in p
    ensures SplitOn(p, '/') == [p] && SplitOn(p + ("/" + rest), '/') == [p] + SplitOn(rest, '/')
  {
    if p == "" {
      assert "" + ("/" + rest) == "/" + rest && ("/" + rest)[1..] == rest;
    } else {
      SplitPart(p[1..], rest);
      assert (p + ("/" + rest))[1..] == p[1..] + ("/" + rest);
      assert p == [p[0]] + p[1..];
    }
  }

  lemma NonEmptyNext(p: string, rest: seq<string>)
    requires p != ""
    ensures NonEmpty([p] + rest) == [p] + NonEmpty(rest)
  {
    assert ([p] + rest)[1..] == rest;
  }

  lemma {:induction false} PartsOfPath(parts: seq<string>, tail: string)
    requires parts != [] && (forall p :: p in parts ==> p != "" && '/' !in p) && (tail == "" || tail == "/")
    ensures NonEmpty(SplitOn(JoinWith(parts, "/") + tail, '/')) == parts
  {
    var p, rest := parts[0], parts[1..];
    assert p in parts && forall q :: q in rest ==> q in parts;
    assert parts == [p] + rest;
    PathCons(parts, tail);
    SplitPart(p, if rest == [] then "" else JoinWith(rest, "/") + tail);
    if rest == [] {
      assert SplitOn("", '/') == [""] && NonEmpty([""]) == [];
      assert p + "" == p && "/" + "" == "/";
      NonEmptyNext(p, []);
      NonEmptyNext(p, [""]);
      assert [p] + [] == [p];
    } else {
      PartsOfPath(rest, tail);
      NonEmptyNext(p, SplitOn(JoinWith(rest, "/") + tail, '/'));
    }
  }

  // ----- Where a reference leads -----

  /** The reference leads to the page with these names, from any number of pages below it. */
  ghost predicate LeadsTo(site: Site, href: string, parts: seq<string>) {
    && parts != [] && (forall p :: p in parts ==> IsName(p))
    && exists n, tail :: IsPath(site.parseUrl(href).path, n, parts, tail)
  }

  predicate IsPath(path: string, n: nat, parts: seq<string>, tail: string) {
    (tail == "" || tail == "/") && path == Ups(n) + (JoinWith(parts, "/") + tail)
  }

  lemma PartsOf(site: Site, href: string, parts: seq<string>)
    requires LeadsTo(site, href, parts)
    ensures NonEmpty(SplitOn(RemoveUps(site.parseUrl(href).path), '/')) == parts
  {
    hide RemoveUps, NonEmpty, SplitOn, JoinWith, Ups;
    var n, tail :| IsPath(site.parseUrl(href).path, n, parts, tail);
    var s := JoinWith(parts, "/") + tail;
    forall k: nat
      ensures !UpAt(s, k)
    {
      NoUps(parts, tail, k);
    }
    UpsAreRemoved(n, s);
    NothingUpwards(s);
    PartsOfPath(parts, tail);
  }

  /** The anchor for a fragment on a page of the manual. */
  function Anchored(page: string, fragment: string): string {
    if fragment == "" then "#" + page else "#" + page + "___" + fragment
  }

  /** A reference stays in the manual for the pages that it covers, and leads to the support pages otherwise. */
  lemma AddressIs(site: Site, href: string, parts: seq<string>)
    requires LeadsTo(site, href, parts)
    ensures var f := site.parseUrl(href).fragment;
      ConvertHref(site, href)
        == if "." in parts then Err(UnexpectedPath)
           else if parts[0] == "tor-browser" then
             Ok((if |parts| == 1 && f == "" then "#index" else Anchored(JoinWith(parts[1..], "__"), f), true))
           else if |parts| > 1 && parts[0] == "get-in-touch" && parts[1] in {"bug-or-feedback", "user-support"} then
             Ok((Anchored(JoinWith(parts, "__"), f), true))
           else
             Ok(("https://support.torproject.org/"
                 + (if site.locale == "en" then "" else site.quotePlus(site.locale) + "/")
                 + JoinWith(parts, "/") + (if f == "" then "" else "#" + f), false))
  {
    hide *;
    PartsOf(site, href, parts);
    NamesOnly(site, href, parts);
    var f := site.parseUrl(href).fragment;
    var page := JoinWith(if parts[0] == "tor-browser" then parts[1..] else parts, "__");
    ConvertedBy(site, href, parts, page);
    AnchoredIs(page, f);
  }

  lemma NamesOnly(site: Site, href: string, parts: seq<string>)
    requires LeadsTo(site, href, parts)
    ensures parts != [] && ".." !in parts
  {
  }

  /** The reference that is converted, in terms of its parts. */
  lemma ConvertedBy(site: Site, href: string, parts: seq<string>, page: string)
    requires parts != [] && ".." !in parts && NonEmpty(SplitOn(RemoveUps(site.parseUrl(href).path), '/')) == parts
    requires page == JoinWith(if parts[0] == "tor-browser" then parts[1..] else parts, "__")
    ensures var f := site.parseUrl(href).fragment;
      var anchored := "#" + page + (if f == "" then "" else "___" + f);
      ConvertHref(site, href)
        == if "." in parts then Err(UnexpectedPath)
           else if parts[0] == "tor-browser" then Ok((if |parts| == 1 && f == "" then "#index" else anchored, true))
           else if |parts| > 1 && parts[0] == "get-in-touch" && parts[1] in {"bug-or-feedback", "user-support"} then
             Ok((anchored, true))
           else
             Ok(("https://support.torproject.org/"
                 + (if site.locale == "en" then "" else site.quotePlus(site.locale) + "/")
                 + JoinWith(parts, "/") + (if f == "" then "" else "#" + f), false))
  {
    hide RemoveUps, NonEmpty, SplitOn, JoinWith;
    PagesKept(parts);
    TopPageAlone(parts);
    SupportBase();
  }

  lemma TopPageAlone(parts: seq<string>)
    requires parts != []
    ensures parts == ["tor-browser"] <==> |parts| == 1 && parts[0] == "tor-browser"
  {
  }

  lemma SupportBase()
    ensures SUPPORT + "/" == "https://support.torproject.org/"
  {
  }

  lemma PagesKept(parts: seq<string>)
    ensures ["get-in-touch", "bug-or-feedback"] <= parts || ["get-in-touch", "user-support"] <= parts
       <==> |parts| > 1 && parts[0] == "get-in-touch" && parts[1] in {"bug-or-feedback", "user-support"}
  {
  }

  lemma AnchoredIs(page: string, fragment: string)
    ensures Anchored(page, fragment) == "#" + page + (if fragment == "" then "" else "___" + fragment)
  {
    assert "#" + page + "" == "#" + page;
    Assoc("#" + page, "___", fragment);
  }

  /** The addresses of a page of the manual, of one below it, and of a support page. */
  lemma SomeAddresses(site: Site, href: string, a: string, b: string)
    ensures var f := site.parseUrl(href).fragment;
      && (LeadsTo(site, href, ["tor-browser"]) && f == "" ==> ConvertHref(site, href) == Ok(("#index", true)))
      && (LeadsTo(site, href, ["tor-browser", a, b]) && a != "." && b != "." ==>
            ConvertHref(site, href) == Ok(("#" + a + "__" + b + (if f == "" then "" else "___" + f), true)))
      && (LeadsTo(site, href, [a]) && a != "." && a != "tor-browser" && site.locale == "en" && f == "" ==>
            ConvertHref(site, href) == Ok(("https://support.torproject.org/" + a, false)))
  {
    hide ConvertHref, LeadsTo;
    if LeadsTo(site, href, ["tor-browser"]) {
      AddressIs(site, href, ["tor-browser"]);
    }
    if LeadsTo(site, href, ["tor-browser", a, b]) {
      AddressIs(site, href, ["tor-browser", a, b]);
      JoinNext(a, [b], "__");
      assert ["tor-browser", a, b][1..] == [a] + [b];
      AnchoredIs(a + "__" + b, site.parseUrl(href).fragment);
      Apart("#", a, "__", b);
    }
    if LeadsTo(site, href, [a]) {
      AddressIs(site, href, [a]);
      NothingAround("https://support.torproject.org/", a);
    }
  }

  lemma Apart(a: string, b: string, c: string, d: string)
    ensures a + (b + c + d) == a + b + c + d
  {
  }

  lemma NothingAround(a: string, b: string)
    ensures a + "" + b + "" == a + b
  {
  }

  // ----- Names of assets, and the page of a heading -----

  /** The name of an asset, character by character. */
  lemma {:induction false} AssetNameIs(front: string, c: char, back: string)
    ensures AssetName(front + ([c] + back))
         == AssetName(front)
            + ((if c == '/' then "__"
                else if c in "_.-" || '0' <= c <= '9' || 'A' <= c <= 'Z' || 'a' <= c <= 'z' then [c]
                else "_")
               + AssetName(back))
  {
    if front == [] {
      assert [] + ([c] + back) == [c] + back && ([c] + back)[1..] == back;
    } else {
      assert (front + ([c] + back))[1..] == front[1..] + ([c] + back);
      AssetNameIs(front[1..], c, back);
    }
  }

  /** The page of a heading is that of the innermost element around it that opens one. */
  lemma {:induction false} NearestPageIs(front: seq<Details>, d: Details, back: seq<Details>)
    requires forall i :: 0 <= i < |back| ==> back[i].pageId.None? || back[i].pageId == Some("")
    ensures NearestPage(back) == ""
    ensures d.pageId.Some? && d.pageId.value != "" ==> NearestPage(front + [d] + back) == d.pageId.value
  {
    if back == [] {
      assert front + [d] + back == front + [d];
    } else {
      var n := |back| - 1;
      NearestPageIs(front, d, back[..n]);
      var all := front + [d] + back;
      assert all[..|all| - 1] == front + [d] + back[..n] && all[|all| - 1] == back[n];
    }
  }
}
