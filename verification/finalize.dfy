/** Resource normalisation and confidence tiers of the final Linked-DocRED
    assembly (`6__generate_linked_docred.py`).

    A resource is first turned into a URL (`correct_url`): Wikidata ids get
    the Wikidata prefix and bare titles the English Wikipedia prefix, while
    `---` placeholders pass through. It is then cut back to a Wikipedia
    title (`correct_wiki_resource`) taken from the `/wiki/` path or the
    `title` query field. Every entity link finally receives a confidence
    tier. */
module Finalize {
  import opened Wrappers
  import opened Strings
  import opened UrlParse

  const EnWikipediaPrefix := "https://en.wikipedia.org/"
  const EnWikiPrefix := "https://en.wikipedia.org/wiki/"
  const WikidataPrefix := "https://www.wikidata.org/wiki/"
  const PlaceholderPrefix := "---"

  /** `WIKIDATA_REGEX.fullmatch(s)` with `WIKIDATA_REGEX = ^Q[0-9]+$`. */
  predicate IsWikidataId(s: string) {
    |s| >= 2 && s[0] == 'Q' && IsDigits(s[1..])
  }

  /** `correct_url`. */
  function CorrectUrl(resource: Option<string>): (r: Option<string>)
    ensures resource.None? <==> r.None?
    ensures resource.Some? && StartsWith(resource.value, PlaceholderPrefix) ==> r == resource
    ensures resource.Some? && !StartsWith(resource.value, PlaceholderPrefix) ==>
      || (IsWikidataId(resource.value) && r.value == WikidataPrefix + resource.value)
      || (!IsWikidataId(resource.value) && StartsWith(resource.value, EnWikipediaPrefix) && r == resource)
      || (!IsWikidataId(resource.value) && !StartsWith(resource.value, EnWikipediaPrefix) && r.value == EnWikiPrefix + resource.value)
    ensures r.Some? ==> StartsWith(r.value, PlaceholderPrefix) || StartsWith(r.value, EnWikipediaPrefix) || StartsWith(r.value, WikidataPrefix)
  {
    match resource
    case None => None
    case Some(s) =>
      if StartsWith(s, PlaceholderPrefix) then resource
      else if IsWikidataId(s) then Some(WikidataPrefix + s)
      else if !StartsWith(s, EnWikipediaPrefix) then
        assert (EnWikiPrefix + s)[..|EnWikipediaPrefix|] == EnWikipediaPrefix;
        Some(EnWikiPrefix + s)
      else resource
  }

  /** Correcting an already corrected resource changes nothing, unless the
      first correction produced a Wikidata URL. */
  lemma CorrectUrlIdempotent(resource: Option<string>)
    requires resource.None? || !IsWikidataId(resource.value)
    ensures CorrectUrl(CorrectUrl(resource)) == CorrectUrl(resource)
  {
    if resource.Some? && !StartsWith(resource.value, PlaceholderPrefix) && !StartsWith(resource.value, EnWikipediaPrefix) {
      var r := EnWikiPrefix + resource.value;
      assert r[..|EnWikipediaPrefix|] == EnWikipediaPrefix;
      assert r[0] == 'h';
      assert !StartsWith(r, PlaceholderPrefix);
    }
  }

  /** `correct_wiki_resource`: placeholders and `None` pass through; a URL
      gives the last piece of its path after `/wiki/`, else the first
      `title` field of its query, else nothing. */
  function CorrectWikiResource(resource: Option<string>): (r: Result<Option<string>>)
    ensures resource.None? ==> r == Ok(None)
    ensures resource.Some? && StartsWith(resource.value, PlaceholderPrefix) ==> r == Ok(resource)
    ensures resource.Some? && !StartsWith(resource.value, PlaceholderPrefix) ==>
      (r.Err? <==> Parse(resource.value).Err?)
    ensures resource.Some? && !StartsWith(resource.value, PlaceholderPrefix) && r.Ok? && r.value.Some? ==>
      || (Contains(Parse(resource.value).value.path, "/wiki/")
          && r.value.value == Last(Split(Parse(resource.value).value.path, "/wiki/")))
      || (!Contains(Parse(resource.value).value.path, "/wiki/")
          && QueryValue(Parse(resource.value).value.query, "title") == r.value)
    ensures resource.Some? && !StartsWith(resource.value, PlaceholderPrefix) && r.Ok? && r.value.None? ==>
      !Contains(Parse(resource.value).value.path, "/wiki/") && QueryValue(Parse(resource.value).value.query, "title").None?
  {
    match resource
    case None => Ok(None)
    case Some(s) =>
      if StartsWith(s, PlaceholderPrefix) then Ok(resource)
      else
        var parsed :- Parse(s);
        var pieces := Split(parsed.path, "/wiki/");
        if |pieces| > 1 then Ok(Some(Last(pieces)))
        else Ok(QueryValue(parsed.query, "title"))
  }

  function Last<T>(xs: seq<T>): T
    requires |xs| > 0
  {
    xs[|xs| - 1]
  }

  /** A plain page title: what `correct_url` prefixes and
      `correct_wiki_resource` recovers unchanged. */
  predicate PlainTitle(t: string) {
    && !IsWikidataId(t) && !StartsWith(t, PlaceholderPrefix) && !StartsWith(t, EnWikipediaPrefix)
    && !Contains(t, "/wiki/") && '?' !in t && '#' !in t && ';' !in t
    && '\t' !in t && '\r' !in t && '\n' !in t
  }

  /** `resource = correct_wiki_resource(correct_url(resource))`, as the main
      loop applies it to every entity link. */
  function NormaliseResource(resource: Option<string>): Result<Option<string>> {
    CorrectWikiResource(CorrectUrl(resource))
  }

  /** A plain title survives normalisation: prefixing it and parsing the URL
      back gives the title again. */
  lemma PlainTitleRoundTrip(t: string)
    requires PlainTitle(t)
    ensures NormaliseResource(Some(t)) == Ok(Some(t))
  {
    var url := EnWikiPrefix + t;
    assert CorrectUrl(Some(t)) == Some(url);
    assert url[0] == 'h' && !StartsWith(url, PlaceholderPrefix);
    ParseWikiUrl(t);
    SplitAfterSeparator("/wiki/", t);
  }

  /** How `urlparse` cuts an English Wikipedia article URL. */
  lemma ParseWikiUrl(t: string)
    requires '?' !in t && '#' !in t && ';' !in t && '\t' !in t && '\r' !in t && '\n' !in t
    ensures Parse(EnWikiPrefix + t) == Ok(ParsedUrl("https", "en.wikipedia.org", "/wiki/" + t, "", "", ""))
  {
    assert EnWikiPrefix + t == EnWikipediaPrefix + ("wiki/" + t);
    assert "/" + ("wiki/" + t) == "/wiki/" + t;
    ParseEnWikipediaUrl("wiki/" + t);
    SplitTailOfWikiPath(t);
  }

  /** The page URL `https://en.wikipedia.org/w/index.php?title=...` whose
      title `correct_wiki_resource` reads from the query. */
  const IndexUrlPrefix := EnWikipediaPrefix + "w/index.php?title="

  /** How `urlparse` cuts an index URL: the path is `/w/index.php` and the
      query holds the `title` field. */
  lemma ParseIndexUrl(t: string)
    requires '#' !in t && '\t' !in t && '\r' !in t && '\n' !in t
    ensures Parse(IndexUrlPrefix + t) == Ok(ParsedUrl("https", "en.wikipedia.org", "/w/index.php", "", "title=" + t, ""))
  {
    var u := "w/index.php?title=" + t;
    assert IndexUrlPrefix + t == EnWikipediaPrefix + u;
    IndexPathClean(t);
    ParseEnWikipediaUrl(u);
    SplitTailOfIndexPath(t);
  }

  lemma IndexPathClean(t: string)
    requires '\t' !in t && '\r' !in t && '\n' !in t
    ensures var u := "w/index.php?title=" + t; '\t' !in u && '\r' !in u && '\n' !in u
  {
    var h := "w/index.php?title=";
    assert forall k :: 0 <= k < |h| ==> h[k] != '\t' && h[k] != '\r' && h[k] != '\n';
  }

  lemma SplitTailOfIndexPath(t: string)
    requires '#' !in t
    ensures SplitTail("https", "/" + ("w/index.php?title=" + t)) == ("/w/index.php", "", "title=" + t, "")
  {
    var rest := "/" + ("w/index.php?title=" + t);
    var path := "/w/index.php";
    var query := "title=" + t;
    assert rest == path + ['?'] + query;
    assert '#' !in path && '#' !in "title=" && '#' !in query;
    assert '#' !in rest;
    assert '?' !in path && ';' !in path;
    SplitFirstAt(path, '?', query);
  }

  /** The title of an index URL comes from its query: its path has no
      `/wiki/`. */
  lemma IndexUrlTitle(t: string)
    requires '#' !in t && '\t' !in t && '\r' !in t && '\n' !in t
    ensures CorrectWikiResource(Some(IndexUrlPrefix + t)) == Ok(QueryValue("title=" + t, "title"))
  {
    var url := IndexUrlPrefix + t;
    assert url[0] == 'h' && !StartsWith(url, PlaceholderPrefix);
    ParseIndexUrl(t);
    IndexPathHasNoWiki();
    var parsed := Parse(url).value;
    assert parsed.path == "/w/index.php" && parsed.query == "title=" + t;
    assert |Split(parsed.path, "/wiki/")| == 1;
  }

  lemma IndexPathHasNoWiki()
    ensures !Contains("/w/index.php", "/wiki/")
  {
    var p := "/w/index.php";
    assert "/wiki/"[3] == 'k' && 'k' !in p;
    MissingCharNotContained(p, "/wiki/", 3);
  }

  /** How `urlparse` cuts any URL under `https://en.wikipedia.org/`: the
      host is `en.wikipedia.org` and the rest is split by `SplitTail`. */
  lemma ParseEnWikipediaUrl(u: string)
    requires '\t' !in u && '\r' !in u && '\n' !in u
    ensures var sp := SplitTail("https", "/" + u);
      Parse(EnWikipediaPrefix + u) == Ok(ParsedUrl("https", "en.wikipedia.org", sp.0, sp.1, sp.2, sp.3))
  {
    var url := EnWikipediaPrefix + u;
    var rest := "//en.wikipedia.org/" + u;
    CleanWikiUrl(u);
    SplitSchemeOfWikiUrl(u);
    SplitAuthorityOfWikiUrl(u);
    HostHasNoBrackets();
    assert RemoveUnsafe(StripC0Left(url)) == url;
    assert SplitScheme(url) == ("https", rest);
    assert SplitAuthority(rest) == ("en.wikipedia.org", "/" + u);
  }

  lemma HostHasNoBrackets()
    ensures BracketsBalanced("en.wikipedia.org")
  {
    var host := "en.wikipedia.org";
    assert forall k :: 0 <= k < |host| ==> host[k] != '[' && host[k] != ']';
  }

  lemma CleanWikiUrl(u: string)
    requires '\t' !in u && '\r' !in u && '\n' !in u
    ensures RemoveUnsafe(StripC0Left(EnWikipediaPrefix + u)) == EnWikipediaPrefix + u
  {
    var url := EnWikipediaPrefix + u;
    assert url[0] == 'h';
    assert StripC0Left(url) == url;
    NoUnsafeInUrl(u);
  }

  lemma SplitSchemeOfWikiUrl(u: string)
    ensures SplitScheme(EnWikipediaPrefix + u) == ("https", "//en.wikipedia.org/" + u)
  {
    SchemeOfWikiUrl(u);
    WikiUrlHead(u);
    WikiUrlRest(u);
  }

  lemma WikiUrlHead(u: string)
    ensures Lower((EnWikipediaPrefix + u)[..5]) == "https"
  {
    var head := (EnWikipediaPrefix + u)[..5];
    assert head == "https";
    var low := Lower(head);
    assert low[0] == 'h' && low[1] == 't' && low[2] == 't' && low[3] == 'p' && low[4] == 's';
  }

  lemma WikiUrlRest(u: string)
    ensures (EnWikipediaPrefix + u)[6..] == "//en.wikipedia.org/" + u
  {
    assert EnWikipediaPrefix == "https:" + "//en.wikipedia.org/";
  }

  lemma SplitAuthorityOfWikiUrl(u: string)
    ensures SplitAuthority("//en.wikipedia.org/" + u) == ("en.wikipedia.org", "/" + u)
  {
    var pre := "//en.wikipedia.org/";
    var rest := pre + u;
    AuthorityOfWikiUrl(u);
    HostSlice(u);
    assert rest[..2] == "//";
    assert StartsWith(rest, "//");
    assert rest[18..] == "/" + u;
  }

  lemma HostSlice(u: string)
    ensures ("//en.wikipedia.org/" + u)[2..18] == "en.wikipedia.org"
  {
    var pre := "//en.wikipedia.org/";
    var host := "en.wikipedia.org";
    assert pre == "//" + host + "/";
    assert (pre + u)[2..18] == ("//" + host + "/" + u)[2..18];
    assert ("//" + host + "/" + u)[2..2 + |host|] == host;
  }

  lemma SplitTailOfWikiPath(t: string)
    requires '?' !in t && '#' !in t && ';' !in t
    ensures SplitTail("https", "/wiki/" + t) == ("/wiki/" + t, "", "", "")
  {
    var path := "/wiki/" + t;
    assert '#' !in "/wiki/" && '?' !in "/wiki/" && ';' !in "/wiki/";
    assert '#' !in path && '?' !in path && ';' !in path;
  }

  lemma NoUnsafeInUrl(u: string)
    requires '\t' !in u && '\r' !in u && '\n' !in u
    ensures RemoveUnsafe(EnWikipediaPrefix + u) == EnWikipediaPrefix + u
  {
    var url := EnWikipediaPrefix + u;
    assert '\t' !in EnWikipediaPrefix && '\r' !in EnWikipediaPrefix && '\n' !in EnWikipediaPrefix;
    assert '\t' !in url && '\r' !in url && '\n' !in url;
    RemoveCharAbsent(url, '\t');
    RemoveCharAbsent(url, '\r');
    RemoveCharAbsent(url, '\n');
  }

  lemma {:induction false} RemoveCharAbsent(s: string, c: char)
    requires c !in s
    ensures RemoveChar(s, c) == s
    decreases |s|
  {
    if |s| > 0 {
      RemoveCharAbsent(s[1..], c);
      assert s == [s[0]] + s[1..];
    }
  }

  lemma SchemeOfWikiUrl(u: string)
    ensures SchemeEnd(EnWikipediaPrefix + u) == Some(5)
  {
    var url := EnWikipediaPrefix + u;
    assert url[..6] == "https:";
    assert url[0] == 'h' && url[1] == 't' && url[2] == 't' && url[3] == 'p' && url[4] == 's' && url[5] == ':';
    assert url[5..6] == ":";
    ContainsAt(url, ":", 5);
    var i := Find(url, ":").value;
    assert i <= 5 by {
      if i > 5 {
        assert StartsWith(url[5..], ":");
      }
    }
    assert url[i] == ':' by {
      assert url[i..i + 1] == ":";
    }
    assert i == 5;
    assert forall k :: 0 <= k < 5 ==> IsSchemeChar(url[k]);
  }

  lemma AuthorityOfWikiUrl(u: string)
    ensures AuthorityEnd("//en.wikipedia.org/" + u, 2) == 18
  {
    var rest := "//en.wikipedia.org/" + u;
    assert rest[18] == '/';
    assert forall k :: 2 <= k < 18 ==> rest[k] !in "/?#";
    var e := AuthorityEnd(rest, 2);
  }

  lemma SplitAfterSeparator(sep: string, t: string)
    requires |sep| > 0 && !Contains(t, sep)
    ensures Split(sep + t, sep) == ["", t]
  {
    var s := sep + t;
    assert StartsWith(s, sep);
    assert Find(s, sep) == Some(0);
    assert s[|sep|..] == t;
  }

  // ---- Confidence ----

  /** `handle_entity_linking`: the confidence tier of an entity link.
      Looking at the resource of a link without one raises. */
  function Confidence(resource: Option<string>, linkMethod: Option<string>): (r: Result<Option<char>>)
    ensures r.Err? <==> resource.None?
    ensures r.Ok? && StartsWith(resource.value, "#DocRED") ==> r.value == Some('C')
    ensures r.Ok? && !StartsWith(resource.value, "#DocRED") ==>
      (r.value == Some('B') <==> linkMethod in {Some("links-in-page"), Some("common-knowledge")})
    ensures r.Ok? && !StartsWith(resource.value, "#DocRED") ==>
      (r.value == Some('A') <==> linkMethod in {Some("manual"), Some("num/time"), Some("hyperlinks-alignment")})
    ensures r.Ok? && r.value.Some? ==> r.value.value in "ABC"
  {
    match resource
    case None => Err("AttributeError: 'NoneType' object has no attribute 'startswith'")
    case Some(s) =>
      if StartsWith(s, "#DocRED") then Ok(Some('C'))
      else if linkMethod == Some("links-in-page") || linkMethod == Some("common-knowledge") then Ok(Some('B'))
      else if linkMethod == Some("manual") || linkMethod == Some("num/time") || linkMethod == Some("hyperlinks-alignment") then Ok(Some('A'))
      else Ok(None)
  }

  /** `a < b` on confidences: tiers compare as letters, so `A` is the best;
      comparing with a missing tier raises. */
  function ConfidenceLess(a: Option<char>, b: Option<char>): (r: Result<bool>)
    ensures r.Err? <==> a.None? || b.None?
    ensures r.Ok? ==> (r.value <==> a.value < b.value)
    ensures a.Some? && a.value in "ABC" && b == Some('A') ==> r == Ok(false)
    ensures a == Some('A') && b in {Some('B'), Some('C')} ==> r == Ok(true)
    ensures a == Some('B') && b == Some('C') ==> r == Ok(true)
  {
    if a.None? || b.None? then Err("TypeError: '<' not supported between instances") else Ok(a.value < b.value)
  }
}
