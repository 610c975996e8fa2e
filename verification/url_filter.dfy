/** `filter_url`: which hyperlinks of a Wikipedia page are kept, and as
    what.

    A URL mentioning `wikipedia.org` is matched against the edit-link
    pattern `.*wikipedia.org.*?title=(.*)&.*` (a Python `re.match`, so
    anchored at the start; `.` matches any character except a newline,
    including the dot inside `wikipedia.org`); on a match the captured title
    is kept, otherwise the URL itself. Citation anchors, absolute and
    protocol-relative links are dropped, and page-relative links `./X` keep
    `X`. */
module UrlFilter {
  import opened Wrappers
  import opened Strings

  predicate NoNewline(s: string) {
    '\n' !in s
  }

  /** `wikipedia.org` read as a pattern at position `p`. */
  predicate WikiPatternAt(url: string, p: nat) {
    p + 13 <= |url| && url[p..p + 9] == "wikipedia" && url[p + 9] != '\n' && url[p + 10..p + 13] == "org"
  }

  /** The pattern matches `url` with `wikipedia.org` at `p`, `title=` at `t`
      and the `&` closing the group at `e`; the group is `url[t + 6..e]`. */
  predicate EditMatchAt(url: string, p: nat, t: nat, e: nat) {
    && p + 13 <= t && t + 6 <= e < |url|
    && NoNewline(url[..p]) && WikiPatternAt(url, p) && NoNewline(url[p + 13..t])
    && url[t..t + 6] == "title=" && NoNewline(url[t + 6..e]) && url[e] == '&'
  }

  /** The match `re.match` reports. Backtracking tries the greedy leading
      `.*` longest first, then the lazy `.*?` shortest first, then the
      greedy group longest first, so the reported match has the last
      possible `wikipedia.org`, then the first `title=` after it that can
      close, then the last `&` that closes the group. */
  ghost predicate SelectedMatch(url: string, p: nat, t: nat, e: nat) {
    EditMatchAt(url, p, t, e) && NoLaterWiki(url, p) && NoEarlierTitle(url, p, t) && NoLaterAmp(url, p, t, e)
  }

  ghost predicate NoLaterWiki(url: string, p: nat) {
    forall p': nat, t': nat, e': nat :: p < p' ==> !EditMatchAt(url, p', t', e')
  }

  ghost predicate NoEarlierTitle(url: string, p: nat, t: nat) {
    forall t': nat, e': nat :: t' < t ==> !EditMatchAt(url, p, t', e')
  }

  ghost predicate NoLaterAmp(url: string, p: nat, t: nat, e: nat) {
    forall e': nat :: e < e' ==> !EditMatchAt(url, p, t, e')
  }

  /** The selection rule picks at most one match. */
  lemma SelectedMatchUnique(url: string, p: nat, t: nat, e: nat, p': nat, t': nat, e': nat)
    requires SelectedMatch(url, p, t, e) && SelectedMatch(url, p', t', e')
    ensures p == p' && t == t' && e == e'
  {
    assert NoLaterWiki(url, p) && NoLaterWiki(url, p');
    assert p == p';
    assert NoEarlierTitle(url, p, t) && NoEarlierTitle(url, p, t');
    assert t == t';
    assert NoLaterAmp(url, p, t, e) && NoLaterAmp(url, p, t, e');
  }

  /** The first newline at or after `from`, or the end of `url`. */
  function LineEnd(url: string, from: nat): (r: nat)
    requires from <= |url|
    ensures from <= r <= |url|
    ensures NoNewline(url[from..r])
    ensures r == |url| || url[r] == '\n'
    decreases |url| - from
  {
    if from == |url| || url[from] == '\n' then from
    else
      var r := LineEnd(url, from + 1);
      assert url[from..r] == [url[from]] + url[from + 1..r];
      r
  }

  /** A stretch starting at `from` is newline-free exactly when it stops at
      or before the line end. */
  lemma NoNewlineUpTo(url: string, from: nat, to: nat)
    requires from <= to <= |url|
    ensures NoNewline(url[from..to]) <==> to <= LineEnd(url, from)
  {
    var r := LineEnd(url, from);
    if to > r {
      assert url[from..to][r - from] == '\n';
    } else {
      assert forall c :: c in url[from..to] ==> c in url[from..r] by {
        forall c | c in url[from..to] ensures c in url[from..r] {
          var k :| 0 <= k < to - from && url[from..to][k] == c;
          assert url[from..r][k] == c;
        }
      }
    }
  }

  /** The last `&` in `url[from..lim)`: the greedy `(.*)&`. */
  function LastAmp(url: string, from: nat, lim: nat): (r: Option<nat>)
    requires from <= lim <= |url|
    ensures r.Some? ==> from <= r.value < lim && url[r.value] == '&'
    ensures r.Some? ==> forall e :: r.value < e < lim ==> url[e] != '&'
    ensures r.None? ==> forall e :: from <= e < lim ==> url[e] != '&'
    decreases lim - from
  {
    if lim == from then None
    else if url[lim - 1] == '&' then Some(lim - 1)
    else LastAmp(url, from, lim - 1)
  }

  /** The `&` that closes the group when `title=` stands at `t`. */
  function GroupEnd(url: string, t: nat): (r: Option<nat>)
    requires t + 6 <= |url|
    ensures r.Some? ==> t + 6 <= r.value < |url| && NoNewline(url[t + 6..r.value]) && url[r.value] == '&'
    ensures r.Some? ==> forall e :: r.value < e < |url| && NoNewline(url[t + 6..e]) ==> url[e] != '&'
    ensures r.None? ==> forall e :: t + 6 <= e < |url| && NoNewline(url[t + 6..e]) ==> url[e] != '&'
  {
    LastAmpOnLine(url, t + 6);
    LastAmp(url, t + 6, LineEnd(url, t + 6))
  }

  /** Searching up to the line end finds the last `&` reachable without
      crossing a newline. */
  lemma LastAmpOnLine(url: string, from: nat)
    requires from <= |url|
    ensures var r := LastAmp(url, from, LineEnd(url, from));
      && (r.Some? ==> NoNewline(url[from..r.value]))
      && (r.Some? ==> forall e :: r.value < e < |url| && NoNewline(url[from..e]) ==> url[e] != '&')
      && (r.None? ==> forall e :: from <= e < |url| && NoNewline(url[from..e]) ==> url[e] != '&')
  {
    var r := LastAmp(url, from, LineEnd(url, from));
    if r.Some? {
      NoNewlineUpTo(url, from, r.value);
      forall e | r.value < e < |url| && NoNewline(url[from..e])
        ensures url[e] != '&'
      {
        NoNewlineUpTo(url, from, e);
      }
    } else {
      forall e | from <= e < |url| && NoNewline(url[from..e])
        ensures url[e] != '&'
      {
        NoNewlineUpTo(url, from, e);
      }
    }
  }

  predicate TitleAt(url: string, t: nat) {
    t + 6 <= |url| && url[t..t + 6] == "title=" && GroupEnd(url, t).Some?
  }

  /** The lazy `.*?title=`: the first `title=` at or after `t`, and not past
      `lim`, after which the group can close. */
  function FirstTitle(url: string, t: nat, lim: nat): (r: Option<(nat, nat)>)
    requires t <= lim <= |url|
    ensures r.Some? ==> t <= r.value.0 <= lim && TitleAt(url, r.value.0) && GroupEnd(url, r.value.0) == Some(r.value.1)
    ensures r.Some? ==> forall u :: t <= u < r.value.0 ==> !TitleAt(url, u)
    ensures r.None? ==> forall u :: t <= u <= lim ==> !TitleAt(url, u)
    decreases lim - t
  {
    if TitleAt(url, t) then Some((t, GroupEnd(url, t).value))
    else if t == lim then None
    else FirstTitle(url, t + 1, lim)
  }

  /** The lazy search for `title=` after a `wikipedia.org` at `q`, on the
      rest of its line. */
  function TitleAfter(url: string, q: nat): (r: Option<(nat, nat)>)
    requires WikiPatternAt(url, q)
    ensures r.Some? ==> q + 13 <= r.value.0 <= LineEnd(url, q + 13) && TitleAt(url, r.value.0) && GroupEnd(url, r.value.0) == Some(r.value.1)
    ensures r.Some? ==> forall u :: q + 13 <= u < r.value.0 ==> !TitleAt(url, u)
    ensures r.None? ==> forall u :: q + 13 <= u <= LineEnd(url, q + 13) ==> !TitleAt(url, u)
  {
    FirstTitle(url, q + 13, LineEnd(url, q + 13))
  }

  /** From a `wikipedia.org` at `q` the rest of the pattern matches. */
  predicate WikiMatchesAt(url: string, q: nat) {
    WikiPatternAt(url, q) && TitleAfter(url, q).Some?
  }

  /** The greedy leading `.*`: the last place up to `p` for `wikipedia.org`
      from which the rest of the pattern matches. */
  function LastWiki(url: string, p: nat): (r: Option<(nat, nat, nat)>)
    ensures r.Some? ==>
      && r.value.0 <= p && WikiPatternAt(url, r.value.0)
      && TitleAfter(url, r.value.0) == Some((r.value.1, r.value.2))
    ensures r.Some? ==> forall q :: r.value.0 < q <= p ==> !WikiMatchesAt(url, q)
    ensures r.None? ==> forall q :: 0 <= q <= p ==> !WikiMatchesAt(url, q)
    decreases p
  {
    if WikiMatchesAt(url, p) then
      var te := TitleAfter(url, p).value;
      Some((p, te.0, te.1))
    else if p == 0 then None
    else LastWiki(url, p - 1)
  }

  /** `edit_regex.match(url)` and, on a match, `group(1)`. */
  function EditTitle(url: string): (r: Option<string>)
    ensures r.Some? ==> exists p: nat, t: nat, e: nat :: EditMatchAt(url, p, t, e) && r.value == url[t + 6..e]
    ensures r.Some? ==> exists p: nat, t: nat, e: nat :: SelectedMatch(url, p, t, e) && r.value == url[t + 6..e]
    ensures r.None? ==> forall p: nat, t: nat, e: nat :: !EditMatchAt(url, p, t, e)
  {
    match LastWiki(url, LineEnd(url, 0))
    case Some(pte) =>
      LastWikiMatches(url, pte.0, pte.1, pte.2);
      LastWikiSelects(url, pte.0, pte.1, pte.2);
      Some(url[pte.1 + 6..pte.2])
    case None =>
      NoWikiNoMatch(url);
      None
  }

  /** What the search returns is a match. */
  lemma LastWikiMatches(url: string, p: nat, t: nat, e: nat)
    requires LastWiki(url, LineEnd(url, 0)) == Some((p, t, e))
    ensures EditMatchAt(url, p, t, e)
  {
    NoNewlineUpTo(url, 0, p);
    assert url[..p] == url[0..p];
    NoNewlineUpTo(url, p + 13, t);
  }

  /** Whenever the selection rule picks a match, its group is the title. */
  lemma {:induction false} EditTitleSelects(url: string, p: nat, t: nat, e: nat)
    requires SelectedMatch(url, p, t, e)
    ensures EditTitle(url) == Some(url[t + 6..e])
  {
    var r := EditTitle(url);
    assert r.Some?;
    SelectedGroup(url, r.value, p, t, e);
  }

  /** A group that the selected match gives is the group of any selected
      match. */
  lemma {:induction false} SelectedGroup(url: string, title: string, p: nat, t: nat, e: nat)
    requires exists p0: nat, t0: nat, e0: nat :: SelectedMatch(url, p0, t0, e0) && title == url[t0 + 6..e0]
    requires SelectedMatch(url, p, t, e)
    ensures title == url[t + 6..e]
  {
    var p0: nat, t0: nat, e0: nat :| SelectedMatch(url, p0, t0, e0) && title == url[t0 + 6..e0];
    SelectedMatchUnique(url, p, t, e, p0, t0, e0);
  }

  /** What the search returns is the match the selection rule picks: no
      later `wikipedia.org` leads to a match, no earlier `title=` after it
      closes, and no later `&` on the line closes the group. */
  lemma {:induction false} LastWikiSelects(url: string, p: nat, t: nat, e: nat)
    requires LastWiki(url, LineEnd(url, 0)) == Some((p, t, e))
    ensures SelectedMatch(url, p, t, e)
  {
    LastWikiMatches(url, p, t, e);
    LastWikiIsLast(url, p);
    FirstTitleIsFirst(url, p, t, e);
    GroupEndIsLast(url, p, t, e);
  }

  /** No `wikipedia.org` after `p` on the first line leads to a match, so no
      match has a later one. */
  lemma {:induction false} LastWikiIsLast(url: string, p: nat)
    requires forall q :: p < q <= LineEnd(url, 0) ==> !WikiMatchesAt(url, q)
    ensures NoLaterWiki(url, p)
  {
    forall p': nat, t': nat, e': nat | p < p'
      ensures !EditMatchAt(url, p', t', e')
    {
      if EditMatchAt(url, p', t', e') {
        MatchHasTitle(url, p', t', e');
        assert WikiMatchesAt(url, p');
      }
    }
  }

  /** The lazy search's `title=` is the first that closes. */
  lemma {:induction false} FirstTitleIsFirst(url: string, p: nat, t: nat, e: nat)
    requires WikiPatternAt(url, p) && TitleAfter(url, p) == Some((t, e))
    ensures NoEarlierTitle(url, p, t)
  {
    forall t': nat, e': nat | t' < t
      ensures !EditMatchAt(url, p, t', e')
    {
      if EditMatchAt(url, p, t', e') {
        MatchHasTitle(url, p, t', e');
      }
    }
  }

  /** The group ends at the last `&` on the line. */
  lemma GroupEndIsLast(url: string, p: nat, t: nat, e: nat)
    requires t + 6 <= |url| && GroupEnd(url, t) == Some(e)
    ensures NoLaterAmp(url, p, t, e)
  {
  }

  /** A match's `wikipedia.org` lies on the first line, its `title=` is one
      the lazy search accepts, and the search from it succeeds. */
  lemma MatchHasTitle(url: string, p: nat, t: nat, e: nat)
    requires EditMatchAt(url, p, t, e)
    ensures p <= LineEnd(url, 0) && t <= LineEnd(url, p + 13)
    ensures TitleAt(url, t) && TitleAfter(url, p).Some?
  {
    assert url[..p] == url[0..p];
    NoNewlineUpTo(url, 0, p);
    NoNewlineUpTo(url, p + 13, t);
    assert GroupEnd(url, t).Some?;
    assert TitleAt(url, t);
    assert p + 13 <= t <= LineEnd(url, p + 13);
  }

  /** When the search finds nothing, nothing matches. */
  lemma NoWikiNoMatch(url: string)
    requires LastWiki(url, LineEnd(url, 0)).None?
    ensures forall p: nat, t: nat, e: nat :: !EditMatchAt(url, p, t, e)
  {
    forall p: nat, t: nat, e: nat | EditMatchAt(url, p, t, e)
      ensures false
    {
      MatchIsFound(url, p, t, e);
    }
  }

  /** Every match lies within reach of the search: its `wikipedia.org`
      position is one the greedy loop tries, and its `title=` one the lazy
      loop tries. */
  lemma MatchIsFound(url: string, p: nat, t: nat, e: nat)
    requires EditMatchAt(url, p, t, e)
    ensures LastWiki(url, LineEnd(url, 0)).Some?
  {
    assert url[..p] == url[0..p];
    NoNewlineUpTo(url, 0, p);
    MatchHasTitle(url, p, t, e);
    assert WikiMatchesAt(url, p);
  }

  /** `filter_url`: kept links are the edit-link title, the Wikipedia URL
      itself, or the target of a page-relative link; everything else is
      dropped. */
  function FilterUrl(url: string): (r: Option<string>)
    ensures r.None? <==> !Contains(url, "wikipedia.org") && (Contains(url, "cite_note") || !StartsWith(url, "./"))
    ensures r.Some? && !Contains(url, "wikipedia.org") ==> url == "./" + r.value
    ensures r.Some? && Contains(url, "wikipedia.org") ==>
      (r.value == url <==> forall p: nat, t: nat, e: nat :: !EditMatchAt(url, p, t, e))
    ensures r.Some? && r.value != url ==>
      !Contains(url, "wikipedia.org") || exists p: nat, t: nat, e: nat :: EditMatchAt(url, p, t, e) && r.value == url[t + 6..e]
    ensures r.Some? && r.value != url && Contains(url, "wikipedia.org") ==>
      exists p: nat, t: nat, e: nat :: SelectedMatch(url, p, t, e) && r.value == url[t + 6..e]
  {
    if Contains(url, "wikipedia.org") then
      match EditTitle(url)
      case Some(title) => Some(title)
      case None => Some(url)
    else if Contains(url, "cite_note") then None
    else if StartsWith(url, "./") then
      assert url == url[..2] + url[2..];
      Some(url[2..])
    else None
  }

  /** A Wikipedia edit link keeps exactly the group of the match the
      regular expression reports. */
  lemma {:induction false} FilterUrlSelects(url: string, p: nat, t: nat, e: nat)
    requires Contains(url, "wikipedia.org") && SelectedMatch(url, p, t, e)
    ensures FilterUrl(url) == Some(url[t + 6..e])
  {
    EditTitleSelects(url, p, t, e);
  }
}
