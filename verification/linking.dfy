/** Automatic entity linking of one DocRED document against the Wikipedia
    page it was matched to (`disambiguate_instance`).

    The document text is aligned character by character with the page's
    abstract. A mention is linked in three passes:
    1. hyperlink alignment: the first abstract link whose aligned range
       overlaps the mention and whose text is more than 3/4 similar to the
       mention's name;
    2. for the mentions still unlinked, in order: a mention with the same name
       linked in pass 1 (coreference), one with the same normalised name
       (simplified coreference), a link of the page with that normalised text
       (link in page), a name of the article itself (article name);
    3. the mention links of each entity are folded into one entity link, and
       numbers and dates are marked as ignored. The source binds the folded
       record to its loop variable only; `LinkEntities` stores it, as
       intended, and `AsWrittenLinkEntities` drops it. */
module Linking {
  import opened Wrappers
  import opened Strings
  import opened Normalize
  import opened Similarity
  import opened Positions
  import Alignment

  /** A hyperlink of the abstract: its text, its filtered resource and its
      character range `[start, end)` in the abstract text. */
  datatype WikiLink = WikiLink(text: string, resource: string, start: nat, end: nat)

  /** What `get_wiki_page` extracts from a downloaded page: the abstract
      text, the hyperlinks of the abstract, and every link of the page keyed
      by its normalised text. */
  datatype WikiPage = WikiPage(abstractText: string, abstractLinks: seq<WikiLink>, allLinks: map<string, string>)

  /** A link of the page that enters `wiki_all_links`: its normalised text
      is not empty and its resource survived `filter_url`. */
  predicate Keyed(anchors: seq<(string, Option<string>)>, k: int)
    requires 0 <= k < |anchors|
  {
    anchors[k].0 != "" && anchors[k].1.Some?
  }

  /** The `k`-th link is the one `wiki_all_links` keeps under `key`. */
  predicate Winner(anchors: seq<(string, Option<string>)>, key: string, k: int)
    requires 0 <= k < |anchors|
  {
    Keyed(anchors, k) && anchors[k].0 == key &&
    forall j :: k < j < |anchors| && Keyed(anchors, j) ==> anchors[j].0 != key
  }

  /** `wiki_all_links`: the page's links, as (normalised text, filtered
      resource) pairs, keyed by their text; an empty text or a rejected
      resource is dropped. */
  function PageLinks(anchors: seq<(string, Option<string>)>): (r: map<string, string>)
    ensures "" !in r
    ensures forall k :: 0 <= k < |anchors| && Keyed(anchors, k) ==> anchors[k].0 in r
    decreases |anchors|
  {
    if |anchors| == 0 then map[]
    else
      var m := PageLinks(anchors[..|anchors| - 1]);
      var last := anchors[|anchors| - 1];
      assert forall k :: 0 <= k < |anchors| - 1 ==> anchors[..|anchors| - 1][k] == anchors[k];
      if last.0 != "" && last.1.Some? then m[last.0 := last.1.value] else m
  }

  /** A later link with the same text wins: every key of `wiki_all_links`
      holds the resource of the last link entered under it. */
  lemma {:induction false} PageLinksLastWins(anchors: seq<(string, Option<string>)>, key: string)
    requires key in PageLinks(anchors)
    ensures exists k :: 0 <= k < |anchors| && Winner(anchors, key, k) && PageLinks(anchors)[key] == anchors[k].1.value
    decreases |anchors|
  {
    var n := |anchors| - 1;
    var init := anchors[..n];
    var last := anchors[n];
    if last.0 == key && last.1.Some? {
      assert Winner(anchors, key, n);
    } else {
      PageLinksLastWins(init, key);
      var k :| 0 <= k < |init| && Winner(init, key, k) && PageLinks(init)[key] == init[k].1.value;
      assert init[k] == anchors[k];
      assert Winner(anchors, key, k) by {
        forall j | k < j < |anchors| && Keyed(anchors, j)
          ensures anchors[j].0 != key
        {
          if j < n {
            assert init[j] == anchors[j];
            assert Keyed(init, j);
          }
        }
      }
    }
  }

  /** The row of `1_matched_docred.jsonl` naming the page of a document. */
  datatype Hit = Hit(dataset: string, id: nat, resource: string)

  /** `mention['resource']`: where a mention was linked, by which matcher,
      and for coreferences the `"<entity>-<mention>"` tag of the mention it
      copies. */
  datatype MentionLink = MentionLink(url: string, matcher: string, coref: Option<string>)

  /** An entity is linked to a Wikipedia resource or, through a coreference,
      to another entity of the same document. */
  datatype Target = Url(url: string) | EntityIndex(index: nat)

  datatype EntityLinking = EntityLinking(resource: Option<Target>, matcher: Option<string>)

  datatype LinkedEntity = LinkedEntity(linking: EntityLinking, mentions: seq<PlacedMention>, kind: string)

  datatype LinkedDoc = LinkedDoc(dataset: string, id: nat, entities: seq<LinkedEntity>)

  const HyperlinksAlignment := "hyperlinks-alignment"
  const Coreference := "coreference"
  const CoreferenceSimplified := "coreference-simplified"
  const LinkInPage := "link-in-page"
  const ArticleName := "article-name"
  const LinksInPage := "links-in-page"
  const Ignored := "#ignored#"
  const NumTime := "num/time"

  /** The similarity a hyperlink's text must exceed. */
  const AlignmentThreshold: real := 0.75

  /** `get_wiki_page` asserts that every abstract link's range slices its
      text out of the abstract; a page failing it is treated as missing. */
  predicate ConsistentPage(page: WikiPage) {
    forall k :: 0 <= k < |page.abstractLinks| ==>
      page.abstractLinks[k].start <= page.abstractLinks[k].end <= |page.abstractText|
      && page.abstractText[page.abstractLinks[k].start..page.abstractLinks[k].end] == page.abstractLinks[k].text
  }

  /** `wiki_to_docred[k]`: a missing key raises. */
  function Lookup(m: map<int, Option<int>>, k: int): (r: Result<Option<int>>)
    ensures r.Ok? <==> k in m
    ensures r.Ok? ==> r.value == m[k]
  {
    if k in m then Ok(m[k]) else Err("KeyError")
  }

  // ---- Pass 1: hyperlink alignment ----

  /** Whether the aligned range of `link` overlaps the mention's character
      range `[charStart, charEnd)`: its first character lands strictly before
      the mention's last one, and its last character is unaligned or lands
      after the mention's first one. */
  predicate Overlaps(m: PlacedMention, wikiStart: Option<int>, wikiEnd: Option<int>) {
    wikiStart.Some? && wikiStart.value < m.charEnd - 1 && (wikiEnd.None? || wikiEnd.value > m.charStart)
  }

  /** The test the hyperlink pass applies to one abstract link. */
  function LinkMatches(page: WikiPage, toDoc: map<int, Option<int>>, m: PlacedMention, link: WikiLink): (r: Result<bool>)
    requires link.start <= link.end <= |page.abstractText|
    ensures r.Err? ==>
      || link.start !in toDoc || link.end - 1 !in toDoc
      || (Overlaps(m, toDoc[link.start], toDoc[link.end - 1]) && |m.mention.name| == 0 && link.start == link.end)
    ensures r == Ok(true) ==>
      && link.start in toDoc && link.end - 1 in toDoc && Overlaps(m, toDoc[link.start], toDoc[link.end - 1])
      && TextSimilarity(m.mention.name, page.abstractText[link.start..link.end]).Ok?
      && TextSimilarity(m.mention.name, page.abstractText[link.start..link.end]).value > AlignmentThreshold
  {
    var wikiStart :- Lookup(toDoc, link.start);
    var wikiEnd :- Lookup(toDoc, link.end - 1);
    if Overlaps(m, wikiStart, wikiEnd) then
      var sim :- TextSimilarity(m.mention.name, page.abstractText[link.start..link.end]);
      Ok(sim > AlignmentThreshold)
    else Ok(false)
  }

  /** The first of `links[from..]` the test accepts; a test that raises
      before one is accepted makes the pass raise. */
  function FirstMatch(page: WikiPage, toDoc: map<int, Option<int>>, m: PlacedMention, from: nat): (r: Result<Option<nat>>)
    requires ConsistentPage(page) && from <= |page.abstractLinks|
    ensures r.Ok? && r.value.Some? ==>
      && from <= r.value.value < |page.abstractLinks|
      && LinkMatches(page, toDoc, m, page.abstractLinks[r.value.value]) == Ok(true)
    ensures r.Ok? ==> forall k :: from <= k < |page.abstractLinks| && (r.value.None? || k < r.value.value) ==>
      LinkMatches(page, toDoc, m, page.abstractLinks[k]) == Ok(false)
    ensures r.Err? ==> exists k :: from <= k < |page.abstractLinks| && LinkMatches(page, toDoc, m, page.abstractLinks[k]).Err?
    decreases |page.abstractLinks| - from
  {
    if from == |page.abstractLinks| then Ok(None)
    else
      var hit :- LinkMatches(page, toDoc, m, page.abstractLinks[from]);
      if hit then Ok(Some(from)) else FirstMatch(page, toDoc, m, from + 1)
  }

  function FirstMatches(page: WikiPage, toDoc: map<int, Option<int>>, ms: seq<PlacedMention>): (r: seq<Result<Option<nat>>>)
    requires ConsistentPage(page)
    ensures |r| == |ms| && forall i :: 0 <= i < |ms| ==> r[i] == FirstMatch(page, toDoc, ms[i], 0)
  {
    seq(|ms|, i requires 0 <= i < |ms| => FirstMatch(page, toDoc, ms[i], 0))
  }

  /** The abstract link pass 1 gives each mention of an entity. */
  function AlignMentions(page: WikiPage, toDoc: map<int, Option<int>>, ms: seq<PlacedMention>): (r: Result<seq<Option<WikiLink>>>)
    requires ConsistentPage(page)
    ensures r.Ok? <==> forall i :: 0 <= i < |ms| ==> FirstMatch(page, toDoc, ms[i], 0).Ok?
    ensures r.Ok? ==> |r.value| == |ms| && forall i :: 0 <= i < |ms| ==>
      r.value[i] == (match FirstMatch(page, toDoc, ms[i], 0).value
                     case None => None
                     case Some(k) => Some(page.abstractLinks[k]))
  {
    var matches :- Collect(FirstMatches(page, toDoc, ms));
    Ok(seq(|ms|, i requires 0 <= i < |ms| =>
      match matches[i] case None => None case Some(k) => Some(page.abstractLinks[k])))
  }

  function AlignEntities(page: WikiPage, toDoc: map<int, Option<int>>, vs: seq<seq<PlacedMention>>): (r: Result<seq<seq<Option<WikiLink>>>>)
    requires ConsistentPage(page)
    ensures r.Ok? <==> forall e :: 0 <= e < |vs| ==> AlignMentions(page, toDoc, vs[e]).Ok?
    ensures r.Ok? ==> |r.value| == |vs| && forall e :: 0 <= e < |vs| ==> r.value[e] == AlignMentions(page, toDoc, vs[e]).value
  {
    if |vs| == 0 then Ok([])
    else
      var first :- AlignMentions(page, toDoc, vs[0]);
      var rest :- AlignEntities(page, toDoc, vs[1..]);
      Ok([first] + rest)
  }

  predicate SameShape<T>(vs: seq<seq<PlacedMention>>, xs: seq<seq<T>>) {
    |xs| == |vs| && forall e :: 0 <= e < |vs| ==> |xs[e]| == |vs[e]|
  }

  // ---- The tables of aligned names ----

  /** `f"{entity_id}-{i}"`. */
  function CorefTag(entityId: nat, i: nat): string {
    NatToString(entityId) + "-" + NatToString(i)
  }

  /** `int(coref.split("-")[0])`. */
  function CorefEntity(coref: string): Result<nat> {
    ParseNat(Split(coref, "-")[0])
  }

  /** Reading back a coreference tag gives the entity it was made from. */
  lemma CorefTagRoundTrip(entityId: nat, i: nat)
    ensures CorefEntity(CorefTag(entityId, i)) == Ok(entityId)
  {
    var x := NatToString(entityId);
    var s := CorefTag(entityId, i);
    assert s[|x|..|x| + 1] == "-";
    ContainsAt(s, "-", |x|);
    var k := Find(s, "-").value;
    assert k == |x|;
    assert s[..k] == x;
  }

  /** A mention that pass 1 aligned, and the table entry it records. */
  datatype AlignEvent = AlignEvent(name: string, url: string, coref: string)

  /** The entries recorded by pass 1, entity by entity and mention by mention,
      starting at mention `i` of entity `e`. */
  function AlignEvents(vs: seq<seq<PlacedMention>>, hits: seq<seq<Option<WikiLink>>>, e: nat, i: nat): (r: seq<AlignEvent>)
    requires SameShape(vs, hits) && e <= |vs| && (e < |vs| ==> i <= |vs[e]|)
    ensures forall ev :: ev in r ==> exists f, j ::
      && InRange(vs, f, j) && hits[f][j].Some?
      && ev == AlignEvent(vs[f][j].mention.name, hits[f][j].value.resource, CorefTag(f, j))
    decreases |vs| - e, if e < |vs| then |vs[e]| - i else 0
  {
    if e == |vs| then []
    else if i == |vs[e]| then AlignEvents(vs, hits, e + 1, 0)
    else
      var rest := AlignEvents(vs, hits, e, i + 1);
      match hits[e][i]
      case None => rest
      case Some(link) => [AlignEvent(vs[e][i].mention.name, link.resource, CorefTag(e, i))] + rest
  }

  predicate InRange(vs: seq<seq<PlacedMention>>, e: int, i: int) {
    0 <= e < |vs| && 0 <= i < |vs[e]|
  }

  /** Every aligned mention from position `(e, i)` on records an entry. */
  lemma {:induction false} AlignEventsComplete(vs: seq<seq<PlacedMention>>, hits: seq<seq<Option<WikiLink>>>, e: nat, i: nat, f: nat, j: nat)
    requires SameShape(vs, hits) && e <= |vs| && (e < |vs| ==> i <= |vs[e]|)
    requires InRange(vs, f, j) && (e < f || (e == f && i <= j)) && hits[f][j].Some?
    ensures AlignEvent(vs[f][j].mention.name, hits[f][j].value.resource, CorefTag(f, j)) in AlignEvents(vs, hits, e, i)
    decreases |vs| - e, if e < |vs| then |vs[e]| - i else 0
  {
    if i == |vs[e]| {
      AlignEventsComplete(vs, hits, e + 1, 0, f, j);
    } else if e == f && i == j {
    } else {
      AlignEventsComplete(vs, hits, e, i + 1, f, j);
    }
  }

  /** A dict filled by successive assignments: the last assignment to a key
      wins. */
  function BuildMap<V>(pairs: seq<(string, V)>): (r: map<string, V>)
    ensures forall k :: k in r <==> exists n :: 0 <= n < |pairs| && pairs[n].0 == k
    ensures forall n :: 0 <= n < |pairs| && (forall n' :: n < n' < |pairs| ==> pairs[n'].0 != pairs[n].0) ==>
      r[pairs[n].0] == pairs[n].1
  {
    if |pairs| == 0 then map[]
    else
      var last := pairs[|pairs| - 1];
      var prefix := pairs[..|pairs| - 1];
      var r := BuildMap(prefix);
      assert forall n :: 0 <= n < |prefix| ==> prefix[n] == pairs[n];
      r[last.0 := last.1]
  }

  datatype Aligned = Aligned(url: string, coref: string)

  /** `text_aligned_entities`: aligned mentions by name. */
  function ExactTable(events: seq<AlignEvent>): map<string, Aligned> {
    BuildMap(seq(|events|, n requires 0 <= n < |events| => (events[n].name, Aligned(events[n].url, events[n].coref))))
  }

  /** `text_aligned_entities_simplified`: aligned mentions by non-empty
      normalised name. */
  function SimplifiedPairs(nz: Normalizer, events: seq<AlignEvent>): (r: seq<(string, Aligned)>)
    ensures forall p :: p in r ==> |p.0| > 0 && OfSomeEvent(nz, events, p)
  {
    if |events| == 0 then []
    else
      var head := EventPair(nz, events[0]);
      var rest := SimplifiedPairs(nz, events[1..]);
      assert OfSomeEvent(nz, events, head);
      forall p | p in rest
        ensures OfSomeEvent(nz, events, p)
      {
        var n :| 0 <= n < |events| - 1 && p == EventPair(nz, events[1..][n]);
        assert events[1..][n] == events[n + 1];
      }
      (if |head.0| > 0 then [head] else []) + rest
  }

  /** `p` is the entry of one of the events. */
  predicate OfSomeEvent(nz: Normalizer, events: seq<AlignEvent>, p: (string, Aligned)) {
    exists n :: 0 <= n < |events| && p == EventPair(nz, events[n])
  }

  /** The entry an aligned mention offers the simplified table: its
      normalised name, with its url and tag. */
  function EventPair(nz: Normalizer, e: AlignEvent): (string, Aligned) {
    (PreprocessAbstract(nz, e.name), Aligned(e.url, e.coref))
  }

  // ---- Pass 2: the fallback cascade ----

  /** The names and tables pass 2 consults. */
  datatype Tables = Tables(exact: map<string, Aligned>, simplified: map<string, Aligned>,
                           allLinks: map<string, string>, articleNames: seq<string>, article: string)

  /** The link pass 2 gives a mention that pass 1 left unlinked: the first
      applicable matcher in the order exact coreference, simplified
      coreference, link in page, article name. */
  function Cascade(nz: Normalizer, t: Tables, name: string): (r: Option<MentionLink>)
    ensures r.None? <==>
      && name !in t.exact && PreprocessAbstract(nz, name) !in t.simplified
      && PreprocessAbstract(nz, name) !in t.allLinks && PreprocessAbstract(nz, name) !in t.articleNames
    ensures name in t.exact ==> r == Some(MentionLink(t.exact[name].url, Coreference, Some(t.exact[name].coref)))
    ensures r.Some? && r.value.matcher == CoreferenceSimplified ==>
      && name !in t.exact
      && PreprocessAbstract(nz, name) in t.simplified && r.value == MentionLink(t.simplified[PreprocessAbstract(nz, name)].url, CoreferenceSimplified,
                                Some(t.simplified[PreprocessAbstract(nz, name)].coref))
    ensures r.Some? && r.value.matcher == LinkInPage ==>
      && name !in t.exact && PreprocessAbstract(nz, name) !in t.simplified
      && PreprocessAbstract(nz, name) in t.allLinks && r.value == MentionLink(t.allLinks[PreprocessAbstract(nz, name)], LinkInPage, None)
    ensures r.Some? && r.value.matcher == ArticleName ==>
      && name !in t.exact && PreprocessAbstract(nz, name) !in t.simplified
      && PreprocessAbstract(nz, name) !in t.allLinks && r.value == MentionLink(t.article, ArticleName, None)
    ensures r.Some? ==> r.value.matcher in {Coreference, CoreferenceSimplified, LinkInPage, ArticleName}
  {
    if name in t.exact then
      Some(MentionLink(t.exact[name].url, Coreference, Some(t.exact[name].coref)))
    else
      var simplified := PreprocessAbstract(nz, name);
      if simplified in t.simplified then
        Some(MentionLink(t.simplified[simplified].url, CoreferenceSimplified, Some(t.simplified[simplified].coref)))
      else if simplified in t.allLinks then
        Some(MentionLink(t.allLinks[simplified], LinkInPage, None))
      else if simplified in t.articleNames then
        Some(MentionLink(t.article, ArticleName, None))
      else None
  }

  /** The link of every mention after passes 1 and 2. */
  function MentionLinks(nz: Normalizer, t: Tables, vs: seq<seq<PlacedMention>>, hits: seq<seq<Option<WikiLink>>>): (r: seq<seq<Option<MentionLink>>>)
    requires SameShape(vs, hits)
    ensures SameShape(vs, r)
    ensures forall e, i :: InRange(vs, e, i) && hits[e][i].Some? ==>
      r[e][i] == Some(MentionLink(hits[e][i].value.resource, HyperlinksAlignment, None))
    ensures forall e, i :: InRange(vs, e, i) && hits[e][i].None? ==> r[e][i] == Cascade(nz, t, vs[e][i].mention.name)
  {
    seq(|vs|, e requires 0 <= e < |vs| =>
      seq(|vs[e]|, i requires 0 <= i < |vs[e]| =>
        match hits[e][i]
        case Some(link) => Some(MentionLink(link.resource, HyperlinksAlignment, None))
        case None => Cascade(nz, t, vs[e][i].mention.name)))
  }

  // ---- Pass 3: folding mention links into entity links ----

  /** The matcher names the fold recognises. */
  datatype FoldTags = FoldTags(alignment: string, coref: string, corefSimplified: string, linkInPage: string, articleName: string)

  /** The names the matchers of passes 1 and 2 record. */
  const ProducerTags := FoldTags(HyperlinksAlignment, Coreference, CoreferenceSimplified, LinkInPage, ArticleName)

  /** One step of the fold, for mention `i`: a link whose matcher is the one
      already recorded changes nothing; a coreference to another entity than
      `i` records that entity; any other recognised link records its URL and
      matcher. */
  function FoldStep(tags: FoldTags, acc: EntityLinking, link: Option<MentionLink>, i: nat): (r: Result<EntityLinking>)
    ensures link.None? || Some(link.value.matcher) == acc.matcher ==> r == Ok(acc)
    ensures r.Ok? && r.value != acc ==> link.Some? && Some(link.value.matcher) != acc.matcher
    ensures r.Ok? && r.value != acc && r.value.resource.Some? && r.value.resource.value.EntityIndex? ==>
      link.value.matcher in {tags.coref, tags.corefSimplified} && r.value.matcher == Some(LinksInPage)
      && link.value.coref.Some? && CorefEntity(link.value.coref.value) == Ok(r.value.resource.value.index)
      && r.value.resource.value.index != i
    ensures r.Ok? && r.value != acc && r.value.resource.Some? && r.value.resource.value.Url? ==>
      link.value.matcher in {tags.alignment, tags.linkInPage, tags.articleName}
      && r.value == EntityLinking(Some(Url(link.value.url)), Some(link.value.matcher))
    ensures r.Ok? && r.value != acc ==> r.value.resource.Some?
  {
    match link
    case None => Ok(acc)
    case Some(l) =>
      if Some(l.matcher) == acc.matcher then Ok(acc)
      else if l.matcher == tags.alignment || l.matcher == tags.linkInPage || l.matcher == tags.articleName then
        Ok(EntityLinking(Some(Url(l.url)), Some(l.matcher)))
      else if l.matcher == tags.coref || l.matcher == tags.corefSimplified then
        match l.coref
        case None => Err("KeyError: 'coref'")
        case Some(coref) =>
          var target :- CorefEntity(coref);
          if target != i then Ok(EntityLinking(Some(EntityIndex(target)), Some(LinksInPage))) else Ok(acc)
      else Ok(acc)
  }

  /** The fold over the first `n` mention links of an entity. */
  function FoldEntity(tags: FoldTags, links: seq<Option<MentionLink>>, n: nat): Result<EntityLinking>
    requires n <= |links|
  {
    if n == 0 then Ok(EntityLinking(None, None))
    else
      var acc :- FoldEntity(tags, links, n - 1);
      FoldStep(tags, acc, links[n - 1], n - 1)
  }

  /** Where a folded entity link comes from: nothing recorded means no
      mention link changed it; a URL is the URL of one of its mention links;
      an entity index is read from the coreference tag of one of them, at a
      different position. */
  lemma {:induction false} FoldProvenance(tags: FoldTags, links: seq<Option<MentionLink>>, n: nat)
    requires n <= |links| && FoldEntity(tags, links, n).Ok?
    ensures var r := FoldEntity(tags, links, n).value;
      && (r.resource.None? <==> r.matcher.None?)
      && (r.resource.Some? && r.resource.value.Url? ==> exists k ::
            && 0 <= k < n && links[k].Some?
            && links[k].value.url == r.resource.value.url && Some(links[k].value.matcher) == r.matcher)
      && (r.resource.Some? && r.resource.value.EntityIndex? ==> r.matcher == Some(LinksInPage))
      && (r.resource.Some? && r.resource.value.EntityIndex? ==> exists k ::
            && 0 <= k < n && links[k].Some? && links[k].value.coref.Some?
            && CorefEntity(links[k].value.coref.value) == Ok(r.resource.value.index) && r.resource.value.index != k)
  {
    if n > 0 {
      FoldProvenance(tags, links, n - 1);
    }
  }

  /** The matcher names the fold of `disambiguate_instance` tests for, as
      written: three of them differ from the names passes 1 and 2 record. */
  const SourceTags := FoldTags("text-alignment", Coreference, "simplified-coreference", LinkInPage, "article-title")

  /** As written, the fold ignores a mention aligned through a hyperlink: an
      entity whose one linked mention was aligned that way stays unlinked. */
  lemma AsWrittenFoldDropsHyperlinks(url: string)
    ensures FoldEntity(SourceTags, [Some(MentionLink(url, HyperlinksAlignment, None))], 1) == Ok(EntityLinking(None, None))
  {
  }

  /** With the names the matchers record, an entity one of whose mentions was
      linked to a URL (by hyperlink, link in page or article name) ends up
      linked. */
  lemma {:induction false} UrlLinkedMentionLinksEntity(links: seq<Option<MentionLink>>, n: nat, k: nat)
    requires k < n <= |links| && FoldEntity(ProducerTags, links, n).Ok?
    requires links[k].Some? && links[k].value.matcher in {HyperlinksAlignment, LinkInPage, ArticleName}
    ensures FoldEntity(ProducerTags, links, n).value.resource.Some?
  {
    var acc := FoldEntity(ProducerTags, links, n - 1).value;
    if n - 1 > k {
      UrlLinkedMentionLinksEntity(links, n - 1, k);
    } else {
      FoldProvenance(ProducerTags, links, n - 1);
    }
  }

  /** `entity[0]['type']`, raising for an entity without mentions. */
  function EntityKind(ms: seq<PlacedMention>): (r: Result<string>)
    ensures r.Ok? <==> |ms| > 0
    ensures r.Ok? ==> r.value == ms[0].mention.kind
  {
    if |ms| == 0 then Err("IndexError: list index out of range") else Ok(ms[0].mention.kind)
  }

  /** Numbers and dates are never linked. */
  function FinishEntity(linking: EntityLinking, ms: seq<PlacedMention>, kind: string): (r: LinkedEntity)
    ensures r.mentions == ms && r.kind == kind
    ensures kind in {"NUM", "TIME"} ==> r.linking == EntityLinking(Some(Url(Ignored)), Some(NumTime))
    ensures kind !in {"NUM", "TIME"} ==> r.linking == linking
  {
    if kind == "NUM" || kind == "TIME" then LinkedEntity(EntityLinking(Some(Url(Ignored)), Some(NumTime)), ms, kind)
    else LinkedEntity(linking, ms, kind)
  }

  function LinkEntities(vs: seq<seq<PlacedMention>>, links: seq<seq<Option<MentionLink>>>, from: nat): (r: Result<seq<LinkedEntity>>)
    requires SameShape(vs, links) && from <= |vs|
    ensures r.Ok? <==> forall e :: from <= e < |vs| ==> |vs[e]| > 0 && FoldEntity(ProducerTags, links[e], |links[e]|).Ok?
    ensures r.Ok? ==> |r.value| == |vs| - from && forall e :: from <= e < |vs| ==>
      r.value[e - from] == FinishEntity(FoldEntity(ProducerTags, links[e], |links[e]|).value, vs[e], vs[e][0].mention.kind)
    decreases |vs| - from
  {
    if from == |vs| then Ok([])
    else
      var linking :- FoldEntity(ProducerTags, links[from], |links[from]|);
      var kind :- EntityKind(vs[from]);
      var rest :- LinkEntities(vs, links, from + 1);
      Ok([FinishEntity(linking, vs[from], kind)] + rest)
  }

  /** Pass 3 as written: the folded entity record is bound to the loop
      variable and never stored, so the document keeps its bare mention
      lists, while the fold and `entity[0]['type']` still raise as in
      `LinkEntities`. */
  function AsWrittenLinkEntities(vs: seq<seq<PlacedMention>>, links: seq<seq<Option<MentionLink>>>, from: nat)
    : (r: Result<seq<seq<PlacedMention>>>)
    requires SameShape(vs, links) && from <= |vs|
    ensures r.Ok? <==> LinkEntities(vs, links, from).Ok?
    ensures r.Ok? ==> r.value == vs[from..]
    decreases |vs| - from
  {
    if from == |vs| then Ok([])
    else
      var folded :- FoldEntity(ProducerTags, links[from], |links[from]|);
      var kind :- EntityKind(vs[from]);
      var rest :- AsWrittenLinkEntities(vs, links, from + 1);
      assert vs[from..] == [vs[from]] + vs[from + 1..];
      Ok([vs[from]] + rest)
  }

  /** An entity whose one mention was aligned through a hyperlink: as
      written the output keeps only its mentions, while the intended pass
      outputs the entity linked to the hyperlink's resource. */
  lemma AsWrittenDropsEntityLinking(m: PlacedMention, url: string)
    requires m.mention.kind != "NUM" && m.mention.kind != "TIME"
    ensures AsWrittenLinkEntities([[m]], [[Some(MentionLink(url, HyperlinksAlignment, None))]], 0) == Ok([[m]])
    ensures LinkEntities([[m]], [[Some(MentionLink(url, HyperlinksAlignment, None))]], 0).Ok?
    ensures LinkEntities([[m]], [[Some(MentionLink(url, HyperlinksAlignment, None))]], 0).value[0].linking
      == EntityLinking(Some(Url(url)), Some(HyperlinksAlignment))
  {
    var links := [[Some(MentionLink(url, HyperlinksAlignment, None))]];
    assert FoldEntity(ProducerTags, links[0], 1) == Ok(EntityLinking(Some(Url(url)), Some(HyperlinksAlignment)));
  }

  /** The tables pass 2 consults, built from the entries pass 1
      recorded, the page's links and the article's names. */
  function PassTables(nz: Normalizer, hit: Hit, page: WikiPage, names: seq<string>, events: seq<AlignEvent>): Tables {
    Tables(ExactTable(events), BuildMap(SimplifiedPairs(nz, events)), page.allLinks,
           seq(|names|, n requires 0 <= n < |names| => PreprocessAbstract(nz, names[n])), hit.resource)
  }

  /** The mention links of a document after passes 1 and 2: an aligned
      mention carries its hyperlink, any other the result of the cascade. */
  function PassLinks(nz: Normalizer, doc: PreparedDoc, hit: Hit, page: WikiPage, names: seq<string>,
                     toDoc: map<int, Option<int>>): (r: Result<seq<seq<Option<MentionLink>>>>)
    requires ConsistentPage(page)
    ensures r.Ok? <==> AlignEntities(page, toDoc, doc.vertexSet).Ok?
    ensures r.Ok? ==> SameShape(doc.vertexSet, r.value)
    ensures r.Ok? ==> forall e, i :: InRange(doc.vertexSet, e, i) ==>
      var hits := AlignEntities(page, toDoc, doc.vertexSet).value;
      && (hits[e][i].Some? ==> r.value[e][i] == Some(MentionLink(hits[e][i].value.resource, HyperlinksAlignment, None)))
      && (hits[e][i].None? ==> r.value[e][i] == Cascade(nz, PassTables(nz, hit, page, names, AlignEvents(doc.vertexSet, hits, 0, 0)), doc.vertexSet[e][i].mention.name))
  {
    var hits :- AlignEntities(page, toDoc, doc.vertexSet);
    var events := AlignEvents(doc.vertexSet, hits, 0, 0);
    Ok(MentionLinks(nz, PassTables(nz, hit, page, names, events), doc.vertexSet, hits))
  }

  /** Every entity has a mention and the fold of its mention links does
      not raise. */
  predicate Foldable(vs: seq<seq<PlacedMention>>, links: seq<seq<Option<MentionLink>>>)
    requires |links| == |vs|
  {
    forall e :: 0 <= e < |vs| ==> |vs[e]| > 0 && FoldEntity(ProducerTags, links[e], |links[e]|).Ok?
  }

  /** Passes 1 to 3 on a document, given the page, the article's names and
      the map from abstract positions to document positions: every entity
      keeps its mentions and takes the fold of its mention links, numbers
      and dates being ignored; it raises when pass 1 raises, when an entity
      has no mention, or when a fold raises. */
  function LinkDocument(nz: Normalizer, doc: PreparedDoc, hit: Hit, page: WikiPage, names: seq<string>,
                        toDoc: map<int, Option<int>>): (r: Result<LinkedDoc>)
    requires ConsistentPage(page)
    ensures r.Ok? <==> PassLinks(nz, doc, hit, page, names, toDoc).Ok? &&
                       Foldable(doc.vertexSet, PassLinks(nz, doc, hit, page, names, toDoc).value)
    ensures r.Ok? ==> r.value.dataset == hit.dataset && r.value.id == hit.id && |r.value.entities| == |doc.vertexSet|
    ensures r.Ok? ==> forall e :: 0 <= e < |doc.vertexSet| ==> r.value.entities[e].mentions == doc.vertexSet[e]
    ensures r.Ok? ==> forall e :: 0 <= e < |doc.vertexSet| ==>
      var links := PassLinks(nz, doc, hit, page, names, toDoc).value;
      r.value.entities[e] == FinishEntity(FoldEntity(ProducerTags, links[e], |links[e]|).value, doc.vertexSet[e], doc.vertexSet[e][0].mention.kind)
    ensures r.Ok? ==> forall e :: 0 <= e < |doc.vertexSet| && r.value.entities[e].kind in {"NUM", "TIME"} ==>
      r.value.entities[e].linking == EntityLinking(Some(Url(Ignored)), Some(NumTime))
  {
    var links :- PassLinks(nz, doc, hit, page, names, toDoc);
    var entities :- LinkEntities(doc.vertexSet, links, 0);
    Ok(LinkedDoc(hit.dataset, hit.id, entities))
  }

  /** `disambiguate_instance`: a missing or inconsistent page gives no
      output; the alignment divides by the document length, so an empty
      document raises; an article without a names entry raises. */
  method DisambiguateInstance(nz: Normalizer, doc: PreparedDoc, hit: Hit, page: Option<WikiPage>,
                              articleNames: map<string, seq<string>>) returns (r: Result<Option<LinkedDoc>>)
    ensures page.None? || !ConsistentPage(page.value) ==> r == Ok(None)
    ensures page.Some? && ConsistentPage(page.value) && |doc.text| == 0 ==> r.Err?
    ensures page.Some? && ConsistentPage(page.value) && |doc.text| > 0 && hit.resource !in articleNames ==> r.Err?
    ensures r.Ok? && r.value.Some? ==>
      && page.Some? && ConsistentPage(page.value) && hit.resource in articleNames
      && LinkDocument(nz, doc, hit, page.value, articleNames[hit.resource],
                      Alignment.FullWalk(doc.text, page.value.abstractText).refToSrc) == Ok(r.value.value)
  {
    if page.None? || !ConsistentPage(page.value) {
      return Ok(None);
    }
    var alignment :- Alignment.NeedlemanWunsch(doc.text, page.value.abstractText);
    if hit.resource !in articleNames {
      return Err("KeyError");
    }
    var linked :- LinkDocument(nz, doc, hit, page.value, articleNames[hit.resource], alignment.refToSrc);
    r := Ok(Some(linked));
  }
}
