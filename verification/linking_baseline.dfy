/** The entity-linking baseline (`baseline/entity-linking/predict.py`).

    The entities that are not numbers or dates are kept, and each mention is
    keyed by its lower-cased, stripped name. Every distinct key is searched
    once; a search returns Wikipedia URLs, each turned back into a title by
    dropping the 30-character English Wikipedia prefix and percent-decoding
    the rest. The candidates of an entity are then its mentions' search
    results fused by position, and the prediction is their ranking.

    The search is a parameter. The source's reader returns entities where
    the prediction loop expects documents, and its `wikidata` option runs the
    Wikipedia search; the model predicts for every kept entity with the
    Wikipedia search. */
module LinkingBaseline {
  import opened Wrappers
  import opened Strings
  import Finalize
  import UrlParse
  import RankFusion

  datatype Entity = Entity(kind: string, names: seq<string>)

  datatype Instance = Instance(entities: seq<Entity>)

  /** Numbers and dates are not linked. */
  predicate Linkable(e: Entity) {
    e.kind != "NUM" && e.kind != "TIME"
  }

  /** The entities of all documents, document after document. */
  function AllEntities(instances: seq<Instance>): seq<Entity> {
    if |instances| == 0 then [] else AllEntities(instances[..|instances| - 1]) + instances[|instances| - 1].entities
  }

  /** The linkable entities of all documents, in order: the filter applied
      to the entities of every document in turn. */
  function KeptEntities(instances: seq<Instance>): (r: seq<Entity>)
    ensures r == Filter(AllEntities(instances))
    ensures forall e :: e in r <==> Linkable(e) && exists i :: 0 <= i < |instances| && e in instances[i].entities
    decreases |instances|
  {
    if |instances| == 0 then []
    else
      var here := Filter(instances[0].entities);
      var rest := KeptEntities(instances[1..]);
      assert forall i :: 1 <= i < |instances| ==> instances[i] == instances[1..][i - 1];
      AllEntitiesCons(instances);
      FilterAppend(instances[0].entities, AllEntities(instances[1..]));
      here + rest
  }

  lemma {:induction false} AllEntitiesCons(instances: seq<Instance>)
    requires |instances| > 0
    ensures AllEntities(instances) == instances[0].entities + AllEntities(instances[1..])
    decreases |instances|
  {
    if |instances| > 1 {
      var init := instances[..|instances| - 1];
      AllEntitiesCons(init);
      assert init[1..] == instances[1..][..|instances[1..]| - 1];
      assert init[0] == instances[0];
    }
  }

  /** `if not entity['type'] in ['NUM', 'TIME']`: the linkable entities, in
      order. A list of linkable entities is kept whole, one without any is
      dropped, and with `FilterAppend` the filter keeps the order and the
      multiplicity of what it keeps. */
  function Filter(entities: seq<Entity>): (r: seq<Entity>)
    ensures forall e :: e in r <==> e in entities && Linkable(e)
    ensures (forall k :: 0 <= k < |entities| ==> Linkable(entities[k])) ==> r == entities
    ensures (forall k :: 0 <= k < |entities| ==> !Linkable(entities[k])) ==> r == []
    decreases |entities|
  {
    if |entities| == 0 then []
    else
      assert entities == [entities[0]] + entities[1..];
      assert forall k :: 1 <= k < |entities| ==> entities[1..][k - 1] == entities[k];
      (if Linkable(entities[0]) then [entities[0]] else []) + Filter(entities[1..])
  }

  /** The filter works entity by entity. */
  lemma {:induction false} FilterAppend(a: seq<Entity>, b: seq<Entity>)
    ensures Filter(a + b) == Filter(a) + Filter(b)
    decreases |a|
  {
    if |a| == 0 {
      assert a + b == b;
    } else {
      assert (a + b)[1..] == a[1..] + b;
      FilterAppend(a[1..], b);
    }
  }

  /** `mention['name'].lower().strip()`. */
  function KeyOf(name: string): string {
    Strip(Lower(name))
  }

  /** The keys of an entity's mentions, in order. */
  function MentionKeys(e: Entity): (r: seq<string>)
    ensures |r| == |e.names| && forall m :: 0 <= m < |e.names| ==> r[m] == KeyOf(e.names[m])
  {
    seq(|e.names|, m requires 0 <= m < |e.names| => KeyOf(e.names[m]))
  }

  /** Some mention of some entity has key `k`. */
  predicate HasKey(entities: seq<Entity>, k: string) {
    exists e :: 0 <= e < |entities| && k in MentionKeys(entities[e])
  }

  /** No element twice. */
  predicate Unique(xs: seq<string>) {
    forall a, b :: 0 <= a < b < |xs| ==> xs[a] != xs[b]
  }

  /** The keys not in `seen`, appended in first-appearance order. */
  function AddKeys(seen: seq<string>, keys: seq<string>): (r: seq<string>)
    ensures forall k :: k in r <==> k in seen || k in keys
    ensures Unique(seen) ==> Unique(r)
    decreases |keys|
  {
    if |keys| == 0 then seen
    else
      var next := if keys[0] in seen then seen else seen + [keys[0]];
      assert forall x :: x in next <==> x in seen || x == keys[0];
      assert Unique(seen) ==> Unique(next);
      assert forall x :: x in keys <==> x == keys[0] || x in keys[1..];
      AddKeys(next, keys[1..])
  }

  /** The unique surface forms: every key of every mention exactly once. The
      source lists a set, in no particular order; here the order is that of
      first appearance. */
  function SurfaceForms(entities: seq<Entity>): (r: seq<string>)
    ensures forall k :: k in r <==> HasKey(entities, k)
    ensures Unique(r)
  {
    FormsFrom([], entities)
  }

  function FormsFrom(seen: seq<string>, entities: seq<Entity>): (r: seq<string>)
    ensures forall k :: k in r <==> k in seen || HasKey(entities, k)
    ensures Unique(seen) ==> Unique(r)
    decreases |entities|
  {
    if |entities| == 0 then seen
    else
      var next := AddKeys(seen, MentionKeys(entities[0]));
      assert forall e :: 1 <= e < |entities| ==> entities[e] == entities[1..][e - 1];
      FormsFrom(next, entities[1..])
  }

  /** `process_wikipedia_link(url)`: the percent-decoded text after the
      first 30 characters of a URL holding the English Wikipedia prefix; any
      other URL raises. */
  function ProcessWikipediaLink(url: string): (r: Result<string>)
    ensures r.Ok? <==> Contains(url, Finalize.EnWikiPrefix)
    ensures r.Ok? ==> |url| >= 30 && r.value == UrlParse.Unquote(url[30..])
  {
    if Contains(url, Finalize.EnWikiPrefix) then
      ContainsLonger(url, Finalize.EnWikiPrefix);
      Ok(UrlParse.Unquote(url[30..]))
    else Err(url)
  }

  /** The prefix is 30 characters long. */
  lemma PrefixLength()
    ensures |Finalize.EnWikiPrefix| == 30
  {
    var p := "https://en.wikipedia.org/wiki/";
    assert p == Finalize.EnWikiPrefix;
  }

  /** An article URL gives back its title: the prefix is dropped and the
      percent-encoding undone. */
  lemma ProcessArticleUrl(title: string)
    requires forall k :: 0 <= k < |title| ==> title[k] as int < 0x80
    ensures ProcessWikipediaLink(Finalize.EnWikiPrefix + UrlParse.PercentEncodeAll(title)) == Ok(title)
  {
    PrefixLength();
    var url := Finalize.EnWikiPrefix + UrlParse.PercentEncodeAll(title);
    ContainsAt(url, Finalize.EnWikiPrefix, 0);
    assert url[30..] == UrlParse.PercentEncodeAll(title);
    UrlParse.UnquotePercentEncodeAll(title);
  }

  /** All results of one search, or the first URL that raises. */
  function ProcessLinks(urls: seq<string>): (r: Result<seq<string>>)
    ensures r.Ok? <==> forall q :: 0 <= q < |urls| ==> Contains(urls[q], Finalize.EnWikiPrefix)
    ensures r.Ok? ==> |r.value| == |urls| && forall q :: 0 <= q < |urls| ==> ProcessWikipediaLink(urls[q]) == Ok(r.value[q])
    decreases |urls|
  {
    if |urls| == 0 then Ok([])
    else
      var first :- ProcessWikipediaLink(urls[0]);
      var rest :- ProcessLinks(urls[1..]);
      assert forall q :: 1 <= q < |urls| ==> urls[q] == urls[1..][q - 1];
      Ok([first] + rest)
  }

  /** `disambiguate_wikipedia`: every surface form with its decoded search
      results. */
  function Disambiguate(forms: seq<string>, search: string -> seq<string>): (r: Result<map<string, seq<string>>>)
    ensures r.Ok? <==> forall f :: 0 <= f < |forms| ==> ProcessLinks(search(forms[f])).Ok?
    ensures r.Ok? ==> forall k :: k in r.value <==> k in forms
    ensures r.Ok? ==> forall k :: k in r.value ==> ProcessLinks(search(k)) == Ok(r.value[k])
    decreases |forms|
  {
    if |forms| == 0 then Ok(map[])
    else
      var results :- ProcessLinks(search(forms[0]));
      var rest :- Disambiguate(forms[1..], search);
      assert forall f :: 1 <= f < |forms| ==> forms[f] == forms[1..][f - 1];
      Ok(rest[forms[0] := results])
  }

  /** The candidate lists of an entity, one per mention key; a key missing
      from the table raises. */
  function MentionLists(keys: seq<string>, table: map<string, seq<string>>): (r: Result<seq<seq<seq<string>>>>)
    ensures r.Ok? <==> forall m :: 0 <= m < |keys| ==> keys[m] in table
    ensures r.Ok? ==> |r.value| == |keys| && forall m :: 0 <= m < |keys| ==> r.value[m] == [table[keys[m]]]
    decreases |keys|
  {
    if |keys| == 0 then Ok([])
    else if keys[0] !in table then Err("KeyError")
    else
      var rest :- MentionLists(keys[1..], table);
      assert forall m :: 1 <= m < |keys| ==> keys[m] == keys[1..][m - 1];
      Ok([[table[keys[0]]]] + rest)
  }

  /** One group per mention key, holding the search results of the key:
      each mention contributes one candidate list to the fusion. */
  function KeyGroups(keys: seq<string>, table: map<string, seq<string>>): (r: seq<seq<seq<string>>>)
    requires forall m :: 0 <= m < |keys| ==> keys[m] in table
    ensures |r| == |keys| && forall m :: 0 <= m < |keys| ==> r[m] == [table[keys[m]]]
  {
    seq(|keys|, m requires 0 <= m < |keys| => [table[keys[m]]])
  }

  /** A candidate is listed for the mentions' lists iff some mention's key
      found it. */
  lemma ListedByMention(keys: seq<string>, table: map<string, seq<string>>, groups: seq<seq<seq<string>>>, c: string)
    requires |groups| == |keys|
    requires forall m :: 0 <= m < |keys| ==> keys[m] in table && groups[m] == [table[keys[m]]]
    ensures RankFusion.Listed(groups, c) <==> exists m :: 0 <= m < |keys| && c in table[keys[m]]
  {
    if RankFusion.Listed(groups, c) {
      var g :| 0 <= g < |groups| && RankFusion.InSome(groups[g], c);
      var l :| 0 <= l < |groups[g]| && c in groups[g][l];
      assert c in table[keys[g]];
    }
    if exists m :: 0 <= m < |keys| && c in table[keys[m]] {
      var m :| 0 <= m < |keys| && c in table[keys[m]];
      assert groups[m][0] == table[keys[m]];
      assert RankFusion.InSome(groups[m], c);
    }
  }

  /** `predicted_entity_linking` of one entity: every candidate some mention
      found, once, in non-decreasing order of the score the positional
      fusion of the mentions' search results gives it (`np.argsort`). */
  function PredictEntity(e: Entity, table: map<string, seq<string>>): (r: Result<seq<string>>)
    ensures var keys := MentionKeys(e);
      r.Ok? <==> forall m :: 0 <= m < |keys| ==> keys[m] in table
    ensures var keys := MentionKeys(e);
      r.Ok? ==> forall c :: c in r.value <==> exists m :: 0 <= m < |keys| && c in table[keys[m]]
    ensures r.Ok? ==> forall c :: multiset(r.value)[c] <= 1
    ensures r.Ok? ==> RankFusion.SortedBy(RankFusion.FuseMentions([], KeyGroups(MentionKeys(e), table)), r.value)
  {
    var keys := MentionKeys(e);
    var groups :- MentionLists(keys, table);
    assert groups == KeyGroups(keys, table);
    var fused := RankFusion.FuseMentions([], groups);
    RankFusion.FuseMentionsKeepsDistinct([], groups);
    RankFusion.RankingIsPermutation(fused);
    var r := RankFusion.Ranking(fused);
    assert forall c :: c in r <==> RankFusion.Listed(groups, c) by {
      forall c
        ensures c in r <==> RankFusion.Listed(groups, c)
      {
        assert c !in RankFusion.KeySet([]);
      }
    }
    forall c
      ensures RankFusion.Listed(groups, c) <==> exists m :: 0 <= m < |keys| && c in table[keys[m]]
    {
      ListedByMention(keys, table, groups, c);
    }
    Ok(r)
  }

  /** The predictions of every linkable entity, in order. */
  function Predict(instances: seq<Instance>, search: string -> seq<string>): (r: Result<seq<seq<string>>>)
    ensures r.Ok? <==> Disambiguate(SurfaceForms(KeptEntities(instances)), search).Ok?
    ensures r.Ok? ==> |r.value| == |KeptEntities(instances)|
    ensures r.Ok? ==> forall i :: 0 <= i < |r.value| ==>
      PredictEntity(KeptEntities(instances)[i], Disambiguate(SurfaceForms(KeptEntities(instances)), search).value) == Ok(r.value[i])
  {
    var entities := KeptEntities(instances);
    var table :- Disambiguate(SurfaceForms(entities), search);
    PredictAll(entities, table)
  }

  /** Every mention key of the entities has a search result. */
  ghost predicate Known(entities: seq<Entity>, table: map<string, seq<string>>) {
    forall k :: HasKey(entities, k) ==> k in table
  }

  lemma KnownAt(entities: seq<Entity>, table: map<string, seq<string>>, i: nat)
    requires i < |entities| && Known(entities, table)
    ensures PredictEntity(entities[i], table).Ok?
  {
    var keys := MentionKeys(entities[i]);
    forall m | 0 <= m < |keys|
      ensures keys[m] in table
    {
      assert HasKey(entities, keys[m]);
    }
  }

  /** With every key searched, no prediction raises. */
  function PredictAll(entities: seq<Entity>, table: map<string, seq<string>>): (r: Result<seq<seq<string>>>)
    requires Known(entities, table)
    ensures r.Ok?
    ensures |r.value| == |entities| && forall i :: 0 <= i < |entities| ==> PredictEntity(entities[i], table) == Ok(r.value[i])
  {
    forall i | 0 <= i < |entities|
      ensures PredictEntity(entities[i], table).Ok?
    {
      KnownAt(entities, table, i);
    }
    Ok(seq(|entities|, i requires 0 <= i < |entities| && PredictEntity(entities[i], table).Ok? => PredictEntity(entities[i], table).value))
  }
}
