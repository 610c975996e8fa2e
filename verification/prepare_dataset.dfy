/** Conversion of DocRED documents to the input of the PURE baseline
    (`baseline/pure/prepare_dataset.py`).

    A document becomes a single sentence holding all its tokens. Each
    mention's token range `[pos0, pos1)` in its sentence becomes the
    inclusive document range `(offset + pos0, offset + pos1 - 1)`, where the
    offset of a sentence is the number of tokens before it. The named
    entities are these ranges with the entity type, one per mention in
    entity and mention order; the relations are a `COREF` pair for every two
    mentions of one entity, then every labelled relation between the first
    mentions of its head and tail. Only the first ten documents are
    converted. */
module PrepareDataset {
  import opened Wrappers
  import opened Strings

  const MaxDocuments := 10
  const CorefLabel := "COREF"

  datatype Mention = Mention(sentId: nat, posStart: nat, posEnd: nat)

  datatype Entity = Entity(kind: string, mentions: seq<Mention>)

  datatype Relation = Relation(h: nat, t: nat, r: string)

  datatype Instance = Instance(sents: seq<seq<string>>, entities: seq<Entity>, relations: seq<Relation>)

  /** An inclusive range of document tokens. */
  datatype Span = Span(start: int, end: int)

  datatype NerItem = NerItem(start: int, end: int, kind: string)

  datatype RelItem = RelItem(head: Span, tail: Span, r: string)

  datatype Output = Output(docKey: string, sentences: seq<seq<string>>, ner: seq<seq<NerItem>>, relations: seq<seq<RelItem>>)

  /** All tokens of a document, sentence after sentence. */
  function Tokens(sents: seq<seq<string>>): seq<string>
    decreases |sents|
  {
    if |sents| == 0 then [] else Tokens(sents[..|sents| - 1]) + sents[|sents| - 1]
  }

  /** `[0] + cumsum(len(sent) for sent in sents)`. */
  function StartOffsets(sents: seq<seq<string>>): (r: seq<nat>)
    ensures |r| == |sents| + 1
    ensures r[0] == 0
    ensures forall s :: 0 <= s < |sents| ==> r[s + 1] == r[s] + |sents[s]|
    ensures r[|sents|] == |Tokens(sents)|
    decreases |sents|
  {
    if |sents| == 0 then [0]
    else
      var init := sents[..|sents| - 1];
      var prev := StartOffsets(init);
      assert forall s :: 0 <= s < |init| ==> init[s] == sents[s];
      prev + [prev[|init|] + |sents[|sents| - 1]|]
  }

  /** The offsets never decrease. */
  lemma {:induction false} OffsetsMonotone(sents: seq<seq<string>>, a: nat, b: nat)
    requires a <= b <= |sents|
    ensures StartOffsets(sents)[a] <= StartOffsets(sents)[b]
    decreases b - a
  {
    if a < b {
      OffsetsMonotone(sents, a, b - 1);
    }
  }

  /** Token `p` of sentence `s` sits at the sentence's offset plus `p` in the
      flattened document. */
  lemma {:induction false} TokenAtOffset(sents: seq<seq<string>>, s: nat, p: nat)
    requires s < |sents| && p < |sents[s]|
    ensures StartOffsets(sents)[s] + p < |Tokens(sents)|
    ensures Tokens(sents)[StartOffsets(sents)[s] + p] == sents[s][p]
    decreases |sents|
  {
    var init := sents[..|sents| - 1];
    var offsets := StartOffsets(sents);
    assert StartOffsets(init) == offsets[..|sents|];
    if s < |sents| - 1 {
      assert init[s] == sents[s];
      TokenAtOffset(init, s, p);
      OffsetsMonotone(init, s + 1, |init|);
    }
  }

  /** `mention['doc_pos']`: the inclusive document range of a mention. */
  function DocPos(offsets: seq<nat>, m: Mention): (r: Result<Span>)
    ensures r.Ok? <==> m.sentId < |offsets|
    ensures r.Ok? ==> r.value.start == offsets[m.sentId] + m.posStart
    ensures r.Ok? ==> r.value.end - r.value.start == m.posEnd - m.posStart - 1
  {
    if m.sentId < |offsets| then Ok(Span(offsets[m.sentId] + m.posStart, offsets[m.sentId] + m.posEnd - 1))
    else Err("IndexError: list index out of range")
  }

  /** The ranges of an entity's mentions, in order. */
  function MentionSpans(offsets: seq<nat>, mentions: seq<Mention>): (r: Result<seq<Span>>)
    ensures r.Ok? <==> forall k :: 0 <= k < |mentions| ==> mentions[k].sentId < |offsets|
    ensures r.Ok? ==> |r.value| == |mentions| && forall k :: 0 <= k < |mentions| ==> Ok(r.value[k]) == DocPos(offsets, mentions[k])
    decreases |mentions|
  {
    if |mentions| == 0 then Ok([])
    else
      var first :- DocPos(offsets, mentions[0]);
      var rest :- MentionSpans(offsets, mentions[1..]);
      assert forall k :: 1 <= k < |mentions| ==> mentions[k] == mentions[1..][k - 1];
      Ok([first] + rest)
  }

  /** The ranges of every entity's mentions. */
  function EntitySpans(offsets: seq<nat>, entities: seq<Entity>): (r: Result<seq<seq<Span>>>)
    ensures r.Ok? <==> forall e :: 0 <= e < |entities| ==> MentionSpans(offsets, entities[e].mentions).Ok?
    ensures r.Ok? ==> |r.value| == |entities| && forall e :: 0 <= e < |entities| ==> Ok(r.value[e]) == MentionSpans(offsets, entities[e].mentions)
    decreases |entities|
  {
    if |entities| == 0 then Ok([])
    else
      var first :- MentionSpans(offsets, entities[0].mentions);
      var rest :- EntitySpans(offsets, entities[1..]);
      assert forall e :: 1 <= e < |entities| ==> entities[e] == entities[1..][e - 1];
      Ok([first] + rest)
  }

  /** `ner`: one item per mention, entity after entity. */
  function Ner(entities: seq<Entity>, spans: seq<seq<Span>>): (r: seq<NerItem>)
    requires |spans| == |entities|
    ensures |r| == SpanCount(spans)
    decreases |entities|
  {
    if |entities| == 0 then []
    else
      var first := seq(|spans[0]|, k requires 0 <= k < |spans[0]| => NerItem(spans[0][k].start, spans[0][k].end, entities[0].kind));
      first + Ner(entities[1..], spans[1..])
  }

  function SpanCount(spans: seq<seq<Span>>): nat {
    if |spans| == 0 then 0 else |spans[0]| + SpanCount(spans[1..])
  }

  /** Item `k` of entity `e`'s mentions in the `ner` list. */
  lemma {:induction false} NerItemOfMention(entities: seq<Entity>, spans: seq<seq<Span>>, e: nat, k: nat)
    requires |spans| == |entities| && e < |entities| && k < |spans[e]|
    ensures SpanCount(spans[..e]) + k < |Ner(entities, spans)|
    ensures Ner(entities, spans)[SpanCount(spans[..e]) + k] == NerItem(spans[e][k].start, spans[e][k].end, entities[e].kind)
    decreases e
  {
    if e > 0 {
      NerItemOfMention(entities[1..], spans[1..], e - 1, k);
      assert spans[..e] == [spans[0]] + spans[1..][..e - 1];
      SpanCountCons(spans[0], spans[1..][..e - 1]);
      SpanCountPrefix(spans, e);
    } else {
      assert spans[..0] == [];
    }
  }

  lemma SpanCountCons(x: seq<Span>, xs: seq<seq<Span>>)
    ensures SpanCount([x] + xs) == |x| + SpanCount(xs)
  {
    assert ([x] + xs)[1..] == xs;
  }

  lemma {:induction false} SpanCountPrefix(spans: seq<seq<Span>>, e: nat)
    requires e <= |spans|
    ensures SpanCount(spans[..e]) <= SpanCount(spans)
    decreases e
  {
    if e > 0 {
      assert spans[..e][1..] == spans[1..][..e - 1];
      SpanCountPrefix(spans[1..], e - 1);
    }
  }

  /** The `COREF` pairs of one entity: every two mentions, earlier first. */
  function CorefPairs(spans: seq<Span>): seq<RelItem>
    decreases |spans|
  {
    if |spans| == 0 then []
    else LeadPairs(spans) + CorefPairs(spans[1..])
  }

  /** The pairs of the first mention with each later one. */
  function LeadPairs(spans: seq<Span>): (r: seq<RelItem>)
    requires |spans| > 0
    ensures |r| == |spans| - 1
    ensures forall j :: 0 <= j < |r| ==> r[j] == RelItem(spans[0], spans[j + 1], CorefLabel)
  {
    seq(|spans| - 1, j requires 0 <= j < |spans| - 1 => RelItem(spans[0], spans[j + 1], CorefLabel))
  }

  /** An entity with n mentions has n(n-1)/2 pairs. */
  lemma {:induction false} CorefPairsCount(spans: seq<Span>)
    ensures 2 * |CorefPairs(spans)| == |spans| * (|spans| - 1)
    decreases |spans|
  {
    if |spans| > 0 {
      CorefPairsCount(spans[1..]);
      var n := |spans|;
      assert 2 * |CorefPairs(spans[1..])| == (n - 1) * (n - 2);
      assert (n - 1) * (n - 2) + 2 * (n - 1) == n * (n - 1);
    }
  }

  /** The pairs are exactly the mentions `i < j`, with mention `i` first. */
  lemma {:induction false} CorefPairsMembers(spans: seq<Span>, x: RelItem)
    ensures x in CorefPairs(spans) <==> exists i, j :: 0 <= i < j < |spans| && x == RelItem(spans[i], spans[j], CorefLabel)
    decreases |spans|
  {
    if |spans| > 0 {
      var first := LeadPairs(spans);
      var tail := spans[1..];
      CorefPairsMembers(tail, x);
      assert CorefPairs(spans) == first + CorefPairs(tail);
      if x in first {
        var j :| 0 <= j < |first| && first[j] == x;
        assert x == RelItem(spans[0], spans[j + 1], CorefLabel);
      }
      if x in CorefPairs(tail) {
        var i, j :| 0 <= i < j < |tail| && x == RelItem(tail[i], tail[j], CorefLabel);
        assert x == RelItem(spans[i + 1], spans[j + 1], CorefLabel);
      }
      if exists i, j :: 0 <= i < j < |spans| && x == RelItem(spans[i], spans[j], CorefLabel) {
        var i, j :| 0 <= i < j < |spans| && x == RelItem(spans[i], spans[j], CorefLabel);
        if i == 0 {
          assert first[j - 1] == x;
        } else {
          assert x == RelItem(tail[i - 1], tail[j - 1], CorefLabel);
        }
      }
    }
  }

  /** The labelled relations, each between the first mentions of its head
      and its tail entity. */
  function RelationItems(spans: seq<seq<Span>>, relations: seq<Relation>): (r: Result<seq<RelItem>>)
    ensures r.Ok? <==> forall k :: 0 <= k < |relations| ==>
      relations[k].h < |spans| && relations[k].t < |spans| && |spans[relations[k].h]| > 0 && |spans[relations[k].t]| > 0
    ensures r.Ok? ==> |r.value| == |relations| && forall k :: 0 <= k < |relations| ==>
      r.value[k] == RelItem(spans[relations[k].h][0], spans[relations[k].t][0], relations[k].r)
    decreases |relations|
  {
    if |relations| == 0 then Ok([])
    else
      var rel := relations[0];
      if rel.h >= |spans| || rel.t >= |spans| || |spans[rel.h]| == 0 || |spans[rel.t]| == 0 then
        Err("IndexError: list index out of range")
      else
        var rest :- RelationItems(spans, relations[1..]);
        assert forall k :: 1 <= k < |relations| ==> relations[k] == relations[1..][k - 1];
        Ok([RelItem(spans[rel.h][0], spans[rel.t][0], rel.r)] + rest)
  }

  /** All `COREF` pairs, entity after entity. */
  function AllCorefPairs(spans: seq<seq<Span>>): seq<RelItem> {
    if |spans| == 0 then [] else CorefPairs(spans[0]) + AllCorefPairs(spans[1..])
  }

  lemma {:induction false} AllCorefPairsCount(spans: seq<seq<Span>>)
    ensures |AllCorefPairs(spans)| == CorefPairCount(spans)
    decreases |spans|
  {
    if |spans| > 0 {
      CorefPairsCount(spans[0]);
      AllCorefPairsCount(spans[1..]);
    }
  }

  /** The number of `COREF` pairs: n(n-1)/2 for an entity with n mentions. */
  function CorefPairCount(spans: seq<seq<Span>>): nat {
    if |spans| == 0 then 0 else |spans[0]| * (|spans[0]| - 1) / 2 + CorefPairCount(spans[1..])
  }

  /** Every mention names an existing sentence (the offsets list has one
      entry more than there are sentences) and every relation names two
      existing entities that have mentions. */
  predicate WellIndexed(inst: Instance) {
    && (forall e, k :: 0 <= e < |inst.entities| && 0 <= k < |inst.entities[e].mentions| ==> inst.entities[e].mentions[k].sentId <= |inst.sents|)
    && (forall k :: 0 <= k < |inst.relations| ==>
         && inst.relations[k].h < |inst.entities| && inst.relations[k].t < |inst.entities|
         && |inst.entities[inst.relations[k].h].mentions| > 0 && |inst.entities[inst.relations[k].t].mentions| > 0)
  }

  /** One document under key `key-<name>-<index>`; an `IndexError` unless it
      is well indexed. */
  function ProcessInstance(name: string, index: nat, inst: Instance): (r: Result<Output>)
    ensures r.Ok? <==> WellIndexed(inst)
  {
    var spans :- EntitySpans(StartOffsets(inst.sents), inst.entities);
    var labelled :- RelationItems(spans, inst.relations);
    Ok(Output("key-" + name + "-" + NatToString(index), [Tokens(inst.sents)], [Ner(inst.entities, spans)], [AllCorefPairs(spans) + labelled]))
  }

  /** The fields of a processed document: its key, one flattened sentence,
      one `ner` item per mention and, after the `COREF` pairs of every
      entity, one item per labelled relation. */
  lemma ProcessInstanceShape(name: string, index: nat, inst: Instance)
    requires ProcessInstance(name, index, inst).Ok?
    ensures var out := ProcessInstance(name, index, inst).value;
      && out.docKey == "key-" + name + "-" + NatToString(index)
      && out.sentences == [Tokens(inst.sents)]
      && |out.ner| == 1 && |out.ner[0]| == MentionCount(inst.entities)
      && |out.relations| == 1 && |out.relations[0]| == CorefCount(inst.entities) + |inst.relations|
  {
    var spans := EntitySpans(StartOffsets(inst.sents), inst.entities).value;
    SpansKeepCounts(StartOffsets(inst.sents), inst.entities);
    AllCorefPairsCount(spans);
  }

  /** The number of mentions of all entities. */
  function MentionCount(entities: seq<Entity>): nat {
    if |entities| == 0 then 0 else |entities[0].mentions| + MentionCount(entities[1..])
  }

  /** The number of `COREF` pairs of all entities. */
  function CorefCount(entities: seq<Entity>): nat {
    if |entities| == 0 then 0
    else |entities[0].mentions| * (|entities[0].mentions| - 1) / 2 + CorefCount(entities[1..])
  }

  lemma {:induction false} SpansKeepCounts(offsets: seq<nat>, entities: seq<Entity>)
    requires EntitySpans(offsets, entities).Ok?
    ensures SpanCount(EntitySpans(offsets, entities).value) == MentionCount(entities)
    ensures CorefPairCount(EntitySpans(offsets, entities).value) == CorefCount(entities)
    decreases |entities|
  {
    if |entities| > 0 {
      var spans := EntitySpans(offsets, entities).value;
      var rest := EntitySpans(offsets, entities[1..]);
      assert rest.Ok? && spans[1..] == rest.value by {
        assert forall e :: 0 <= e < |entities[1..]| ==> entities[1..][e] == entities[e + 1];
        forall e | 0 <= e < |entities[1..]|
          ensures Ok(spans[1..][e]) == MentionSpans(offsets, entities[1..][e].mentions)
        {
          assert spans[1..][e] == spans[e + 1];
        }
      }
      assert |spans[0]| == |entities[0].mentions| by {
        assert Ok(spans[0]) == MentionSpans(offsets, entities[0].mentions);
      }
      SpansKeepCounts(offsets, entities[1..]);
    }
  }

  /** `process_dataset`: the first ten documents, in order. */
  function ProcessDataset(name: string, data: seq<Instance>): (r: Result<seq<Output>>)
    ensures r.Ok? <==> forall k :: 0 <= k < |data| && k < MaxDocuments ==> WellIndexed(data[k])
    ensures r.Ok? ==> |r.value| == (if |data| < MaxDocuments then |data| else MaxDocuments)
  {
    var docs := data[..if |data| < MaxDocuments then |data| else MaxDocuments];
    assert forall k :: 0 <= k < |docs| ==> docs[k] == data[k];
    CollectNumbered((index: nat, inst: Instance) => ProcessInstance(name, index, inst), 0, docs)
  }

  /** Document `k` of the output is document `k` of the input processed
      under index `k`. */
  lemma ProcessDatasetAt(name: string, data: seq<Instance>, k: nat)
    requires ProcessDataset(name, data).Ok? && k < |ProcessDataset(name, data).value|
    ensures Ok(ProcessDataset(name, data).value[k]) == ProcessInstance(name, k, data[k])
  {
    var docs := data[..if |data| < MaxDocuments then |data| else MaxDocuments];
    var f := (index: nat, inst: Instance) => ProcessInstance(name, index, inst);
    CollectNumberedAt(f, 0, docs, k);
    assert 0 + k == k;
    assert docs[k] == data[k];
  }

  /** No two documents of the output share a key. */
  lemma DocKeysDistinct(name: string, data: seq<Instance>, a: nat, b: nat)
    requires ProcessDataset(name, data).Ok?
    requires a < b < |ProcessDataset(name, data).value|
    ensures ProcessDataset(name, data).value[a].docKey != ProcessDataset(name, data).value[b].docKey
  {
    var out := ProcessDataset(name, data).value;
    ProcessDatasetAt(name, data, a);
    ProcessDatasetAt(name, data, b);
    ProcessInstanceShape(name, a, data[a]);
    ProcessInstanceShape(name, b, data[b]);
    var pre := "key-" + name + "-";
    assert NatToString(a) == out[a].docKey[|pre|..];
    assert NatToString(b) == out[b].docKey[|pre|..];
    if NatToString(a) == NatToString(b) {
      NatToStringInjective(a, b);
    }
  }
}
