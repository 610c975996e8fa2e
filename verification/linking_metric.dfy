/** The entity-linking metric of `metrics/entity_linking.py`.

    Predicted mentions carry the candidate list of their entity. For each
    reference entity that is not a number or a time, every reference mention
    collects the candidate lists of the predicted mentions with the same
    type, sentence and span, and these are fused into one score table per
    entity (the positional fusion of the baseline). The candidates ranked by
    score give the 1-based rank of the entity's gold resource, or -1. */
module LinkingMetric {
  import opened RankFusion
  import opened EntityF1

  /** A reference entity and its gold Wikipedia resource. */
  datatype RefEntity = RefEntity(kind: string, mentions: seq<Span>, gold: string)

  /** A predicted entity and its ranked candidates. */
  datatype PredEntity = PredEntity(kind: string, mentions: seq<Span>, candidates: seq<string>)

  /** A predicted mention with its entity's type and candidates. */
  datatype PredMention = PredMention(span: Span, kind: string, candidates: seq<string>)

  /** `compare_entity_mentions`: same type, sentence and span. */
  predicate SameTypedMention(m: Span, mKind: string, p: PredMention) {
    mKind == p.kind && SameMention(m, p.span)
  }

  /** The predicted mentions of an instance, entity by entity. */
  function Flatten(entities: seq<PredEntity>): (r: seq<PredMention>)
    ensures forall p :: p in r <==> exists e :: 0 <= e < |entities| && p.kind == entities[e].kind && p.candidates == entities[e].candidates && p.span in entities[e].mentions
    decreases |entities|
  {
    if |entities| == 0 then []
    else
      var e := entities[0];
      var here := seq(|e.mentions|, q requires 0 <= q < |e.mentions| => PredMention(e.mentions[q], e.kind, e.candidates));
      var rest := Flatten(entities[1..]);
      forall p
        ensures p in here + rest <==> exists e :: 0 <= e < |entities| && p.kind == entities[e].kind && p.candidates == entities[e].candidates && p.span in entities[e].mentions
      {
        if p in rest {
          var x :| 0 <= x < |entities[1..]| && p.kind == entities[1..][x].kind && p.candidates == entities[1..][x].candidates && p.span in entities[1..][x].mentions;
          assert entities[1..][x] == entities[x + 1];
        }
        if exists x :: 0 <= x < |entities| && p.kind == entities[x].kind && p.candidates == entities[x].candidates && p.span in entities[x].mentions {
          var x :| 0 <= x < |entities| && p.kind == entities[x].kind && p.candidates == entities[x].candidates && p.span in entities[x].mentions;
          if x == 0 {
            var q :| 0 <= q < |e.mentions| && e.mentions[q] == p.span;
            assert here[q] == p;
          } else {
            assert entities[1..][x - 1] == entities[x];
          }
        }
      }
      here + rest
  }

  /** Some prediction matching `m` carries the candidate list `l`. */
  predicate Supplies(m: Span, kind: string, preds: seq<PredMention>, l: seq<string>) {
    exists j :: 0 <= j < |preds| && SameTypedMention(m, kind, preds[j]) && preds[j].candidates == l
  }

  /** The candidate lists of the predicted mentions matching `m`, in the
      order of the predictions. */
  function Matching(m: Span, kind: string, preds: seq<PredMention>): (r: seq<seq<string>>)
    ensures |r| <= |preds|
    ensures forall l :: l in r <==> Supplies(m, kind, preds, l)
    decreases |preds|
  {
    if |preds| == 0 then []
    else
      var rest := Matching(m, kind, preds[1..]);
      forall l
        ensures Supplies(m, kind, preds, l) <==> (SameTypedMention(m, kind, preds[0]) && preds[0].candidates == l) || Supplies(m, kind, preds[1..], l)
      {
        if Supplies(m, kind, preds[1..], l) {
          var j :| 0 <= j < |preds[1..]| && SameTypedMention(m, kind, preds[1..][j]) && preds[1..][j].candidates == l;
          assert preds[1..][j] == preds[j + 1];
        }
        if Supplies(m, kind, preds, l) {
          var j :| 0 <= j < |preds| && SameTypedMention(m, kind, preds[j]) && preds[j].candidates == l;
          if j > 0 {
            assert preds[1..][j - 1] == preds[j];
          }
        }
      }
      if SameTypedMention(m, kind, preds[0]) then [preds[0].candidates] + rest else rest
  }

  /** For each mention of the entity, the candidate lists it matched. */
  function Groups(e: RefEntity, preds: seq<PredMention>): (r: seq<seq<seq<string>>>)
    ensures |r| == |e.mentions|
    ensures forall q :: 0 <= q < |e.mentions| ==> r[q] == Matching(e.mentions[q], e.kind, preds)
  {
    seq(|e.mentions|, q requires 0 <= q < |e.mentions| => Matching(e.mentions[q], e.kind, preds))
  }

  /** A candidate proposed by a prediction matching a mention of the
      entity. */
  predicate Proposed(e: RefEntity, preds: seq<PredMention>, c: string) {
    exists q, j :: 0 <= q < |e.mentions| && 0 <= j < |preds| && SameTypedMention(e.mentions[q], e.kind, preds[j]) && c in preds[j].candidates
  }

  /** The candidates of the fused lists are the proposed ones. */
  lemma ListedIsProposed(e: RefEntity, preds: seq<PredMention>, c: string)
    ensures Listed(Groups(e, preds), c) <==> Proposed(e, preds, c)
  {
    var groups := Groups(e, preds);
    if Listed(groups, c) {
      var g :| 0 <= g < |groups| && InSome(groups[g], c);
      var l :| 0 <= l < |groups[g]| && c in groups[g][l];
      assert groups[g][l] in Matching(e.mentions[g], e.kind, preds);
      assert Supplies(e.mentions[g], e.kind, preds, groups[g][l]);
    }
    if Proposed(e, preds, c) {
      var q, j :| 0 <= q < |e.mentions| && 0 <= j < |preds| && SameTypedMention(e.mentions[q], e.kind, preds[j]) && c in preds[j].candidates;
      assert Supplies(e.mentions[q], e.kind, preds, preds[j].candidates);
      assert preds[j].candidates in groups[q];
      var l :| 0 <= l < |groups[q]| && groups[q][l] == preds[j].candidates;
      assert InSome(groups[q], c);
    }
  }

  /** The ranked candidates of one reference entity: every proposed
      candidate exactly once, in non-decreasing order of fused score. */
  function EntityRanking(e: RefEntity, preds: seq<PredMention>): (r: seq<string>)
    ensures forall c :: c in r <==> Proposed(e, preds, c)
    ensures forall c :: multiset(r)[c] <= 1
    ensures SortedBy(FuseMentions([], Groups(e, preds)), r)
  {
    var groups := Groups(e, preds);
    var table := FuseMentions([], groups);
    FuseMentionsKeepsDistinct([], groups);
    RankingIsPermutation(table);
    forall c
      ensures c in KeySet(table) <==> Proposed(e, preds, c)
    {
      ListedIsProposed(e, preds, c);
    }
    Ranking(table)
  }

  /** The rank of the entity's gold resource. */
  function EntityRank(e: RefEntity, preds: seq<PredMention>): (r: int)
    ensures r == -1 <==> !Proposed(e, preds, e.gold)
    ensures r != -1 ==> 1 <= r <= |EntityRanking(e, preds)| && EntityRanking(e, preds)[r - 1] == e.gold
    ensures r != -1 ==> forall q :: 0 <= q < r - 1 ==> EntityRanking(e, preds)[q] != e.gold
  {
    var ranking := EntityRanking(e, preds);
    assert e.gold in ranking <==> Proposed(e, preds, e.gold);
    RankOf(ranking, e.gold)
  }

  predicate Linkable(kind: string) {
    kind != "NUM" && kind != "TIME"
  }

  /** The ranks of the linkable entities of one reference instance against
      its predicted mentions, in entity order. */
  function InstanceRanks(entities: seq<RefEntity>, preds: seq<PredMention>): (r: seq<int>)
    ensures |r| <= |entities|
    ensures forall q :: 0 <= q < |r| ==> r[q] == -1 || r[q] >= 1
    ensures (forall k :: 0 <= k < |entities| ==> Linkable(entities[k].kind)) ==> |r| == |entities|
    decreases |entities|
  {
    if |entities| == 0 then []
    else
      var rest := InstanceRanks(entities[1..], preds);
      if Linkable(entities[0].kind) then
        assert forall k :: 1 <= k < |entities| ==> entities[k] == entities[1..][k - 1];
        [EntityRank(entities[0], preds)] + rest
      else rest
  }

  /** The ranks over the instance pairs, as `zip` pairs them. */
  function Ranks(refs: seq<seq<RefEntity>>, preds: seq<seq<PredEntity>>): (r: seq<int>)
    ensures forall q :: 0 <= q < |r| ==> r[q] == -1 || r[q] >= 1
    decreases |refs|
  {
    if |refs| == 0 || |preds| == 0 then []
    else InstanceRanks(refs[0], Flatten(preds[0])) + Ranks(refs[1..], preds[1..])
  }

  /** Hit@1 counts never exceed Hit@5 counts, which never exceed the number
      of ranked entities. */
  lemma HitsOrdered(refs: seq<seq<RefEntity>>, preds: seq<seq<PredEntity>>)
    ensures HitsAt1(Ranks(refs, preds)) <= HitsAt5(Ranks(refs, preds)) <= |Ranks(refs, preds)|
  {
    HitsAt1AtMostHitsAt5(Ranks(refs, preds));
  }

  /** An entity with one mention, matched by one prediction whose only
      candidate is the gold resource, ranks that resource first. */
  lemma SingleCandidateRanksFirst(m: Span, kind: string, gold: string)
    ensures EntityRank(RefEntity(kind, [m], gold), [PredMention(m, kind, [gold])]) == 1
  {
    var e := RefEntity(kind, [m], gold);
    var preds := [PredMention(m, kind, [gold])];
    var r := EntityRanking(e, preds);
    assert Proposed(e, preds, gold) by {
      assert SameTypedMention(e.mentions[0], e.kind, preds[0]);
      assert gold in preds[0].candidates;
    }
    assert r[0] == gold by {
      assert r[0] in r;
      var q, j :| 0 <= q < |e.mentions| && 0 <= j < |preds| && SameTypedMention(e.mentions[q], e.kind, preds[j]) && r[0] in preds[j].candidates;
    }
  }
}
