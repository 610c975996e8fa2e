/** The entity-level F1 counts of `metrics/entity_f1.py`.

    Entities of each instance are put in buckets by type: a bucket holds the
    entities (clusters) of that type and the concatenation of their mentions
    (the pool). A predicted cluster scores against the reference pool of its
    type, a reference cluster against the predicted pool, and the scores add
    up to TP_P and TP_G per type; FP and FN are the cluster counts less those
    sums. Instances are paired by position, as `zip` does. */
module EntityF1 {
  import opened Wrappers
  import opened ClusterScore

  datatype Span = Span(sentId: int, posStart: int, posEnd: int)
  datatype Entity = Entity(kind: string, mentions: seq<Span>)
  datatype Instance = Instance(entities: seq<Entity>)

  /** `compare_entity_mentions`: same sentence and same span; the type is
      already equal inside a bucket. */
  predicate SameMention(a: Span, b: Span) {
    a.sentId == b.sentId && a.posStart == b.posStart && a.posEnd == b.posEnd
  }

  const EntityTags: seq<string> := ["NUM", "TIME", "ORG", "LOC", "PER", "MISC"]

  /** Every entity has one of the known types; another type is a `KeyError`
      in the bucket lookup. */
  predicate Typed(inst: Instance) {
    forall k :: 0 <= k < |inst.entities| ==> inst.entities[k].kind in EntityTags
  }

  /** Some entity of type `t` has the mention `m`. */
  predicate MentionOfType(entities: seq<Entity>, t: string, m: Span) {
    exists k :: 0 <= k < |entities| && entities[k].kind == t && m in entities[k].mentions
  }

  /** The number of entities of type `t`. */
  function CountOfType(entities: seq<Entity>, t: string): nat {
    if |entities| == 0 then 0
    else CountOfType(entities[..|entities| - 1], t) + (if entities[|entities| - 1].kind == t then 1 else 0)
  }

  /** The bucket of type `t`: the mention lists of its entities, in order,
      and all their mentions. */
  function Bucket(entities: seq<Entity>, t: string): (r: (seq<seq<Span>>, seq<Span>))
    ensures |r.0| == CountOfType(entities, t)
    ensures forall k :: 0 <= k < |entities| && entities[k].kind == t ==> entities[k].mentions in r.0
    ensures forall c :: c in r.0 ==> exists k :: 0 <= k < |entities| && entities[k].kind == t && entities[k].mentions == c
    ensures forall m :: m in r.1 <==> MentionOfType(entities, t, m)
    decreases |entities|
  {
    if |entities| == 0 then ([], [])
    else
      var init := entities[..|entities| - 1];
      var e := entities[|entities| - 1];
      var b := Bucket(init, t);
      assert forall k :: 0 <= k < |init| ==> init[k] == entities[k];
      forall m
        ensures MentionOfType(entities, t, m) <==> MentionOfType(init, t, m) || (e.kind == t && m in e.mentions)
      {
        if MentionOfType(entities, t, m) {
          var k :| 0 <= k < |entities| && entities[k].kind == t && m in entities[k].mentions;
          if k < |init| {
            assert init[k] == entities[k];
          }
        }
      }
      if e.kind == t then (b.0 + [e.mentions], b.1 + e.mentions) else b
  }

  /** The number of entities of type `t` in the first `n` instances. */
  function TypeCount(side: seq<Instance>, t: string, n: nat): nat
    requires n <= |side|
  {
    if n == 0 then 0 else TypeCount(side, t, n - 1) + CountOfType(side[n - 1].entities, t)
  }

  /** Every cluster of type `t` in the first `n` instances of `clusterSide`
      is non-empty and found in full in the paired pool. */
  predicate AllComplete(clusterSide: seq<Instance>, poolSide: seq<Instance>, t: string, n: nat)
    requires n <= |clusterSide| && n <= |poolSide|
  {
    forall k :: 0 <= k < n ==> Complete(Bucket(clusterSide[k].entities, t).0, Bucket(poolSide[k].entities, t).1, SameMention)
  }

  /** TP and cluster count of type `t` over the first `n` instance pairs:
      clusters from `clusterSide`, pools from `poolSide`. The count is the
      number of entities of that type, and TP reaches it exactly when every
      such cluster is found in full. */
  function TypeTotals(clusterSide: seq<Instance>, poolSide: seq<Instance>, t: string, hard: bool, n: nat): (r: (real, nat))
    requires n <= |clusterSide| && n <= |poolSide|
    ensures r.1 == TypeCount(clusterSide, t, n)
    ensures 0.0 <= r.0 <= r.1 as real
    ensures r.0 == r.1 as real <==> AllComplete(clusterSide, poolSide, t, n)
  {
    if n == 0 then (0.0, 0)
    else
      var rest := TypeTotals(clusterSide, poolSide, t, hard, n - 1);
      var here := Totals(Bucket(clusterSide[n - 1].entities, t).0, Bucket(poolSide[n - 1].entities, t).1, SameMention, hard);
      (rest.0 + here.0, rest.1 + here.1)
  }

  datatype TypeScore = TypeScore(tpP: real, predClusters: nat, fp: real, tpG: real, goldClusters: nat, fn: real)

  /** The number of instance pairs `zip` forms. */
  function Paired(refs: seq<Instance>, preds: seq<Instance>): (n: nat)
    ensures n <= |refs| && n <= |preds|
  {
    if |refs| < |preds| then |refs| else |preds|
  }

  /** The counts of type `t`: predicted clusters against the reference
      pools, reference clusters against the predicted pools. */
  function TypeScoreOf(refs: seq<Instance>, preds: seq<Instance>, t: string, hard: bool): (r: TypeScore)
    ensures r.predClusters == TypeCount(preds, t, Paired(refs, preds))
    ensures r.goldClusters == TypeCount(refs, t, Paired(refs, preds))
    ensures r.tpP == TypeTotals(preds, refs, t, hard, Paired(refs, preds)).0
    ensures r.tpG == TypeTotals(refs, preds, t, hard, Paired(refs, preds)).0
    ensures 0.0 <= r.fp <= r.predClusters as real && r.fp == r.predClusters as real - r.tpP
    ensures 0.0 <= r.fn <= r.goldClusters as real && r.fn == r.goldClusters as real - r.tpG
    ensures r.fp == 0.0 <==> AllComplete(preds, refs, t, Paired(refs, preds))
    ensures r.fn == 0.0 <==> AllComplete(refs, preds, t, Paired(refs, preds))
  {
    var n := Paired(refs, preds);
    var p := TypeTotals(preds, refs, t, hard, n);
    var g := TypeTotals(refs, preds, t, hard, n);
    TypeScore(p.0, p.1, p.1 as real - p.0, g.0, g.1, g.1 as real - g.0)
  }

  /** The per-type counts of the metric; `Err` when a paired instance has an
      entity of an unknown type. For each type, the predicted and reference
      cluster counts are the numbers of entities of that type in the paired
      instances, TP is the summed cluster score, and FP (FN) is zero exactly
      when every predicted (reference) cluster is found in full. */
  function Score(refs: seq<Instance>, preds: seq<Instance>, hard: bool): (r: Result<map<string, TypeScore>>)
    ensures r.Ok? <==> forall k :: 0 <= k < |refs| && k < |preds| ==> Typed(refs[k]) && Typed(preds[k])
    ensures r.Ok? ==> forall t :: t in r.value <==> t in EntityTags
    ensures r.Ok? ==> forall t :: t in r.value ==>
      && r.value[t].predClusters == TypeCount(preds, t, Paired(refs, preds))
      && r.value[t].goldClusters == TypeCount(refs, t, Paired(refs, preds))
      && r.value[t].tpP == TypeTotals(preds, refs, t, hard, Paired(refs, preds)).0
      && r.value[t].tpG == TypeTotals(refs, preds, t, hard, Paired(refs, preds)).0
      && 0.0 <= r.value[t].fp <= r.value[t].predClusters as real
      && 0.0 <= r.value[t].fn <= r.value[t].goldClusters as real
      && r.value[t].fp == r.value[t].predClusters as real - r.value[t].tpP
      && r.value[t].fn == r.value[t].goldClusters as real - r.value[t].tpG
      && (r.value[t].fp == 0.0 <==> AllComplete(preds, refs, t, Paired(refs, preds)))
      && (r.value[t].fn == 0.0 <==> AllComplete(refs, preds, t, Paired(refs, preds)))
  {
    var n := Paired(refs, preds);
    if exists k :: 0 <= k < n && !(Typed(refs[k]) && Typed(preds[k])) then Err("KeyError: entity type")
    else Ok(map t | t in EntityTags :: TypeScoreOf(refs, preds, t, hard))
  }

  /** An entity list scored against itself finds every mention, so every
      cluster with a mention scores 1. */
  lemma SelfBucketComplete(entities: seq<Entity>, t: string)
    requires forall k :: 0 <= k < |entities| ==> |entities[k].mentions| > 0
    ensures Complete(Bucket(entities, t).0, Bucket(entities, t).1, SameMention)
  {
    var b := Bucket(entities, t);
    forall q | 0 <= q < |b.0|
      ensures |b.0[q]| > 0 && AllFound(b.0[q], b.1, SameMention)
    {
      assert b.0[q] in b.0;
      var k :| 0 <= k < |entities| && entities[k].kind == t && entities[k].mentions == b.0[q];
      forall i | 0 <= i < |b.0[q]|
        ensures Found(b.0[q][i], b.1, SameMention)
      {
        var m := b.0[q][i];
        assert MentionOfType(entities, t, m);
        var j :| 0 <= j < |b.1| && b.1[j] == m;
        assert SameMention(m, b.1[j]);
      }
    }
  }

  /** A prediction equal to the reference, whose entities all have mentions,
      has no false positive and no false negative. */
  lemma PerfectPrediction(refs: seq<Instance>, hard: bool)
    requires forall k :: 0 <= k < |refs| ==> Typed(refs[k])
    requires forall k, e :: 0 <= k < |refs| && 0 <= e < |refs[k].entities| ==> |refs[k].entities[e].mentions| > 0
    ensures Score(refs, refs, hard).Ok?
    ensures forall t :: t in EntityTags ==> Score(refs, refs, hard).value[t].fp == 0.0 && Score(refs, refs, hard).value[t].fn == 0.0
  {
    forall t | t in EntityTags
      ensures AllComplete(refs, refs, t, |refs|)
    {
      forall k | 0 <= k < |refs|
        ensures Complete(Bucket(refs[k].entities, t).0, Bucket(refs[k].entities, t).1, SameMention)
      {
        SelfBucketComplete(refs[k].entities, t);
      }
    }
  }
}
