/** The relation-level F1 counts of `metrics/relation_f1.py`.

    A relation between a head and a tail entity stands for all pairs of a
    head mention and a tail mention, head-major. Each relation is a cluster
    of such relation mentions in the bucket of its relation type, and the
    bucket's pool is the concatenation of its clusters. Scoring is that of
    the entity metric, with relation mentions compared by entity types and
    spans. */
module RelationF1 {
  import opened Wrappers
  import opened ClusterScore
  import opened EntityF1
  import LabelMap

  /** A DocRED relation: head entity index, relation type, tail entity
      index. */
  datatype Relation = Relation(h: int, r: string, t: int)

  datatype RelInstance = RelInstance(entities: seq<Entity>, relations: seq<Relation>)

  datatype RelMention = RelMention(h: Span, hType: string, rel: Relation, t: Span, tType: string)

  /** The mentions of one head mention against every tail mention. */
  function Row(hm: Span, hType: string, rel: Relation, ts: seq<Span>, tType: string): (r: seq<RelMention>)
    ensures |r| == |ts|
    ensures forall j :: 0 <= j < |ts| ==> r[j] == RelMention(hm, hType, rel, ts[j], tType)
  {
    seq(|ts|, j requires 0 <= j < |ts| => RelMention(hm, hType, rel, ts[j], tType))
  }

  /** `generate_relation_mentions_from_entity`: for each head mention in
      order, the pairs with every tail mention. */
  function Generate(hs: seq<Span>, hType: string, rel: Relation, ts: seq<Span>, tType: string): (r: seq<RelMention>)
    ensures |r| == Rows(|hs|, |ts|)
    decreases |hs|
  {
    if |hs| == 0 then []
    else Row(hs[0], hType, rel, ts, tType) + Generate(hs[1..], hType, rel, ts, tType)
  }

  /** Every generated mention pairs a head mention with a tail mention under
      the given types and relation. */
  lemma {:induction false} GenerateMembers(hs: seq<Span>, hType: string, rel: Relation, ts: seq<Span>, tType: string)
    ensures forall x :: x in Generate(hs, hType, rel, ts, tType) ==>
      x.hType == hType && x.tType == tType && x.rel == rel && x.h in hs && x.t in ts
    decreases |hs|
  {
    if |hs| > 0 {
      GenerateMembers(hs[1..], hType, rel, ts, tType);
      var row := Row(hs[0], hType, rel, ts, tType);
      var rest := Generate(hs[1..], hType, rel, ts, tType);
      assert Generate(hs, hType, rel, ts, tType) == row + rest;
      forall x | x in row
        ensures x.hType == hType && x.tType == tType && x.rel == rel && x.h in hs && x.t in ts
      {
        var j :| 0 <= j < |row| && row[j] == x;
      }
    }
  }

  /** The pair of head mention `i` and tail mention `j` sits at position
      `i * |ts| + j`: the order is head-major. */
  lemma GenerateAt(hs: seq<Span>, hType: string, rel: Relation, ts: seq<Span>, tType: string, i: nat, j: nat)
    requires i < |hs| && j < |ts|
    ensures i * |ts| + j < |Generate(hs, hType, rel, ts, tType)|
    ensures Generate(hs, hType, rel, ts, tType)[i * |ts| + j] == RelMention(hs[i], hType, rel, ts[j], tType)
  {
    GenerateAtRow(hs, hType, rel, ts, tType, i, j);
    RowsAreProduct(i, |ts|);
  }

  /** `i` rows of `n` mentions each, without multiplication. */
  function Rows(i: nat, n: nat): nat {
    if i == 0 then 0 else n + Rows(i - 1, n)
  }

  lemma {:induction false} RowsAreProduct(i: nat, n: nat)
    ensures Rows(i, n) == i * n
  {
    if i > 0 {
      RowsAreProduct(i - 1, n);
    }
  }

  /** `GenerateAt` with the row offset counted by `Rows`. */
  lemma {:induction false} GenerateAtRow(hs: seq<Span>, hType: string, rel: Relation, ts: seq<Span>, tType: string, i: nat, j: nat)
    requires i < |hs| && j < |ts|
    ensures Rows(i, |ts|) + j < |Generate(hs, hType, rel, ts, tType)|
    ensures Generate(hs, hType, rel, ts, tType)[Rows(i, |ts|) + j] == RelMention(hs[i], hType, rel, ts[j], tType)
    decreases i
  {
    var r := Generate(hs, hType, rel, ts, tType);
    var row := Row(hs[0], hType, rel, ts, tType);
    var rest := Generate(hs[1..], hType, rel, ts, tType);
    assert r == row + rest;
    if i == 0 {
      assert r[j] == row[j];
    } else {
      var q := Rows(i - 1, |ts|) + j;
      assert hs[1..][i - 1] == hs[i];
      GenerateAtRow(hs[1..], hType, rel, ts, tType, i - 1, j);
      assert r[|ts| + q] == rest[q];
    }
  }

  /** The relation mentions of a relation between two entities; their number
      is `len_relation_mentions`. */
  function Mentions(h: Entity, rel: Relation, t: Entity): (r: seq<RelMention>)
    ensures |r| == |h.mentions| * |t.mentions|
    ensures forall x :: x in r ==> x.hType == h.kind && x.tType == t.kind && x.rel == rel
  {
    RowsAreProduct(|h.mentions|, |t.mentions|);
    GenerateMembers(h.mentions, h.kind, rel, t.mentions, t.kind);
    Generate(h.mentions, h.kind, rel, t.mentions, t.kind)
  }

  /** `compare_relation_mention`: equal head and tail types and spans; the
      relation itself is not compared. */
  predicate SameRelMention(a: RelMention, b: RelMention) {
    a.hType == b.hType && a.tType == b.tType && SameMention(a.h, b.h) && SameMention(a.t, b.t)
  }

  /** Comparing relation mentions ignores their relation. */
  lemma RelationIgnored(a: RelMention, b: RelMention, x: Relation, y: Relation)
    ensures SameRelMention(a, b) <==> SameRelMention(a.(rel := x), b.(rel := y))
  {
  }

  const RelationTags: seq<string> := LabelMap.PropertyLabels(LabelMap.DocredPropertyNumbers)

  /** Every relation names two existing entities and a known relation type;
      otherwise the lookup raises an `IndexError` or a `KeyError`. */
  predicate WellFormed(inst: RelInstance) {
    forall k :: 0 <= k < |inst.relations| ==>
      && 0 <= inst.relations[k].h < |inst.entities|
      && 0 <= inst.relations[k].t < |inst.entities|
      && inst.relations[k].r in RelationTags
  }

  /** The number of relations of type `t`. */
  function CountOfRelation(relations: seq<Relation>, t: string): nat {
    if |relations| == 0 then 0
    else CountOfRelation(relations[..|relations| - 1], t) + (if relations[|relations| - 1].r == t then 1 else 0)
  }

  predicate Indexes(entities: seq<Entity>, rel: Relation) {
    0 <= rel.h < |entities| && 0 <= rel.t < |entities|
  }

  /** The cluster of a relation: its relation mentions. */
  function ClusterOf(entities: seq<Entity>, rel: Relation): seq<RelMention>
    requires Indexes(entities, rel)
  {
    Mentions(entities[rel.h], rel, entities[rel.t])
  }

  /** The bucket of relation type `t`: one cluster per relation of that type,
      in order, and all their relation mentions. */
  function Bucket(entities: seq<Entity>, relations: seq<Relation>, t: string): (r: (seq<seq<RelMention>>, seq<RelMention>))
    requires forall k :: 0 <= k < |relations| ==> Indexes(entities, relations[k])
    ensures |r.0| == CountOfRelation(relations, t)
    ensures forall k :: 0 <= k < |relations| && relations[k].r == t ==> ClusterOf(entities, relations[k]) in r.0
    ensures forall c :: c in r.0 ==> exists k :: 0 <= k < |relations| && relations[k].r == t && ClusterOf(entities, relations[k]) == c
    ensures forall x :: x in r.1 <==> exists c :: c in r.0 && x in c
    decreases |relations|
  {
    if |relations| == 0 then ([], [])
    else
      var init := relations[..|relations| - 1];
      var rel := relations[|relations| - 1];
      var b := Bucket(entities, init, t);
      assert forall k :: 0 <= k < |init| ==> init[k] == relations[k];
      if rel.r == t then
        var c := ClusterOf(entities, rel);
        (b.0 + [c], b.1 + c)
      else b
  }

  /** The bucket of relation type `t` of a well-formed instance. */
  function BucketOf(inst: RelInstance, t: string): (r: (seq<seq<RelMention>>, seq<RelMention>))
    requires WellFormed(inst)
  {
    assert forall k :: 0 <= k < |inst.relations| ==> Indexes(inst.entities, inst.relations[k]);
    Bucket(inst.entities, inst.relations, t)
  }

  /** The number of relations of type `t` in the first `n` instances. */
  function RelCount(side: seq<RelInstance>, t: string, n: nat): nat
    requires n <= |side|
  {
    if n == 0 then 0 else RelCount(side, t, n - 1) + CountOfRelation(side[n - 1].relations, t)
  }

  /** Every cluster of relation type `t` in the first `n` instances of
      `clusterSide` is non-empty and found in full in the paired pool. */
  predicate AllComplete(clusterSide: seq<RelInstance>, poolSide: seq<RelInstance>, t: string, n: nat)
    requires n <= |clusterSide| && n <= |poolSide|
    requires forall k :: 0 <= k < n ==> WellFormed(clusterSide[k]) && WellFormed(poolSide[k])
  {
    forall k :: 0 <= k < n ==> Complete(BucketOf(clusterSide[k], t).0, BucketOf(poolSide[k], t).1, SameRelMention)
  }

  /** TP and cluster count of relation type `t` over the first `n` instance
      pairs. The count is the number of relations of that type, and TP
      reaches it exactly when every such cluster is found in full. */
  function TypeTotals(clusterSide: seq<RelInstance>, poolSide: seq<RelInstance>, t: string, hard: bool, n: nat): (r: (real, nat))
    requires n <= |clusterSide| && n <= |poolSide|
    requires forall k :: 0 <= k < n ==> WellFormed(clusterSide[k]) && WellFormed(poolSide[k])
    ensures r.1 == RelCount(clusterSide, t, n)
    ensures 0.0 <= r.0 <= r.1 as real
    ensures r.0 == r.1 as real <==> AllComplete(clusterSide, poolSide, t, n)
  {
    if n == 0 then (0.0, 0)
    else
      var rest := TypeTotals(clusterSide, poolSide, t, hard, n - 1);
      var here := Totals(BucketOf(clusterSide[n - 1], t).0, BucketOf(poolSide[n - 1], t).1, SameRelMention, hard);
      (rest.0 + here.0, rest.1 + here.1)
  }

  /** Both files are well formed throughout. */
  predicate AllWellFormed(refs: seq<RelInstance>, preds: seq<RelInstance>) {
    (forall k :: 0 <= k < |refs| ==> WellFormed(refs[k])) && (forall k :: 0 <= k < |preds| ==> WellFormed(preds[k]))
  }

  /** The number of instance pairs `zip` forms. */
  function Paired(refs: seq<RelInstance>, preds: seq<RelInstance>): (n: nat)
    ensures n <= |refs| && n <= |preds|
  {
    if |refs| < |preds| then |refs| else |preds|
  }

  /** The counts of relation type `t`. */
  function TypeScoreOf(refs: seq<RelInstance>, preds: seq<RelInstance>, t: string, hard: bool): (r: TypeScore)
    requires AllWellFormed(refs, preds)
    ensures r.predClusters == RelCount(preds, t, Paired(refs, preds))
    ensures r.goldClusters == RelCount(refs, t, Paired(refs, preds))
    ensures r.tpP == TypeTotals(preds, refs, t, hard, Paired(refs, preds)).0
    ensures r.tpG == TypeTotals(refs, preds, t, hard, Paired(refs, preds)).0
    ensures 0.0 <= r.fp <= r.predClusters as real && r.fp == r.predClusters as real - r.tpP
    ensures 0.0 <= r.fn <= r.goldClusters as real && r.fn == r.goldClusters as real - r.tpG
    ensures r.fp == 0.0 <==> AllComplete(preds, refs, t, Paired(refs, preds))
    ensures r.fn == 0.0 <==> AllComplete(refs, preds, t, Paired(refs, preds))
  {
    var n := Paired(refs, preds);
    var p := TypeTotals(preds, refs, t, hard, n);
    var g := TypeTotals(refs, preds, t, hard, n);
    TypeScore(p.0, p.1, p.1 as real - p.0, g.0, g.1, g.1 as real - g.0)
  }

  /** The per-type counts of the metric. Every instance of both files is
      bucketed, so a malformed one anywhere is an error; scoring pairs
      instances by position. For each type, the cluster counts are the
      numbers of relations of that type in the paired instances, TP is the
      summed cluster score, and FP (FN) is zero exactly when every predicted
      (reference) relation is found in full. */
  function Score(refs: seq<RelInstance>, preds: seq<RelInstance>, hard: bool): (r: Result<map<string, TypeScore>>)
    ensures r.Ok? <==> AllWellFormed(refs, preds)
    ensures r.Ok? ==> forall t :: t in r.value <==> t in RelationTags
    ensures r.Ok? ==> forall t :: t in r.value ==>
      && r.value[t].predClusters == RelCount(preds, t, Paired(refs, preds))
      && r.value[t].goldClusters == RelCount(refs, t, Paired(refs, preds))
      && r.value[t].tpP == TypeTotals(preds, refs, t, hard, Paired(refs, preds)).0
      && r.value[t].tpG == TypeTotals(refs, preds, t, hard, Paired(refs, preds)).0
      && 0.0 <= r.value[t].fp <= r.value[t].predClusters as real
      && 0.0 <= r.value[t].fn <= r.value[t].goldClusters as real
      && r.value[t].fp == r.value[t].predClusters as real - r.value[t].tpP
      && r.value[t].fn == r.value[t].goldClusters as real - r.value[t].tpG
      && (r.value[t].fp == 0.0 <==> AllComplete(preds, refs, t, Paired(refs, preds)))
      && (r.value[t].fn == 0.0 <==> AllComplete(refs, preds, t, Paired(refs, preds)))
  {
    if exists k :: 0 <= k < |preds| && !WellFormed(preds[k]) then Err("malformed predicted relation")
    else if exists k :: 0 <= k < |refs| && !WellFormed(refs[k]) then Err("malformed reference relation")
    else Ok(map t | t in RelationTags :: TypeScoreOf(refs, preds, t, hard))
  }

  /** Every entity has a mention. */
  predicate Mentioned(inst: RelInstance) {
    forall e :: 0 <= e < |inst.entities| ==> |inst.entities[e].mentions| > 0
  }

  /** A cluster whose mentions all lie in the pool is found in full. */
  lemma ContainedIsFound(c: seq<RelMention>, pool: seq<RelMention>)
    requires forall x :: x in c ==> x in pool
    ensures AllFound(c, pool, SameRelMention)
  {
    forall i | 0 <= i < |c|
      ensures Found(c[i], pool, SameRelMention)
    {
      assert c[i] in c;
      var j :| 0 <= j < |pool| && pool[j] == c[i];
      assert SameRelMention(c[i], pool[j]);
    }
  }

  /** A relation between entities with mentions has relation mentions. */
  lemma ClusterNonEmpty(entities: seq<Entity>, rel: Relation)
    requires Indexes(entities, rel)
    requires |entities[rel.h].mentions| > 0 && |entities[rel.t].mentions| > 0
    ensures |ClusterOf(entities, rel)| > 0
  {
    var x, y := |entities[rel.h].mentions|, |entities[rel.t].mentions|;
    assert x * y >= y by {
      assert x * y == (x - 1) * y + y;
    }
  }

  /** The relations of an instance scored against themselves are found in
      full: every relation mention lies in the pool of its type. */
  lemma SelfBucketComplete(inst: RelInstance, t: string)
    requires WellFormed(inst) && Mentioned(inst)
    ensures Complete(BucketOf(inst, t).0, BucketOf(inst, t).1, SameRelMention)
  {
    var b := BucketOf(inst, t);
    forall q | 0 <= q < |b.0|
      ensures |b.0[q]| > 0 && AllFound(b.0[q], b.1, SameRelMention)
    {
      var c := b.0[q];
      assert c in b.0;
      var k :| 0 <= k < |inst.relations| && inst.relations[k].r == t && ClusterOf(inst.entities, inst.relations[k]) == c;
      ClusterNonEmpty(inst.entities, inst.relations[k]);
      ContainedIsFound(c, b.1);
    }
  }

  /** A prediction equal to the reference, whose entities all have mentions,
      has no false positive and no false negative for any relation type. */
  lemma PerfectPrediction(refs: seq<RelInstance>, hard: bool)
    requires forall k :: 0 <= k < |refs| ==> WellFormed(refs[k]) && Mentioned(refs[k])
    ensures Score(refs, refs, hard).Ok?
    ensures forall t :: t in RelationTags ==> Score(refs, refs, hard).value[t].fp == 0.0 && Score(refs, refs, hard).value[t].fn == 0.0
  {
    assert Paired(refs, refs) == |refs|;
    forall t | t in RelationTags
      ensures AllComplete(refs, refs, t, |refs|)
    {
      forall k | 0 <= k < |refs|
        ensures Complete(BucketOf(refs[k], t).0, BucketOf(refs[k], t).1, SameRelMention)
      {
        SelfBucketComplete(refs[k], t);
      }
    }
  }
}
