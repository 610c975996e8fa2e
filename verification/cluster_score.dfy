/** The per-cluster true-positive score shared by the entity and relation F1
    metrics (`tp_p_cluster` and `tp_g_cluster` in `metrics/entity_f1.py` and
    `metrics/relation_f1.py`).

    A cluster is a list of mentions; its score against a pool of mentions of
    the same type is the share of its mentions found in the pool, floored to
    0 or 1 under hard aggregation, and nothing for an empty cluster. Summed
    over the clusters of a type it gives TP, and the number of clusters less
    TP gives FP (or FN, with the roles of prediction and truth swapped). The
    mention comparison is a parameter. */
module ClusterScore {
  import opened Wrappers

  /** Some mention of the pool compares equal to `c`. */
  predicate Found<M>(c: M, pool: seq<M>, same: (M, M) -> bool) {
    exists j :: 0 <= j < |pool| && same(c, pool[j])
  }

  /** The inner search loop: scans the pool and stops at the first match. */
  function Search<M>(c: M, pool: seq<M>, same: (M, M) -> bool): (r: bool)
    ensures r <==> Found(c, pool, same)
    decreases |pool|
  {
    if |pool| == 0 then false
    else if same(c, pool[0]) then true
    else
      var r := Search(c, pool[1..], same);
      assert Found(c, pool[1..], same) ==> Found(c, pool, same) by {
        if Found(c, pool[1..], same) {
          var j :| 0 <= j < |pool[1..]| && same(c, pool[1..][j]);
          assert pool[j + 1] == pool[1..][j];
        }
      }
      assert Found(c, pool, same) && !same(c, pool[0]) ==> Found(c, pool[1..], same) by {
        if Found(c, pool, same) && !same(c, pool[0]) {
          var j :| 0 <= j < |pool| && same(c, pool[j]);
          assert pool[1..][j - 1] == pool[j];
        }
      }
      r
  }

  predicate AllFound<M>(cluster: seq<M>, pool: seq<M>, same: (M, M) -> bool) {
    forall k :: 0 <= k < |cluster| ==> Found(cluster[k], pool, same)
  }

  /** Every cluster is non-empty and found in full. */
  predicate Complete<M>(clusters: seq<seq<M>>, pool: seq<M>, same: (M, M) -> bool) {
    forall k :: 0 <= k < |clusters| ==> |clusters[k]| > 0 && AllFound(clusters[k], pool, same)
  }

  /** For each mention of the cluster, whether it is found in the pool. */
  function FoundFlags<M>(cluster: seq<M>, pool: seq<M>, same: (M, M) -> bool): (r: seq<bool>)
    ensures |r| == |cluster| && forall k :: 0 <= k < |cluster| ==> r[k] == Found(cluster[k], pool, same)
  {
    seq(|cluster|, k requires 0 <= k < |cluster| => Found(cluster[k], pool, same))
  }

  /** `intersection`: the number of cluster mentions found in the pool,
      which is the numerator of the soft score. */
  function Intersection<M>(cluster: seq<M>, pool: seq<M>, same: (M, M) -> bool): (r: nat)
    ensures r <= |cluster|
    ensures r == |cluster| <==> AllFound(cluster, pool, same)
    decreases |cluster|
  {
    if |cluster| == 0 then 0
    else
      var rest := Intersection(cluster[1..], pool, same);
      assert AllFound(cluster, pool, same) <==> Found(cluster[0], pool, same) && AllFound(cluster[1..], pool, same) by {
        assert forall k :: 1 <= k < |cluster| ==> cluster[k] == cluster[1..][k - 1];
      }
      (if Search(cluster[0], pool, same) then 1 else 0) + rest
  }

  /** The intersection counts the mentions found in the pool, whichever
      they are; the soft score is this count over the cluster size. */
  lemma {:induction false} IntersectionCounts<M>(cluster: seq<M>, pool: seq<M>, same: (M, M) -> bool)
    ensures Intersection(cluster, pool, same) == multiset(FoundFlags(cluster, pool, same))[true]
    decreases |cluster|
  {
    if |cluster| > 0 {
      IntersectionCounts(cluster[1..], pool, same);
      assert FoundFlags(cluster, pool, same) == [Found(cluster[0], pool, same)] + FoundFlags(cluster[1..], pool, same);
    }
  }

  /** The score of one cluster: `None` when it has no mentions, otherwise
      the found share, floored under hard aggregation. */
  function TpCluster<M>(cluster: seq<M>, pool: seq<M>, same: (M, M) -> bool, hard: bool): (r: Option<real>)
    ensures r.None? <==> |cluster| == 0
    ensures r.Some? ==> 0.0 <= r.value <= 1.0
    ensures r.Some? ==> (r.value == 1.0 <==> AllFound(cluster, pool, same))
    ensures r.Some? && hard ==> (r.value == 0.0 <==> !AllFound(cluster, pool, same))
    ensures r.Some? && !hard ==> r.value * |cluster| as real == Intersection(cluster, pool, same) as real
  {
    if |cluster| > 0 then
      var i := Intersection(cluster, pool, same);
      var res := Share(i, |cluster|);
      if i < |cluster| then
        ShareBelowOne(i, |cluster|);
        if hard then Some(res.Floor as real) else Some(res)
      else
        ShareWhole(|cluster|);
        if hard then Some(res.Floor as real) else Some(res)
    else None
  }

  /** The soft score of a cluster with mentions is the share of its
      mentions found in the pool. */
  lemma SoftScoreIsFoundShare<M>(cluster: seq<M>, pool: seq<M>, same: (M, M) -> bool)
    requires |cluster| > 0
    ensures TpCluster(cluster, pool, same, false).value * |cluster| as real == multiset(FoundFlags(cluster, pool, same))[true] as real
  {
    var found := multiset(FoundFlags(cluster, pool, same))[true];
    IntersectionCounts(cluster, pool, same);
    assert Intersection(cluster, pool, same) == found;
    assert TpCluster(cluster, pool, same, false).value * |cluster| as real == Intersection(cluster, pool, same) as real;
  }

  /** `i / n` in real division, and what it gives back when multiplied by
      `n`. */
  function Share(i: nat, n: nat): (r: real)
    requires n > 0
    ensures 0.0 <= r && r * n as real == i as real
  {
    i as real / n as real
  }

  lemma ShareBelowOne(i: nat, n: nat)
    requires i < n
    ensures Share(i, n) < 1.0 && Share(i, n).Floor == 0
  {
  }

  lemma ShareWhole(n: nat)
    requires n > 0
    ensures Share(n, n) == 1.0 && Share(n, n).Floor == 1
  {
  }

  /** The sum of the cluster scores, skipping `None`, and the number of
      clusters: `(TP, count)`. */
  function Totals<M>(clusters: seq<seq<M>>, pool: seq<M>, same: (M, M) -> bool, hard: bool): (r: (real, nat))
    ensures r.1 == |clusters|
    ensures 0.0 <= r.0 <= r.1 as real
    ensures r.0 == r.1 as real <==> Complete(clusters, pool, same)
    decreases |clusters|
  {
    if |clusters| == 0 then (0.0, 0)
    else
      var rest := Totals(clusters[1..], pool, same, hard);
      var tp := TpCluster(clusters[0], pool, same, hard);
      assert Complete(clusters, pool, same) <==>
        |clusters[0]| > 0 && AllFound(clusters[0], pool, same) && Complete(clusters[1..], pool, same) by {
        assert forall k :: 1 <= k < |clusters| ==> clusters[k] == clusters[1..][k - 1];
      }
      ((if tp.Some? then tp.value else 0.0) + rest.0, rest.1 + 1)
  }

  /** FP (or FN): the number of clusters less their total score; never
      negative, and zero exactly when every cluster is non-empty and fully
      found. */
  function Misses<M>(clusters: seq<seq<M>>, pool: seq<M>, same: (M, M) -> bool, hard: bool): (r: real)
    ensures 0.0 <= r <= |clusters| as real
    ensures r == 0.0 <==> Complete(clusters, pool, same)
  {
    var t := Totals(clusters, pool, same, hard);
    t.1 as real - t.0
  }

  /** Under hard aggregation every cluster scores a whole number, so TP counts
      the non-empty clusters found in full. */
  function FullyFound<M>(clusters: seq<seq<M>>, pool: seq<M>, same: (M, M) -> bool): nat
    decreases |clusters|
  {
    if |clusters| == 0 then 0
    else (if |clusters[0]| > 0 && AllFound(clusters[0], pool, same) then 1 else 0) + FullyFound(clusters[1..], pool, same)
  }

  lemma {:induction false} HardTotalsCount<M>(clusters: seq<seq<M>>, pool: seq<M>, same: (M, M) -> bool)
    ensures Totals(clusters, pool, same, true).0 == FullyFound(clusters, pool, same) as real
    decreases |clusters|
  {
    if |clusters| > 0 {
      HardTotalsCount(clusters[1..], pool, same);
    }
  }
}
