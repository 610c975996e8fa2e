/** Greedy pairing of reference and predicted mentions, the common core of
    `compare_instance` in `metrics/coref_b3.py` and `metrics/ner_f1.py`.

    Reference mentions are taken in order; each is paired with the first
    still unpaired prediction with the same sentence and span, or with the
    missing label when there is none. The predictions left unpaired follow,
    in order, each against the missing label. The two label sequences are
    what the scorer compares position by position. */
module MentionPairing {
  import opened Wrappers

  /** A mention with its sentence, half-open span and label. */
  datatype Labelled<L> = Labelled(sentId: int, posStart: int, posEnd: int, tag: L)

  predicate SameSpan<L>(a: Labelled<L>, b: Labelled<L>) {
    a.sentId == b.sentId && a.posStart == b.posStart && a.posEnd == b.posEnd
  }

  /** Prediction `j` is paired with one of the first `k` references. */
  predicate Taken(pairing: seq<Option<nat>>, k: nat, j: nat) {
    exists q :: 0 <= q < k && q < |pairing| && pairing[q] == Some(j)
  }

  /** The first prediction from `j` on that is unpaired and has the span of
      `m`. */
  function FirstFree<L>(preds: seq<Labelled<L>>, pairing: seq<Option<nat>>, m: Labelled<L>, j: nat): (r: Option<nat>)
    requires j <= |preds|
    ensures r.Some? ==> j <= r.value < |preds| && SameSpan(m, preds[r.value]) && !Taken(pairing, |pairing|, r.value)
    ensures r.Some? ==> forall q :: j <= q < r.value && SameSpan(m, preds[q]) ==> Taken(pairing, |pairing|, q)
    ensures r.None? ==> forall q :: j <= q < |preds| && SameSpan(m, preds[q]) ==> Taken(pairing, |pairing|, q)
    decreases |preds| - j
  {
    if j == |preds| then None
    else if SameSpan(m, preds[j]) && !Taken(pairing, |pairing|, j) then Some(j)
    else FirstFree(preds, pairing, m, j + 1)
  }

  /** Whether the pairing of reference `k` is the greedy choice given the
      pairings before it: the first free prediction with its span, or none
      when every such prediction is taken. */
  predicate Greedy<L>(refs: seq<Labelled<L>>, preds: seq<Labelled<L>>, pairing: seq<Option<nat>>, k: nat)
    requires k < |refs| && k < |pairing|
  {
    if pairing[k].Some? then
      && pairing[k].value < |preds|
      && SameSpan(refs[k], preds[pairing[k].value])
      && !Taken(pairing, k, pairing[k].value)
      && (forall q :: 0 <= q < pairing[k].value && SameSpan(refs[k], preds[q]) ==> Taken(pairing, k, q))
    else
      forall q :: 0 <= q < |preds| && SameSpan(refs[k], preds[q]) ==> Taken(pairing, k, q)
  }

  /** Pairings before `k` do not see what comes after them. */
  lemma TakenPrefix(pairing: seq<Option<nat>>, x: Option<nat>, k: nat, j: nat)
    requires k <= |pairing|
    ensures Taken(pairing + [x], k, j) <==> Taken(pairing, k, j)
  {
    if Taken(pairing + [x], k, j) {
      var q :| 0 <= q < k && q < |pairing + [x]| && (pairing + [x])[q] == Some(j);
      assert pairing[q] == Some(j);
    }
    if Taken(pairing, k, j) {
      var q :| 0 <= q < k && q < |pairing| && pairing[q] == Some(j);
      assert (pairing + [x])[q] == Some(j);
    }
  }

  /** The prediction each reference is paired with, if any. */
  function Pairing<L>(refs: seq<Labelled<L>>, preds: seq<Labelled<L>>): (r: seq<Option<nat>>)
    ensures |r| == |refs|
    ensures forall k :: 0 <= k < |refs| ==> Greedy(refs, preds, r, k)
    decreases |refs|
  {
    if |refs| == 0 then []
    else
      var init := refs[..|refs| - 1];
      var p := Pairing(init, preds);
      var x := FirstFree(preds, p, refs[|refs| - 1], 0);
      var r := p + [x];
      forall k | 0 <= k < |refs|
        ensures Greedy(refs, preds, r, k)
      {
        forall j
          ensures Taken(r, k, j) <==> Taken(p, k, j)
        {
          TakenPrefix(p, x, k, j);
        }
        if k < |refs| - 1 {
          assert refs[k] == init[k] && r[k] == p[k];
          assert Greedy(init, preds, p, k);
        }
      }
      r
  }

  /** No prediction is paired twice. */
  lemma PairingInjective<L>(refs: seq<Labelled<L>>, preds: seq<Labelled<L>>, a: nat, b: nat)
    requires a < b < |refs|
    requires Pairing(refs, preds)[a].Some? && Pairing(refs, preds)[b].Some?
    ensures Pairing(refs, preds)[a] != Pairing(refs, preds)[b]
  {
    var r := Pairing(refs, preds);
    assert Greedy(refs, preds, r, b);
  }

  /** The number of references that found a prediction. */
  function Matched(pairing: seq<Option<nat>>): nat {
    if |pairing| == 0 then 0 else Matched(pairing[..|pairing| - 1]) + (if pairing[|pairing| - 1].Some? then 1 else 0)
  }

  /** The predictions from `j` on that no reference took, in order. */
  function FreeFrom(pairing: seq<Option<nat>>, n: nat, j: nat): (r: seq<nat>)
    requires j <= n
    ensures forall q :: 0 <= q < |r| ==> j <= r[q] < n && !Taken(pairing, |pairing|, r[q])
    ensures forall i :: j <= i < n && !Taken(pairing, |pairing|, i) ==> i in r
    ensures forall a, b :: 0 <= a < b < |r| ==> r[a] < r[b]
    decreases n - j
  {
    if j == n then []
    else if Taken(pairing, |pairing|, j) then FreeFrom(pairing, n, j + 1)
    else [j] + FreeFrom(pairing, n, j + 1)
  }

  /** The number of predictions below `n` that some reference took. */
  function TakenBelow(pairing: seq<Option<nat>>, n: nat): nat {
    if n == 0 then 0 else TakenBelow(pairing, n - 1) + (if Taken(pairing, |pairing|, n - 1) then 1 else 0)
  }

  lemma {:induction false} FreeCount(pairing: seq<Option<nat>>, n: nat, j: nat)
    requires j <= n
    ensures |FreeFrom(pairing, n, j)| + TakenBelow(pairing, n) == n - j + TakenBelow(pairing, j)
    decreases n - j
  {
    if j < n {
      FreeCount(pairing, n, j + 1);
      var t := Taken(pairing, |pairing|, j);
      assert TakenBelow(pairing, j + 1) == TakenBelow(pairing, j) + (if t then 1 else 0);
      assert |FreeFrom(pairing, n, j)| == |FreeFrom(pairing, n, j + 1)| + (if t then 0 else 1);
    }
  }

  /** Adding a pairing to a fresh prediction `v` adds one taken prediction
      below every bound above `v`. */
  lemma {:induction false} TakenBelowExtend(p: seq<Option<nat>>, x: Option<nat>, n: nat)
    requires x.Some? ==> !Taken(p, |p|, x.value)
    ensures TakenBelow(p + [x], n) == TakenBelow(p, n) + (if x.Some? && x.value < n then 1 else 0)
    decreases n
  {
    if n > 0 {
      TakenBelowExtend(p, x, n - 1);
      var r := p + [x];
      assert Taken(r, |r|, n - 1) <==> Taken(p, |p|, n - 1) || x == Some(n - 1) by {
        if Taken(r, |r|, n - 1) {
          var q :| 0 <= q < |r| && r[q] == Some(n - 1);
          if q < |p| {
            assert p[q] == Some(n - 1);
          }
        }
        if Taken(p, |p|, n - 1) {
          var q :| 0 <= q < |p| && p[q] == Some(n - 1);
          assert r[q] == Some(n - 1);
        }
        assert r[|p|] == x;
      }
    }
  }

  /** Every pairing is to a distinct prediction below `n`, so exactly
      `Matched` predictions are taken. */
  lemma {:induction false} TakenBelowIsMatched<L>(refs: seq<Labelled<L>>, preds: seq<Labelled<L>>)
    ensures TakenBelow(Pairing(refs, preds), |preds|) == Matched(Pairing(refs, preds))
    decreases |refs|
  {
    var r := Pairing(refs, preds);
    if |refs| == 0 {
      TakenBelowNone(r, |preds|);
    } else {
      var init := refs[..|refs| - 1];
      var p := Pairing(init, preds);
      var x := r[|refs| - 1];
      assert r == p + [x];
      TakenBelowIsMatched(init, preds);
      assert Greedy(refs, preds, r, |refs| - 1);
      if x.Some? {
        assert !Taken(r, |refs| - 1, x.value);
        forall j
          ensures Taken(r, |refs| - 1, j) <==> Taken(p, |p|, j)
        {
          TakenPrefix(p, x, |p|, j);
        }
      }
      TakenBelowExtend(p, x, |preds|);
      assert r[..|r| - 1] == p;
    }
  }

  lemma {:induction false} TakenBelowNone(pairing: seq<Option<nat>>, n: nat)
    requires |pairing| == 0
    ensures TakenBelow(pairing, n) == 0
    decreases n
  {
    if n > 0 {
      TakenBelowNone(pairing, n - 1);
    }
  }

  /** The labels of the references, in order. */
  function Labels<L>(ms: seq<Labelled<L>>): (r: seq<L>)
    ensures |r| == |ms| && forall k :: 0 <= k < |ms| ==> r[k] == ms[k].tag
  {
    seq(|ms|, k requires 0 <= k < |ms| => ms[k].tag)
  }

  /** The number of unpaired predictions is the number of predictions less
      the number of references that found one. */
  lemma FreeSize<L>(refs: seq<Labelled<L>>, preds: seq<Labelled<L>>)
    ensures Matched(Pairing(refs, preds)) <= |preds|
    ensures |FreeFrom(Pairing(refs, preds), |preds|, 0)| == |preds| - Matched(Pairing(refs, preds))
  {
    var pairing := Pairing(refs, preds);
    FreeCount(pairing, |preds|, 0);
    TakenBelowIsMatched(refs, preds);
  }

  /** The predicted side for the references: the tag of the paired
      prediction, or `missing`. */
  function PairedTags<L>(refs: seq<Labelled<L>>, preds: seq<Labelled<L>>, missing: L): (r: seq<L>)
    ensures |r| == |refs|
    ensures forall k :: 0 <= k < |refs| ==>
      var p := Pairing(refs, preds)[k];
      && (p.Some? ==> p.value < |preds| && SameSpan(refs[k], preds[p.value]) && r[k] == preds[p.value].tag)
      && (p.None? ==> r[k] == missing)
  {
    var pairing := Pairing(refs, preds);
    forall k | 0 <= k < |refs|
      ensures pairing[k].Some? ==> pairing[k].value < |preds| && SameSpan(refs[k], preds[pairing[k].value])
    {
      assert Greedy(refs, preds, pairing, k);
    }
    seq(|refs|, k requires 0 <= k < |refs| =>
      if pairing[k].Some? && pairing[k].value < |preds| then preds[pairing[k].value].tag else missing)
  }

  /** The tags of the predictions at the given indices. */
  function TagsAt<L>(preds: seq<Labelled<L>>, indices: seq<nat>): (r: seq<L>)
    requires forall q :: 0 <= q < |indices| ==> indices[q] < |preds|
    ensures |r| == |indices| && forall q :: 0 <= q < |indices| ==> r[q] == preds[indices[q]].tag
  {
    seq(|indices|, q requires 0 <= q < |indices| => preds[indices[q]].tag)
  }

  /** `compare_instance(ref, pred)` with `missing` for the absent side:
      `(y_true, y_pred)`. */
  function Compare<L>(refs: seq<Labelled<L>>, preds: seq<Labelled<L>>, missing: L): (r: (seq<L>, seq<L>))
    ensures |refs| <= |r.0| == |r.1| == |refs| + |preds| - Matched(Pairing(refs, preds))
    ensures r.0[..|refs|] == Labels(refs) && r.1[..|refs|] == PairedTags(refs, preds, missing)
    ensures forall q :: |refs| <= q < |r.0| ==> r.0[q] == missing
    ensures r.1[|refs|..] == TagsAt(preds, FreeFrom(Pairing(refs, preds), |preds|, 0))
  {
    var free := FreeFrom(Pairing(refs, preds), |preds|, 0);
    FreeSize(refs, preds);
    var yTrue := Labels(refs) + seq(|free|, q => missing);
    var yPred := PairedTags(refs, preds, missing) + TagsAt(preds, free);
    assert yTrue[..|refs|] == Labels(refs);
    assert yPred[..|refs|] == PairedTags(refs, preds, missing);
    assert yPred[|refs|..] == TagsAt(preds, free);
    (yTrue, yPred)
  }

  predicate DistinctSpans<L>(ms: seq<Labelled<L>>) {
    forall a, b :: 0 <= a < b < |ms| ==> !SameSpan(ms[a], ms[b])
  }

  lemma {:induction false} MatchedAll(pairing: seq<Option<nat>>)
    requires forall k :: 0 <= k < |pairing| ==> pairing[k].Some?
    ensures Matched(pairing) == |pairing|
    decreases |pairing|
  {
    if |pairing| > 0 {
      MatchedAll(pairing[..|pairing| - 1]);
    }
  }

  /** Scoring mentions with distinct spans against themselves pairs every
      mention with itself, so the two sides agree: the metric's best case. */
  lemma SelfComparison<L>(ms: seq<Labelled<L>>, missing: L)
    requires DistinctSpans(ms)
    ensures Compare(ms, ms, missing).0 == Compare(ms, ms, missing).1 == Labels(ms)
  {
    var pairing := Pairing(ms, ms);
    forall q | 0 <= q < |ms| && pairing[q].Some?
      ensures pairing[q].value == q
    {
      assert Greedy(ms, ms, pairing, q);
    }
    forall k | 0 <= k < |ms|
      ensures pairing[k] == Some(k)
    {
      assert !Taken(pairing, k, k);
      assert Greedy(ms, ms, pairing, k);
      assert SameSpan(ms[k], ms[k]);
    }
    MatchedAll(pairing);
    var r := Compare(ms, ms, missing);
    assert r.0 == r.0[..|ms|];
    assert r.1 == r.1[..|ms|];
  }

  /** `compare_instance` of the coreference B3 metric: tags are cluster ids
      and the absent side is -1. */
  function CorefB3Compare(refs: seq<Labelled<int>>, preds: seq<Labelled<int>>): (r: (seq<int>, seq<int>))
    ensures |refs| <= |r.0| == |r.1| == |refs| + |preds| - Matched(Pairing(refs, preds))
    ensures forall k :: 0 <= k < |refs| ==> r.0[k] == refs[k].tag
    ensures forall k :: 0 <= k < |refs| && Pairing(refs, preds)[k].None? ==> r.1[k] == -1
    ensures forall k :: 0 <= k < |refs| && Pairing(refs, preds)[k].Some? ==>
      Pairing(refs, preds)[k].value < |preds| && SameSpan(refs[k], preds[Pairing(refs, preds)[k].value]) &&
      r.1[k] == preds[Pairing(refs, preds)[k].value].tag
    ensures forall q :: |refs| <= q < |r.0| ==> r.0[q] == -1
    ensures r.1[|refs|..] == TagsAt(preds, FreeFrom(Pairing(refs, preds), |preds|, 0))
  {
    var r := Compare(refs, preds, -1);
    assert forall k :: 0 <= k < |refs| ==> r.0[k] == r.0[..|refs|][k] && r.1[k] == r.1[..|refs|][k];
    r
  }

  /** `compare_instance` of the mention-level NER metric: tags are entity
      types and the absent side is `na`. */
  function NerF1Compare(refs: seq<Labelled<string>>, preds: seq<Labelled<string>>): (r: (seq<string>, seq<string>))
    ensures |refs| <= |r.0| == |r.1| == |refs| + |preds| - Matched(Pairing(refs, preds))
    ensures forall k :: 0 <= k < |refs| ==> r.0[k] == refs[k].tag
    ensures forall k :: 0 <= k < |refs| && Pairing(refs, preds)[k].None? ==> r.1[k] == "na"
    ensures forall k :: 0 <= k < |refs| && Pairing(refs, preds)[k].Some? ==>
      Pairing(refs, preds)[k].value < |preds| && SameSpan(refs[k], preds[Pairing(refs, preds)[k].value]) &&
      r.1[k] == preds[Pairing(refs, preds)[k].value].tag
    ensures forall q :: |refs| <= q < |r.0| ==> r.0[q] == "na"
    ensures r.1[|refs|..] == TagsAt(preds, FreeFrom(Pairing(refs, preds), |preds|, 0))
  {
    var r := Compare(refs, preds, "na");
    assert forall k :: 0 <= k < |refs| ==> r.0[k] == r.0[..|refs|][k] && r.1[k] == r.1[..|refs|][k];
    r
  }
}
