/** Positional rank fusion of candidate lists, shared by the entity-linking
    baseline (`baseline/entity-linking/predict.py`) and the entity-linking
    metric (`metrics/entity_linking.py`).

    A table keeps a score per candidate in insertion order, lowest best. A
    list of candidates adds its position to the score of each candidate it
    holds, a candidate new to the table starting from that position; every
    candidate that was still unmarked before the list and does not appear in
    it is pushed back by the list's length. The ranking orders the table by
    non-decreasing score; a rank is the 1-based place of the gold resource
    in it, or -1. */
module RankFusion {
  import opened Wrappers

  datatype Entry = Entry(key: string, score: nat)

  /** The keys of the table. */
  function KeySet(s: seq<Entry>): (r: set<string>)
    ensures forall k :: k in r <==> exists q :: 0 <= q < |s| && s[q].key == k
  {
    set q | 0 <= q < |s| :: s[q].key
  }

  lemma KeySetCons(e: Entry, rest: seq<Entry>)
    ensures KeySet([e] + rest) == {e.key} + KeySet(rest)
  {
    var s := [e] + rest;
    forall k | k in KeySet(rest)
      ensures k in KeySet(s)
    {
      var q :| 0 <= q < |rest| && rest[q].key == k;
      assert s[q + 1] == rest[q];
    }
    forall k | k in KeySet(s)
      ensures k == e.key || k in KeySet(rest)
    {
      var q :| 0 <= q < |s| && s[q].key == k;
      if q > 0 {
        assert s[q] == rest[q - 1];
      }
    }
    assert s[0] == e;
  }

  /** No key is in the table twice. */
  predicate DistinctKeys(s: seq<Entry>) {
    forall a, b :: 0 <= a < b < |s| ==> s[a].key != s[b].key
  }

  /** The score of `k` in the table, 0 when absent. */
  function ScoreOf(s: seq<Entry>, k: string): nat {
    if |s| == 0 then 0
    else if s[0].key == k then s[0].score
    else ScoreOf(s[1..], k)
  }

  /** With distinct keys, each entry's score is the score of its key. */
  lemma {:induction false} ScoreOfEntry(s: seq<Entry>, q: nat)
    requires DistinctKeys(s) && q < |s|
    ensures ScoreOf(s, s[q].key) == s[q].score
    decreases q
  {
    if q > 0 {
      assert s[0].key != s[q].key;
      assert s[1..][q - 1] == s[q];
      ScoreOfEntry(s[1..], q - 1);
    }
  }

  /** `wiki_resources[cand] += i`, or a new entry with score `i` at the
      end. */
  function AddTo(s: seq<Entry>, cand: string, i: nat): (r: seq<Entry>)
    ensures |s| <= |r| <= |s| + 1
    ensures forall q :: 0 <= q < |s| ==> r[q].key == s[q].key
    ensures |r| > |s| ==> r[|s|].key == cand && forall q :: 0 <= q < |s| ==> s[q].key != cand
    ensures |r| == |s| ==> exists q :: 0 <= q < |s| && s[q].key == cand
    decreases |s|
  {
    if |s| == 0 then [Entry(cand, i)]
    else if s[0].key == cand then
      var r := [s[0].(score := s[0].score + i)] + s[1..];
      assert forall q :: 1 <= q < |s| ==> r[q] == s[q];
      r
    else
      var rest := AddTo(s[1..], cand, i);
      var r := [s[0]] + rest;
      assert forall q :: 1 <= q < |s| ==> s[q] == s[1..][q - 1] && r[q] == rest[q - 1];
      if |rest| == |s| - 1 then
        var q :| 0 <= q < |s[1..]| && s[1..][q].key == cand;
        assert s[q + 1].key == cand;
        r
      else
        r
  }

  /** The keys after adding are the old ones and `cand`. */
  lemma AddToKeys(s: seq<Entry>, cand: string, i: nat)
    ensures forall k :: k in KeySet(AddTo(s, cand, i)) <==> k in KeySet(s) || k == cand
  {
    var r := AddTo(s, cand, i);
    forall k
      ensures k in KeySet(r) <==> k in KeySet(s) || k == cand
    {
      if k in KeySet(r) {
        var q :| 0 <= q < |r| && r[q].key == k;
        if q < |s| {
          assert s[q].key == k;
        }
      }
      if k in KeySet(s) {
        var q :| 0 <= q < |s| && s[q].key == k;
        assert r[q].key == k;
      }
      if k == cand && cand !in KeySet(s) {
        assert r[|s|].key == k;
      }
    }
  }

  /** Adding moves only the score of `cand`, by `i`. */
  lemma {:induction false} AddToScores(s: seq<Entry>, cand: string, i: nat, k: string)
    ensures ScoreOf(AddTo(s, cand, i), k) == ScoreOf(s, k) + (if k == cand then i else 0)
    decreases |s|
  {
    if |s| > 0 && s[0].key != cand {
      AddToScores(s[1..], cand, i, k);
      assert AddTo(s, cand, i)[1..] == AddTo(s[1..], cand, i);
    }
  }

  /** The sum of the positions (counted from `i0`) where `k` occurs. */
  function PosSum(cands: seq<string>, k: string, i0: nat): nat
    decreases |cands|
  {
    if |cands| == 0 then 0
    else (if cands[0] == k then i0 else 0) + PosSum(cands[1..], k, i0 + 1)
  }

  /** A candidate that occurs once, at position `i`, contributes exactly `i`;
      one that does not occur contributes nothing. */
  lemma {:induction false} PosSumSingle(cands: seq<string>, k: string, i0: nat, i: nat)
    requires i < |cands| && cands[i] == k
    requires forall q :: 0 <= q < |cands| && q != i ==> cands[q] != k
    ensures PosSum(cands, k, i0) == i0 + i
    decreases |cands|
  {
    if i == 0 {
      PosSumAbsent(cands[1..], k, i0 + 1);
    } else {
      PosSumSingle(cands[1..], k, i0 + 1, i - 1);
    }
  }

  lemma {:induction false} PosSumAbsent(cands: seq<string>, k: string, i0: nat)
    requires k !in cands
    ensures PosSum(cands, k, i0) == 0
    decreases |cands|
  {
    if |cands| > 0 {
      PosSumAbsent(cands[1..], k, i0 + 1);
    }
  }

  /** The inner loop over one list: every candidate adds its position. */
  function AddAll(s: seq<Entry>, cands: seq<string>, i0: nat): (r: seq<Entry>)
    ensures forall k :: k in KeySet(r) <==> k in KeySet(s) || k in cands
    ensures forall k :: ScoreOf(r, k) == ScoreOf(s, k) + PosSum(cands, k, i0)
    ensures |r| >= |s| && forall q :: 0 <= q < |s| ==> r[q].key == s[q].key
    decreases |cands|
  {
    if |cands| == 0 then s
    else
      var once := AddTo(s, cands[0], i0);
      AddToKeys(s, cands[0], i0);
      var r := AddAll(once, cands[1..], i0 + 1);
      assert forall k :: k in cands <==> k == cands[0] || k in cands[1..];
      forall k
        ensures ScoreOf(once, k) == ScoreOf(s, k) + (if k == cands[0] then i0 else 0)
      {
        AddToScores(s, cands[0], i0, k);
      }
      r
  }

  /** Adding a candidate keeps the keys distinct. */
  lemma AddToKeepsDistinct(s: seq<Entry>, cand: string, i: nat)
    requires DistinctKeys(s)
    ensures DistinctKeys(AddTo(s, cand, i))
  {
    var r := AddTo(s, cand, i);
    if |r| > |s| {
      forall a | 0 <= a < |s|
        ensures r[a].key != cand
      {
        assert s[a].key in KeySet(s);
      }
    }
  }

  /** Adding a list keeps the keys distinct. */
  lemma {:induction false} AddAllKeepsDistinct(s: seq<Entry>, cands: seq<string>, i0: nat)
    requires DistinctKeys(s)
    ensures DistinctKeys(AddAll(s, cands, i0))
    decreases |cands|
  {
    if |cands| > 0 {
      AddToKeepsDistinct(s, cands[0], i0);
      AddAllKeepsDistinct(AddTo(s, cands[0], i0), cands[1..], i0 + 1);
    }
  }

  /** The pass over the marks: every unmarked entry absent from the list is
      pushed back by `n`. */
  function Penalize(s: seq<Entry>, unmarked: set<string>, cands: seq<string>, n: nat): (r: seq<Entry>)
    ensures |r| == |s| && forall q :: 0 <= q < |s| ==> r[q].key == s[q].key
    decreases |s|
  {
    if |s| == 0 then []
    else
      var e := s[0];
      var head := if e.key in unmarked && e.key !in cands then e.(score := e.score + n) else e;
      var rest := Penalize(s[1..], unmarked, cands, n);
      var r := [head] + rest;
      assert forall q :: 1 <= q < |r| ==> r[q] == rest[q - 1];
      r
  }

  /** Only the unmarked keys of the table that the list misses move, each
      by `n`. */
  lemma {:induction false} PenalizeScores(s: seq<Entry>, unmarked: set<string>, cands: seq<string>, n: nat, k: string)
    ensures ScoreOf(Penalize(s, unmarked, cands, n), k) == ScoreOf(s, k) + (if k in KeySet(s) && k in unmarked && k !in cands then n else 0)
    decreases |s|
  {
    if |s| > 0 {
      PenalizeScores(s[1..], unmarked, cands, n, k);
      var r := Penalize(s, unmarked, cands, n);
      assert r[1..] == Penalize(s[1..], unmarked, cands, n);
      if k != s[0].key {
        KeySetCons(s[0], s[1..]);
        assert s == [s[0]] + s[1..];
      } else {
        assert k in KeySet(s);
      }
    }
  }

  /** One list fused into the table: the candidates it holds join the
      table's keys, and they are marked from now on. */
  function FuseStep(s: seq<Entry>, unmarked: set<string>, cands: seq<string>): (r: (seq<Entry>, set<string>))
    ensures forall k :: k in KeySet(r.0) <==> k in KeySet(s) || k in cands
    ensures |r.0| >= |s| && forall q :: 0 <= q < |s| ==> r.0[q].key == s[q].key
    ensures r.1 == unmarked - set c | c in cands
  {
    var added := AddAll(s, cands, 0);
    var r := Penalize(added, unmarked, cands, |cands|);
    assert forall q :: 0 <= q < |added| ==> r[q].key == added[q].key;
    (r, unmarked - set c | c in cands)
  }

  /** The score of every candidate after one list: its old score (0 if new),
      plus its positions in the list, plus the list's length when it was an
      unmarked key of the table and the list misses it. */
  lemma FuseStepScores(s: seq<Entry>, unmarked: set<string>, cands: seq<string>, k: string)
    ensures ScoreOf(FuseStep(s, unmarked, cands).0, k) ==
      ScoreOf(s, k) + PosSum(cands, k, 0) + (if k in KeySet(s) && k in unmarked && k !in cands then |cands| else 0)
  {
    var added := AddAll(s, cands, 0);
    PenalizeScores(added, unmarked, cands, |cands|, k);
    assert k in KeySet(added) && k !in cands ==> k in KeySet(s);
  }

  /** The keys are in non-decreasing order of their scores in the table. */
  predicate SortedBy(table: seq<Entry>, keys: seq<string>) {
    forall a, b :: 0 <= a < b < |keys| ==> ScoreOf(table, keys[a]) <= ScoreOf(table, keys[b])
  }

  /** Fusing a list keeps the keys distinct, so the table stays a map. */
  lemma FuseStepKeepsDistinct(s: seq<Entry>, unmarked: set<string>, cands: seq<string>)
    requires DistinctKeys(s)
    ensures DistinctKeys(FuseStep(s, unmarked, cands).0)
  {
    AddAllKeepsDistinct(s, cands, 0);
  }

  /** Some list of `lists` holds `k`. */
  predicate InSome(lists: seq<seq<string>>, k: string) {
    exists l :: 0 <= l < |lists| && k in lists[l]
  }

  /** The lists fused for one reference mention, in order, sharing one set
      of marks: a key marked by an earlier list is not pushed back by a
      later one. */
  function FuseGroup(s: seq<Entry>, unmarked: set<string>, lists: seq<seq<string>>): (r: (seq<Entry>, set<string>))
    ensures forall k :: k in KeySet(r.0) <==> k in KeySet(s) || InSome(lists, k)
    ensures |r.0| >= |s| && forall q :: 0 <= q < |s| ==> r.0[q].key == s[q].key
    ensures r.1 <= unmarked
    decreases |lists|
  {
    if |lists| == 0 then (s, unmarked)
    else
      var step := FuseStep(s, unmarked, lists[0]);
      var r := FuseGroup(step.0, step.1, lists[1..]);
      InSomeCons(lists);
      r
  }

  lemma InSomeCons(lists: seq<seq<string>>)
    requires |lists| > 0
    ensures forall k :: InSome(lists, k) <==> k in lists[0] || InSome(lists[1..], k)
  {
    forall k
      ensures InSome(lists, k) <==> k in lists[0] || InSome(lists[1..], k)
    {
      if InSome(lists[1..], k) {
        var l :| 0 <= l < |lists[1..]| && k in lists[1..][l];
        assert lists[1..][l] == lists[l + 1];
      }
      if InSome(lists, k) {
        var l :| 0 <= l < |lists| && k in lists[l];
        if l > 0 {
          assert lists[1..][l - 1] == lists[l];
        }
      }
    }
  }

  /** One mention's lists fused into the table: the marks start as the
      table's keys. */
  function FuseMention(s: seq<Entry>, lists: seq<seq<string>>): (r: seq<Entry>)
    ensures forall k :: k in KeySet(r) <==> k in KeySet(s) || InSome(lists, k)
    ensures |r| >= |s| && forall q :: 0 <= q < |s| ==> r[q].key == s[q].key
  {
    FuseGroup(s, KeySet(s), lists).0
  }

  /** A candidate is in the fused table iff some list of some mention holds
      it. */
  predicate Listed(groups: seq<seq<seq<string>>>, k: string) {
    exists g :: 0 <= g < |groups| && InSome(groups[g], k)
  }

  /** The table of one entity: its mentions' lists fused one mention after
      the other. */
  function FuseMentions(s: seq<Entry>, groups: seq<seq<seq<string>>>): (r: seq<Entry>)
    ensures forall k :: k in KeySet(r) <==> k in KeySet(s) || Listed(groups, k)
    decreases |groups|
  {
    if |groups| == 0 then s
    else
      var once := FuseMention(s, groups[0]);
      var r := FuseMentions(once, groups[1..]);
      forall k
        ensures Listed(groups, k) <==> InSome(groups[0], k) || Listed(groups[1..], k)
      {
        if Listed(groups[1..], k) {
          var g :| 0 <= g < |groups[1..]| && InSome(groups[1..][g], k);
          assert groups[1..][g] == groups[g + 1];
        }
        if Listed(groups, k) {
          var g :| 0 <= g < |groups| && InSome(groups[g], k);
          if g > 0 {
            assert groups[1..][g - 1] == groups[g];
          }
        }
      }
      r
  }

  /** Fusing keeps the keys distinct. */
  lemma {:induction false} FuseGroupKeepsDistinct(s: seq<Entry>, unmarked: set<string>, lists: seq<seq<string>>)
    requires DistinctKeys(s)
    ensures DistinctKeys(FuseGroup(s, unmarked, lists).0)
    decreases |lists|
  {
    if |lists| > 0 {
      FuseStepKeepsDistinct(s, unmarked, lists[0]);
      var step := FuseStep(s, unmarked, lists[0]);
      FuseGroupKeepsDistinct(step.0, step.1, lists[1..]);
    }
  }

  lemma {:induction false} FuseMentionsKeepsDistinct(s: seq<Entry>, groups: seq<seq<seq<string>>>)
    requires DistinctKeys(s)
    ensures DistinctKeys(FuseMentions(s, groups))
    decreases |groups|
  {
    if |groups| > 0 {
      FuseGroupKeepsDistinct(s, KeySet(s), groups[0]);
      FuseMentionsKeepsDistinct(FuseMention(s, groups[0]), groups[1..]);
    }
  }

  /** `k` in front of the first key not scored below it. */
  function Insert(table: seq<Entry>, k: string, sorted: seq<string>): (r: seq<string>)
    ensures multiset(r) == multiset(sorted) + multiset{k}
    ensures |r| == |sorted| + 1 && (r[0] == k || (|sorted| > 0 && r[0] == sorted[0]))
    decreases |sorted|
  {
    if |sorted| == 0 then [k]
    else if ScoreOf(table, k) <= ScoreOf(table, sorted[0]) then [k] + sorted
    else
      assert sorted == [sorted[0]] + sorted[1..];
      [sorted[0]] + Insert(table, k, sorted[1..])
  }

  /** Inserting into a sorted list keeps it sorted. */
  lemma {:induction false} InsertSorted(table: seq<Entry>, k: string, sorted: seq<string>)
    requires SortedBy(table, sorted)
    ensures SortedBy(table, Insert(table, k, sorted))
    decreases |sorted|
  {
    if |sorted| > 0 && ScoreOf(table, k) > ScoreOf(table, sorted[0]) {
      var rest := Insert(table, k, sorted[1..]);
      InsertSorted(table, k, sorted[1..]);
      var r := [sorted[0]] + rest;
      assert forall q :: 1 <= q < |r| ==> r[q] == rest[q - 1];
      assert ScoreOf(table, sorted[0]) <= ScoreOf(table, rest[0]);
    }
  }

  /** Insertion sort of `keys` by their scores in the table. */
  function SortKeys(table: seq<Entry>, keys: seq<string>): (r: seq<string>)
    ensures multiset(r) == multiset(keys)
    ensures SortedBy(table, r)
    decreases |keys|
  {
    if |keys| == 0 then []
    else
      assert keys == [keys[0]] + keys[1..];
      InsertSorted(table, keys[0], SortKeys(table, keys[1..]));
      Insert(table, keys[0], SortKeys(table, keys[1..]))
  }

  function Keys(s: seq<Entry>): (r: seq<string>)
    ensures |r| == |s| && forall q :: 0 <= q < |s| ==> r[q] == s[q].key
  {
    seq(|s|, q requires 0 <= q < |s| => s[q].key)
  }

  /** The ranking (`argsort` of the scores applied to the keys): the keys of
      the table, each as often as in the table, by non-decreasing score. */
  function Ranking(s: seq<Entry>): (r: seq<string>)
    ensures |r| == |s|
    ensures multiset(r) == multiset(Keys(s))
    ensures SortedBy(s, r)
  {
    var r := SortKeys(s, Keys(s));
    assert |r| == |multiset(r)| == |multiset(Keys(s))| == |s|;
    r
  }

  /** A table with distinct keys lists each key at most once. */
  lemma {:induction false} DistinctKeysCount(s: seq<Entry>, k: string)
    requires DistinctKeys(s)
    ensures multiset(Keys(s))[k] <= 1
    decreases |s|
  {
    if |s| > 0 {
      assert Keys(s) == [s[0].key] + Keys(s[1..]);
      assert DistinctKeys(s[1..]) by {
        forall a, b | 0 <= a < b < |s[1..]|
          ensures s[1..][a].key != s[1..][b].key
        {
          assert s[1..][a] == s[a + 1] && s[1..][b] == s[b + 1];
        }
      }
      DistinctKeysCount(s[1..], k);
      if s[0].key == k {
        assert k !in Keys(s[1..]) by {
          forall q | 0 <= q < |s[1..]|
            ensures Keys(s[1..])[q] != k
          {
            assert s[1..][q] == s[q + 1];
          }
        }
      }
    }
  }

  /** On a table with distinct keys the ranking names every key exactly
      once. */
  lemma RankingIsPermutation(s: seq<Entry>)
    requires DistinctKeys(s)
    ensures forall k :: k in Ranking(s) <==> k in KeySet(s)
    ensures forall k :: multiset(Ranking(s))[k] <= 1
  {
    var r := Ranking(s);
    forall k
      ensures multiset(r)[k] <= 1
      ensures k in r <==> k in KeySet(s)
    {
      DistinctKeysCount(s, k);
      assert k in r <==> k in multiset(Keys(s));
    }
  }

  /** `candidates.index(gold) + 1`, or -1 when the gold resource is not
      ranked. */
  function RankOf(ranking: seq<string>, gold: string): (r: int)
    ensures r == -1 <==> gold !in ranking
    ensures r != -1 ==> 1 <= r <= |ranking| && ranking[r - 1] == gold
    ensures r != -1 ==> forall q :: 0 <= q < r - 1 ==> ranking[q] != gold
    decreases |ranking|
  {
    if |ranking| == 0 then -1
    else if ranking[0] == gold then 1
    else
      var rest := RankOf(ranking[1..], gold);
      assert ranking == [ranking[0]] + ranking[1..];
      if rest == -1 then -1 else rest + 1
  }

  /** The number of ranks equal to 1 (Hit@1's numerator). */
  function HitsAt1(ranks: seq<int>): nat {
    if |ranks| == 0 then 0 else (if ranks[0] == 1 then 1 else 0) + HitsAt1(ranks[1..])
  }

  /** The number of ranks in 1..5 (Hit@5's numerator). */
  function HitsAt5(ranks: seq<int>): nat {
    if |ranks| == 0 then 0 else (if -1 < ranks[0] <= 5 then 1 else 0) + HitsAt5(ranks[1..])
  }

  /** Every hit at 1 is a hit at 5, so Hit@1 never exceeds Hit@5. */
  lemma {:induction false} HitsAt1AtMostHitsAt5(ranks: seq<int>)
    ensures HitsAt1(ranks) <= HitsAt5(ranks) <= |ranks|
    decreases |ranks|
  {
    if |ranks| > 0 {
      HitsAt1AtMostHitsAt5(ranks[1..]);
    }
  }
}
