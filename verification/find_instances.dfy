/** Finding the Wikipedia article of each DocRED document
    (`1_2__find_docred_instances.py`).

    The full-text search is a parameter: given a document's flat text it
    returns the hits, best first. Only the first five hits are compared with
    the document; the first hit of greatest similarity wins, because a later
    hit must be strictly more similar to replace it. A document whose best
    similarity exceeds one half is matched. Without any hit the candidate is
    no resource with similarity -1; the source returns that candidate alone
    there and a (candidate, similarity) pair otherwise, and the pair is
    modelled in both cases. */
module FindInstances {
  import opened Wrappers
  import Similarity
  import Positions

  const MaxCandidates := 5
  const Threshold: real := 0.5

  /** A search hit: the article's URL and its text. */
  datatype Hit = Hit(url: string, text: string)

  datatype Candidate = Candidate(resource: Option<string>, similarity: real)

  /** A line of the matched or not-matched file. */
  datatype Record = Record(resource: Option<string>, similarity: real, id: nat, dataset: string)

  /** `hits[0:MAX_CANDIDATES]`. */
  function Considered(hits: seq<Hit>): (n: nat)
    ensures n <= |hits| && n <= MaxCandidates
    ensures n == |hits| || n == MaxCandidates
  {
    if |hits| < MaxCandidates then |hits| else MaxCandidates
  }

  function Score(docredText: string, hit: Hit): (s: real)
    requires |docredText| > 0
    ensures 0.0 <= s <= 1.0
  {
    Similarity.TextSimilarityDocred(docredText, hit.text).value
  }

  /** `c` is what the selection must return: the earliest of the considered
      hits with the greatest score, or the empty candidate without hits. */
  predicate IsBest(docredText: string, hits: seq<Hit>, c: Candidate) {
    if |hits| == 0 then c == Candidate(None, -1.0)
    else
      && |docredText| > 0
      && (exists b ::
            && 0 <= b < Considered(hits)
            && c == Candidate(Some(hits[b].url), Score(docredText, hits[b]))
            && (forall k :: 0 <= k < Considered(hits) ==> Score(docredText, hits[k]) <= c.similarity)
            && (forall k :: 0 <= k < b ==> Score(docredText, hits[k]) < c.similarity))
  }

  /** At most one candidate is the best one. */
  lemma IsBestUnique(docredText: string, hits: seq<Hit>, c1: Candidate, c2: Candidate)
    requires IsBest(docredText, hits, c1) && IsBest(docredText, hits, c2)
    ensures c1 == c2
  {
    if |hits| > 0 {
      var n := Considered(hits);
      var b1 :| 0 <= b1 < n
        && c1 == Candidate(Some(hits[b1].url), Score(docredText, hits[b1]))
        && (forall k :: 0 <= k < n ==> Score(docredText, hits[k]) <= c1.similarity)
        && (forall k :: 0 <= k < b1 ==> Score(docredText, hits[k]) < c1.similarity);
      var b2 :| 0 <= b2 < n
        && c2 == Candidate(Some(hits[b2].url), Score(docredText, hits[b2]))
        && (forall k :: 0 <= k < n ==> Score(docredText, hits[k]) <= c2.similarity)
        && (forall k :: 0 <= k < b2 ==> Score(docredText, hits[k]) < c2.similarity);
      assert b1 == b2;
    }
  }

  /** `find_candidate_elasticsearch` on the hits of one search. Scoring a
      hit against an empty document text divides by zero. */
  method BestHit(docredText: string, hits: seq<Hit>) returns (r: Result<Candidate>)
    ensures r.Err? <==> |hits| > 0 && |docredText| == 0
    ensures r.Ok? ==> IsBest(docredText, hits, r.value)
  {
    if |hits| == 0 {
      return Ok(Candidate(None, -1.0));
    }
    if |docredText| == 0 {
      return Err("ZeroDivisionError: division by zero");
    }
    var n := Considered(hits);
    var best := Candidate(None, -1.0);
    var chosen := 0;
    var k := 0;
    while k < n
      invariant 0 <= k <= n
      invariant k == 0 ==> best == Candidate(None, -1.0)
      invariant k > 0 ==>
        && chosen < k
        && best == Candidate(Some(hits[chosen].url), Score(docredText, hits[chosen]))
        && (forall q :: 0 <= q < k ==> Score(docredText, hits[q]) <= best.similarity)
        && (forall q :: 0 <= q < chosen ==> Score(docredText, hits[q]) < best.similarity)
    {
      var sim := Score(docredText, hits[k]);
      if sim > best.similarity {
        best := Candidate(Some(hits[k].url), sim);
        chosen := k;
      }
      k := k + 1;
    }
    return Ok(best);
  }

  /** Some record is about document `i`. */
  predicate Covered(records: seq<Record>, i: nat) {
    exists p :: 0 <= p < |records| && records[p].id == i
  }

  /** Writing a record to either file keeps every document covered and
      covers the record's own document. */
  lemma CoveredAfterWrite(a: seq<Record>, b: seq<Record>, x: Record, j: nat)
    requires Covered(a + b, j) || j == x.id
    ensures Covered(a + [x] + b, j) && Covered(a + (b + [x]), j)
  {
    if j == x.id {
      assert (a + [x] + b)[|a|] == x;
      assert (a + (b + [x]))[|a| + |b|] == x;
    } else {
      var p :| 0 <= p < |a + b| && (a + b)[p].id == j;
      if p < |a| {
        assert (a + [x] + b)[p] == (a + b)[p];
        assert (a + (b + [x]))[p] == (a + b)[p];
      } else {
        assert (a + [x] + b)[p + 1] == (a + b)[p];
        assert (a + (b + [x]))[p] == (a + b)[p];
      }
    }
  }

  /** Whether a candidate goes to the matched file. */
  predicate Matched(c: Candidate) {
    c.similarity > Threshold
  }

  /** What the two output files hold after the first `i` documents: one
      record per document, each in the file its similarity selects, each
      the best hit of its document, ordered by document, and every document
      covered. */
  predicate Filed(docs: seq<seq<seq<string>>>, name: string, search: string -> seq<Hit>, i: nat,
                  matched: seq<Record>, notMatched: seq<Record>)
  {
    && i <= |docs|
    && |matched| + |notMatched| == i
    && (forall x :: x in matched ==> Matched(Candidate(x.resource, x.similarity)))
    && (forall x :: x in notMatched ==> !Matched(Candidate(x.resource, x.similarity)))
    && (forall x :: x in matched + notMatched ==>
         && x.dataset == name && x.id < i
         && IsBest(Positions.DocText(docs[x.id]), search(Positions.DocText(docs[x.id])), Candidate(x.resource, x.similarity)))
    && (forall j :: 0 <= j < i ==> Covered(matched + notMatched, j))
    && (forall a, b :: 0 <= a < b < |matched| ==> matched[a].id < matched[b].id)
    && (forall a, b :: 0 <= a < b < |notMatched| ==> notMatched[a].id < notMatched[b].id)
  }

  /** Writing the best candidate of document `i` to the matched file keeps
      the files in order. */
  lemma FileMatched(docs: seq<seq<seq<string>>>, name: string, search: string -> seq<Hit>, i: nat,
                    matched: seq<Record>, notMatched: seq<Record>, c: Candidate)
    requires i < |docs| && Filed(docs, name, search, i, matched, notMatched)
    requires IsBest(Positions.DocText(docs[i]), search(Positions.DocText(docs[i])), c) && Matched(c)
    ensures Filed(docs, name, search, i + 1, matched + [Record(c.resource, c.similarity, i, name)], notMatched)
  {
    var record := Record(c.resource, c.similarity, i, name);
    forall j | 0 <= j < i + 1
      ensures Covered(matched + [record] + notMatched, j)
    {
      CoveredAfterWrite(matched, notMatched, record, j);
    }
    assert forall x :: x in matched + [record] + notMatched ==> x in matched + notMatched || x == record;
  }

  /** Writing it to the not-matched file does too. */
  lemma FileNotMatched(docs: seq<seq<seq<string>>>, name: string, search: string -> seq<Hit>, i: nat,
                       matched: seq<Record>, notMatched: seq<Record>, c: Candidate)
    requires i < |docs| && Filed(docs, name, search, i, matched, notMatched)
    requires IsBest(Positions.DocText(docs[i]), search(Positions.DocText(docs[i])), c) && !Matched(c)
    ensures Filed(docs, name, search, i + 1, matched, notMatched + [Record(c.resource, c.similarity, i, name)])
  {
    var record := Record(c.resource, c.similarity, i, name);
    forall j | 0 <= j < i + 1
      ensures Covered(matched + (notMatched + [record]), j)
    {
      CoveredAfterWrite(matched, notMatched, record, j);
    }
    assert forall x :: x in matched + (notMatched + [record]) ==> x in matched + notMatched || x == record;
  }

  /** `process_dataset`: every document, in order, searched by its flat text
      and written with its index and dataset name to the matched or the
      not-matched file. */
  method ProcessDataset(docs: seq<seq<seq<string>>>, name: string, search: string -> seq<Hit>)
    returns (r: Result<(seq<Record>, seq<Record>)>)
    ensures r.Err? <==> exists i :: 0 <= i < |docs| && |search(Positions.DocText(docs[i]))| > 0 && |Positions.DocText(docs[i])| == 0
    ensures r.Ok? ==> Filed(docs, name, search, |docs|, r.value.0, r.value.1)
  {
    var matched: seq<Record> := [];
    var notMatched: seq<Record> := [];
    var i := 0;
    while i < |docs|
      invariant 0 <= i <= |docs|
      invariant forall j :: 0 <= j < i ==> |search(Positions.DocText(docs[j]))| == 0 || |Positions.DocText(docs[j])| > 0
      invariant Filed(docs, name, search, i, matched, notMatched)
    {
      var text := Positions.DocText(docs[i]);
      var c :- BestHit(text, search(text));
      if Matched(c) {
        FileMatched(docs, name, search, i, matched, notMatched, c);
        matched := matched + [Record(c.resource, c.similarity, i, name)];
      } else {
        FileNotMatched(docs, name, search, i, matched, notMatched, c);
        notMatched := notMatched + [Record(c.resource, c.similarity, i, name)];
      }
      i := i + 1;
    }
    return Ok((matched, notMatched));
  }
}
