/** `1_2__find_docred_instances.py` as written. Without hits
    `find_candidate_elasticsearch` returns the candidate alone, and
    `process_dataset` unpacks it as a (candidate, similarity) pair: the dict
    unpacks into its two key strings, and numbering the "candidate" raises.
    `FindInstances` models the evident intent, the pair in both cases. */
module FindInstancesAsWritten {
  import opened Wrappers
  import opened FindInstances
  import Positions

  /** What `find_candidate_elasticsearch` returns as written: the bare
      candidate when the search has no hit, a (candidate, similarity) pair
      otherwise. */
  datatype Returned = BareCandidate(candidate: Candidate) | CandidatePair(candidate: Candidate, similarity: real)

  /** `find_candidate_elasticsearch` as written. With hits the pair's
      similarity is the candidate's own, since every score beats the
      initial -1. */
  method AsWrittenFindCandidate(docredText: string, hits: seq<Hit>) returns (r: Result<Returned>)
    ensures r.Err? <==> |hits| > 0 && |docredText| == 0
    ensures |hits| == 0 ==> r == Ok(BareCandidate(Candidate(None, -1.0)))
    ensures r.Ok? && |hits| > 0 ==>
      && r.value.CandidatePair?
      && IsBest(docredText, hits, r.value.candidate)
      && r.value.similarity == r.value.candidate.similarity
  {
    if |hits| == 0 {
      return Ok(BareCandidate(Candidate(None, -1.0)));
    }
    var c :- BestHit(docredText, hits);
    return Ok(CandidatePair(c, c.similarity));
  }

  /** `candidate, text_sim = ...` followed by `candidate['id'] = i`: a bare
      candidate unpacks into its two key strings, and assigning an item of a
      string raises. */
  function Unpack(ret: Returned): (r: Result<(Candidate, real)>)
    ensures r.Err? <==> ret.BareCandidate?
    ensures r.Ok? ==> r.value == (ret.candidate, ret.similarity)
  {
    match ret
    case BareCandidate(_) => Err("TypeError: 'str' object does not support item assignment")
    case CandidatePair(c, sim) => Ok((c, sim))
  }

  /** `process_dataset` as written: a document without any hit raises, as
      does one with hits and an empty text. */
  method AsWrittenProcessDataset(docs: seq<seq<seq<string>>>, name: string, search: string -> seq<Hit>)
    returns (r: Result<(seq<Record>, seq<Record>)>)
    ensures r.Err? <==> exists i :: 0 <= i < |docs| && (|search(Positions.DocText(docs[i]))| == 0 || |Positions.DocText(docs[i])| == 0)
    ensures r.Ok? ==> Filed(docs, name, search, |docs|, r.value.0, r.value.1)
  {
    var matched: seq<Record> := [];
    var notMatched: seq<Record> := [];
    var i := 0;
    while i < |docs|
      invariant 0 <= i <= |docs|
      invariant forall j :: 0 <= j < i ==> |search(Positions.DocText(docs[j]))| > 0 && |Positions.DocText(docs[j])| > 0
      invariant Filed(docs, name, search, i, matched, notMatched)
    {
      var text := Positions.DocText(docs[i]);
      var ret :- AsWrittenFindCandidate(text, search(text));
      var pair :- Unpack(ret);
      var c := pair.0;
      if pair.1 > Threshold {
        FileMatched(docs, name, search, i, matched, notMatched, c);
        matched := matched + [Record(c.resource, c.similarity, i, name)];
      } else {
        FileNotMatched(docs, name, search, i, matched, notMatched, c);
        notMatched := notMatched + [Record(c.resource, c.similarity, i, name)];
      }
      i := i + 1;
    }
    return Ok((matched, notMatched));
  }

  /** A search that finds nothing for any document: the code as written
      raises on the first document, while the intended one files a record
      for every document, without resource and with similarity -1, so
      below the threshold. */
  method ZeroHitsDiscrepancy(docs: seq<seq<seq<string>>>, name: string)
    returns (asWritten: Result<(seq<Record>, seq<Record>)>, intended: Result<(seq<Record>, seq<Record>)>)
    requires |docs| > 0
    ensures asWritten.Err?
    ensures intended.Ok? && |intended.value.0| + |intended.value.1| == |docs|
    ensures intended.Ok? ==> forall x :: x in intended.value.0 + intended.value.1 ==> x.resource.None? && x.similarity == -1.0
  {
    var search := (t: string) => [];
    assert |search(Positions.DocText(docs[0]))| == 0;
    asWritten := AsWrittenProcessDataset(docs, name, search);
    intended := ProcessDataset(docs, name, search);
    assert forall x :: x in intended.value.0 + intended.value.1 ==> search(Positions.DocText(docs[x.id])) == [];
  }
}
