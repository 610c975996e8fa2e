/** The coreference baseline (`baseline/neuralcoref/predict.py`).

    Predicted named entities come as inclusive document token ranges; each is
    turned back into a sentence and a half-open range in that sentence, the
    end clamped to the sentence length. The coreference clusters found by
    the resolver claim entities: each cluster mention claims the first still
    unclaimed entity with exactly its sentence and range, and every cluster
    takes the next number of a counter shared by all documents. The entities
    left unclaimed then get fresh numbers one by one. Finally the entities
    of each number form one output entity, typed by their most frequent
    type. The resolver itself is a parameter: its clusters are an input. */
module CorefBaseline {
  import opened Wrappers
  import opened Strings
  import PrepareDataset

  /** A predicted named entity: inclusive document range and type. */
  datatype Predicted = Predicted(start: nat, end: nat, kind: string)

  /** A predicted entity in its sentence: half-open range `[posStart, posEnd)`. */
  datatype PredEntity = PredEntity(sentId: int, posStart: int, posEnd: int, kind: string)

  /** A coreference mention in its sentence. */
  datatype CorefMention = CorefMention(sentId: int, posStart: int, posEnd: int)

  /** An entity with its cluster number. */
  datatype Clustered = Clustered(entity: PredEntity, cluster: nat)

  datatype OutMention = OutMention(sentId: int, posStart: int, posEnd: int, name: string)

  datatype OutEntity = OutEntity(mentions: seq<OutMention>, kind: string)

  /** An output entity with the cluster number it was made of. */
  datatype Tagged = Tagged(number: nat, entity: OutEntity)

  /** The first index from `i` on whose start lies beyond `pos`. */
  function FirstBeyond(pos: int, starts: seq<int>, i: nat): (r: Option<nat>)
    requires i <= |starts|
    ensures r.Some? ==> i <= r.value < |starts| && starts[r.value] > pos
    ensures r.Some? ==> forall q :: i <= q < r.value ==> starts[q] <= pos
    ensures r.None? ==> forall q :: i <= q < |starts| ==> starts[q] <= pos
    decreases |starts| - i
  {
    if i == |starts| then None
    else if starts[i] > pos then Some(i)
    else FirstBeyond(pos, starts, i + 1)
  }

  /** `pos_to_sent(pos, start_pos)`: the sentence before the first start
      beyond `pos` and the distance from that sentence's start, where index
      -1 is the last start; `None` past the last start. */
  function PosToSent(pos: int, starts: seq<int>): (r: Option<(int, int)>)
    ensures r.None? <==> forall q :: 0 <= q < |starts| ==> starts[q] <= pos
  {
    match FirstBeyond(pos, starts, 0)
    case None => None
    case Some(j) => Some((j - 1, pos - (if j == 0 then starts[|starts| - 1] else starts[j - 1])))
  }

  /** Position `pos` of the document lies in sentence `sp.0`, at distance
      `sp.1` from that sentence's start. */
  predicate InSentence(sents: seq<seq<string>>, pos: int, sp: (int, int)) {
    var offsets := PrepareDataset.StartOffsets(sents);
    && 0 <= sp.0 < |sents|
    && offsets[sp.0] <= pos < offsets[sp.0 + 1]
    && sp.1 == pos - offsets[sp.0]
  }

  /** On the offsets of a document, every position inside it falls in the
      sentence whose range holds it, and past the end there is no sentence. */
  lemma PosToSentOfOffsets(sents: seq<seq<string>>, pos: nat)
    ensures pos >= |PrepareDataset.Tokens(sents)| ==> PosToSent(pos, PrepareDataset.StartOffsets(sents)).None?
    ensures pos < |PrepareDataset.Tokens(sents)| ==>
      && PosToSent(pos, PrepareDataset.StartOffsets(sents)).Some?
      && InSentence(sents, pos, PosToSent(pos, PrepareDataset.StartOffsets(sents)).value)
  {
    var offsets := PrepareDataset.StartOffsets(sents);
    if pos >= |PrepareDataset.Tokens(sents)| {
      forall q | 0 <= q < |offsets|
        ensures offsets[q] <= pos
      {
        PrepareDataset.OffsetsMonotone(sents, q, |sents|);
      }
    } else {
      var j := FirstBeyond(pos, offsets, 0);
      assert offsets[|sents|] > pos;
      assert j.Some?;
      assert j.value != 0;
    }
  }

  function Min(a: int, b: int): int {
    if a < b then a else b
  }

  /** A predicted entity back in its sentence: the end is clamped to the
      sentence length. A start past the document raises, since `pos_to_sent`
      returns nothing to unpack. */
  function ConvertPredicted(sents: seq<seq<string>>, m: Predicted): (r: Result<PredEntity>)
    ensures r.Ok? <==> m.start < |PrepareDataset.Tokens(sents)|
    ensures r.Ok? ==>
      && InSentence(sents, m.start, (r.value.sentId, r.value.posStart))
      && 0 <= r.value.posStart < |sents[r.value.sentId]|
      && r.value.posEnd == Min(r.value.posStart + m.end - m.start + 1, |sents[r.value.sentId]|)
      && r.value.posEnd <= |sents[r.value.sentId]|
      && r.value.kind == m.kind
  {
    PosToSentOfOffsets(sents, m.start);
    match PosToSent(m.start, PrepareDataset.StartOffsets(sents))
    case None => Err("TypeError: cannot unpack non-iterable NoneType object")
    case Some((s, p)) =>
      if 0 <= s < |sents| then
        Ok(PredEntity(s, p, Min(p + m.end - m.start + 1, |sents[s]|), m.kind))
      else Err("IndexError: list index out of range")
  }

  /** A position lies in one sentence only. */
  lemma InSentenceUnique(sents: seq<seq<string>>, pos: int, sp1: (int, int), sp2: (int, int))
    requires InSentence(sents, pos, sp1) && InSentence(sents, pos, sp2)
    ensures sp1 == sp2
  {
    var offsets := PrepareDataset.StartOffsets(sents);
    forall a, b | 0 <= a <= b <= |sents|
      ensures offsets[a] <= offsets[b]
    {
      PrepareDataset.OffsetsMonotone(sents, a, b);
    }
  }

  /** The inclusive document range the PURE input gives a mention comes back
      as the mention's own sentence and range. */
  lemma DocPosRoundTrip(sents: seq<seq<string>>, s: nat, p0: nat, p1: nat, kind: string)
    requires s < |sents| && p0 < p1 <= |sents[s]|
    ensures
      var span := PrepareDataset.DocPos(PrepareDataset.StartOffsets(sents), PrepareDataset.Mention(s, p0, p1)).value;
      && span.start >= 0 && span.end >= 0
      && ConvertPredicted(sents, Predicted(span.start, span.end, kind)) == Ok(PredEntity(s, p0, p1, kind))
  {
    var offsets := PrepareDataset.StartOffsets(sents);
    PrepareDataset.TokenAtOffset(sents, s, p0);
    var start := offsets[s] + p0;
    var end := offsets[s] + p1 - 1;
    var r := ConvertPredicted(sents, Predicted(start, end, kind));
    assert InSentence(sents, start, (s, p0));
    InSentenceUnique(sents, start, (r.value.sentId, r.value.posStart), (s, p0));
    var span := PrepareDataset.DocPos(offsets, PrepareDataset.Mention(s, p0, p1)).value;
    assert span.start == start && span.end == end;
    assert r.value.posEnd == p1;
  }

  /** A resolver mention back in its sentence: `[start, end)` of the
      document becomes `[p, p + end - start)` in the sentence of `start`. */
  function ConvertCoref(sents: seq<seq<string>>, start: nat, end: nat): (r: Result<CorefMention>)
    ensures r.Ok? <==> start < |PrepareDataset.Tokens(sents)|
    ensures r.Ok? ==>
      && 0 <= r.value.sentId < |sents|
      && PrepareDataset.StartOffsets(sents)[r.value.sentId] + r.value.posStart == start
      && r.value.posEnd - r.value.posStart == end - start
  {
    PosToSentOfOffsets(sents, start);
    match PosToSent(start, PrepareDataset.StartOffsets(sents))
    case None => Err("TypeError: cannot unpack non-iterable NoneType object")
    case Some((s, p)) => Ok(CorefMention(s, p, p + end - start))
  }

  predicate SameSpan(e: PredEntity, m: CorefMention) {
    e.sentId == m.sentId && e.posStart == m.posStart && e.posEnd == m.posEnd
  }

  /** Some mention of the cluster has the entity's span. */
  predicate SpanIn(e: PredEntity, mentions: seq<CorefMention>) {
    exists q :: 0 <= q < |mentions| && SameSpan(e, mentions[q])
  }

  /** The first entity from `k` on that no cluster has claimed and that has
      the mention's span. */
  function FirstUnclaimed(ents: seq<PredEntity>, ids: seq<Option<nat>>, m: CorefMention, k: nat): (r: Option<nat>)
    requires |ids| == |ents| && k <= |ents|
    ensures r.Some? ==> k <= r.value < |ents| && ids[r.value].None? && SameSpan(ents[r.value], m)
    ensures r.Some? ==> forall q :: k <= q < r.value ==> ids[q].Some? || !SameSpan(ents[q], m)
    ensures r.None? ==> forall q :: k <= q < |ents| ==> ids[q].Some? || !SameSpan(ents[q], m)
    decreases |ents| - k
  {
    if k == |ents| then None
    else if ids[k].None? && SameSpan(ents[k], m) then Some(k)
    else FirstUnclaimed(ents, ids, m, k + 1)
  }

  /** One cluster mention claims at most one entity: the first unclaimed
      one with its span. */
  function Claim(ents: seq<PredEntity>, ids: seq<Option<nat>>, m: CorefMention, id: nat): (r: seq<Option<nat>>)
    requires |ids| == |ents|
    ensures |r| == |ids|
    ensures forall k :: 0 <= k < |ids| && ids[k].Some? ==> r[k] == ids[k]
    ensures forall k :: 0 <= k < |ids| && ids[k].None? && r[k].Some? ==> r[k] == Some(id) && SameSpan(ents[k], m)
    ensures forall a, b :: 0 <= a < b < |ids| && ids[a].None? && ids[b].None? ==> r[a].None? || r[b].None?
    ensures (exists k :: 0 <= k < |ids| && ids[k].None? && SameSpan(ents[k], m)) ==>
      exists k :: 0 <= k < |ids| && ids[k].None? && r[k] == Some(id)
  {
    match FirstUnclaimed(ents, ids, m, 0)
    case None => ids
    case Some(k) => ids[k := Some(id)]
  }

  /** Some entity unclaimed in `ids` with the mention's span holds, in
      `r`, a number no larger than `bound`. */
  predicate ClaimedUpTo(ents: seq<PredEntity>, ids: seq<Option<nat>>, r: seq<Option<nat>>, m: CorefMention, bound: nat)
    requires |ids| == |ents| && |r| == |ents|
  {
    exists j :: 0 <= j < |ents| && ids[j].None? && SameSpan(ents[j], m) && r[j].Some? && r[j].value <= bound
  }

  /** Every mention of one cluster, in order, with the cluster's number. */
  function ClaimCluster(ents: seq<PredEntity>, ids: seq<Option<nat>>, mentions: seq<CorefMention>, id: nat): (r: seq<Option<nat>>)
    requires |ids| == |ents|
    ensures |r| == |ids|
    ensures forall k :: 0 <= k < |ids| && ids[k].Some? ==> r[k] == ids[k]
    ensures forall k :: 0 <= k < |ids| && ids[k].None? && r[k].Some? ==> r[k] == Some(id) && SpanIn(ents[k], mentions)
    decreases |mentions|
  {
    if |mentions| == 0 then ids
    else
      var once := Claim(ents, ids, mentions[0], id);
      var r := ClaimCluster(ents, once, mentions[1..], id);
      forall k | 0 <= k < |ids| && ids[k].None? && r[k].Some?
        ensures SpanIn(ents[k], mentions)
      {
        if once[k].Some? {
          assert SameSpan(ents[k], mentions[0]);
        } else {
          var q :| 0 <= q < |mentions[1..]| && SameSpan(ents[k], mentions[1..][q]);
          assert mentions[1..][q] == mentions[q + 1];
        }
      }
      r
  }

  /** Every mention of a cluster finds an entity with its span, unless all
      such entities were claimed before: the mention claims one itself, or
      an earlier mention of the cluster already did. */
  lemma {:induction false} ClaimClusterComplete(ents: seq<PredEntity>, ids: seq<Option<nat>>, mentions: seq<CorefMention>,
                                                id: nat, q: nat, k: nat)
    requires |ids| == |ents|
    requires 0 <= q < |mentions| && 0 <= k < |ids| && ids[k].None? && SameSpan(ents[k], mentions[q])
    ensures ClaimedUpTo(ents, ids, ClaimCluster(ents, ids, mentions, id), mentions[q], id)
    decreases |mentions|
  {
    var once := Claim(ents, ids, mentions[0], id);
    var r := ClaimCluster(ents, ids, mentions, id);
    assert r == ClaimCluster(ents, once, mentions[1..], id);
    if q == 0 {
      var j :| 0 <= j < |ids| && ids[j].None? && once[j] == Some(id);
      assert SameSpan(ents[j], mentions[0]);
      assert r[j] == once[j];
    } else if once[k].None? {
      assert mentions[1..][q - 1] == mentions[q];
      ClaimClusterComplete(ents, once, mentions[1..], id, q - 1, k);
      var j :| 0 <= j < |ents| && once[j].None? && SameSpan(ents[j], mentions[q]) && r[j].Some? && r[j].value <= id;
      assert ids[j].None?;
    } else {
      assert r[k] == once[k];
    }
  }

  /** Entity `k` was claimed by cluster `c` of those numbered from `counter`. */
  predicate ClaimedBy(ents: seq<PredEntity>, clusters: seq<seq<CorefMention>>, counter: nat, k: nat, id: nat)
    requires k < |ents|
  {
    counter <= id < counter + |clusters| && SpanIn(ents[k], clusters[id - counter])
  }

  /** All clusters of a document; cluster `c` has number `counter + c`. */
  function ClaimClusters(ents: seq<PredEntity>, ids: seq<Option<nat>>, clusters: seq<seq<CorefMention>>, counter: nat): (r: seq<Option<nat>>)
    requires |ids| == |ents|
    ensures |r| == |ids|
    ensures forall k :: 0 <= k < |ids| && ids[k].Some? ==> r[k] == ids[k]
    ensures forall k :: 0 <= k < |ids| && ids[k].None? && r[k].Some? ==> ClaimedBy(ents, clusters, counter, k, r[k].value)
    decreases |clusters|
  {
    if |clusters| == 0 then ids
    else
      var once := ClaimCluster(ents, ids, clusters[0], counter);
      var r := ClaimClusters(ents, once, clusters[1..], counter + 1);
      forall k | 0 <= k < |ids| && ids[k].None? && r[k].Some?
        ensures ClaimedBy(ents, clusters, counter, k, r[k].value)
      {
        if once[k].None? {
          assert clusters[1..][r[k].value - (counter + 1)] == clusters[r[k].value - counter];
        }
      }
      r
  }

  /** Every mention of cluster `c` has an entity with its span numbered by
      cluster `c` or an earlier one, unless that entity was claimed before
      the clusters ran. */
  lemma {:induction false} ClaimClustersComplete(ents: seq<PredEntity>, ids: seq<Option<nat>>, clusters: seq<seq<CorefMention>>,
                                                 counter: nat, c: nat, q: nat, k: nat)
    requires |ids| == |ents|
    requires 0 <= c < |clusters| && 0 <= q < |clusters[c]| && 0 <= k < |ids| && ids[k].None? && SameSpan(ents[k], clusters[c][q])
    ensures ClaimedUpTo(ents, ids, ClaimClusters(ents, ids, clusters, counter), clusters[c][q], counter + c)
    decreases |clusters|
  {
    var once := ClaimCluster(ents, ids, clusters[0], counter);
    var r := ClaimClusters(ents, ids, clusters, counter);
    assert r == ClaimClusters(ents, once, clusters[1..], counter + 1);
    if c == 0 {
      ClaimClusterComplete(ents, ids, clusters[0], counter, q, k);
      var j :| 0 <= j < |ents| && ids[j].None? && SameSpan(ents[j], clusters[0][q]) && once[j].Some? && once[j].value <= counter;
      assert r[j] == once[j];
    } else if once[k].None? {
      assert clusters[1..][c - 1] == clusters[c];
      ClaimClustersComplete(ents, once, clusters[1..], counter + 1, c - 1, q, k);
      var j :| 0 <= j < |ents| && once[j].None? && SameSpan(ents[j], clusters[c][q]) && r[j].Some? && r[j].value <= counter + c;
      assert ids[j].None?;
    } else {
      assert r[k] == once[k];
    }
  }

  /** The entities no cluster claimed get the next numbers, in order. */
  function FillFresh(ids: seq<Option<nat>>, counter: nat): (r: (seq<nat>, nat))
    ensures |r.0| == |ids| && r.1 >= counter
    ensures forall k :: 0 <= k < |ids| && ids[k].Some? ==> r.0[k] == ids[k].value
    ensures forall k :: 0 <= k < |ids| && ids[k].None? ==> counter <= r.0[k] < r.1
    ensures forall a, b :: 0 <= a < b < |ids| && ids[a].None? && ids[b].None? ==> r.0[a] < r.0[b]
    decreases |ids|
  {
    if |ids| == 0 then ([], counter)
    else
      var next := if ids[0].Some? then counter else counter + 1;
      var rest := FillFresh(ids[1..], next);
      var out := [if ids[0].Some? then ids[0].value else counter] + rest.0;
      assert forall k :: 1 <= k < |ids| ==> ids[k] == ids[1..][k - 1] && out[k] == rest.0[k - 1];
      (out, rest.1)
  }

  function Unclaimed(n: nat): (r: seq<Option<nat>>)
    ensures |r| == n && forall k :: 0 <= k < n ==> r[k].None?
  {
    seq(n, k => None)
  }

  /** The cluster numbers of one document's entities and the counter after
      it. Numbers come from the counter, which never goes back: the
      entities a cluster claimed carry the cluster's number and have the
      span of one of its mentions, and every unclaimed entity has a number
      of its own. */
  function AssignClusters(ents: seq<PredEntity>, clusters: seq<seq<CorefMention>>, counter: nat): (r: (seq<nat>, nat))
    ensures |r.0| == |ents|
    ensures r.1 >= counter + |clusters|
    ensures forall k :: 0 <= k < |ents| ==> counter <= r.0[k] < r.1
    ensures forall k :: 0 <= k < |ents| && r.0[k] < counter + |clusters| ==> ClaimedBy(ents, clusters, counter, k, r.0[k])
    ensures forall a, b :: 0 <= a < |ents| && 0 <= b < |ents| && a != b && r.0[a] == r.0[b] ==> r.0[a] < counter + |clusters|
  {
    var claimed := ClaimClusters(ents, Unclaimed(|ents|), clusters, counter);
    FillFresh(claimed, counter + |clusters|)
  }

  /** Every entity with the span of a mention of cluster `c` is matched by
      some entity with that span numbered by cluster `c` or an earlier
      one: entities sharing a mention's span are never all given fresh
      numbers. */
  predicate SpansNumbered(ents: seq<PredEntity>, clusters: seq<seq<CorefMention>>, nums: seq<nat>, counter: nat)
    requires |nums| == |ents|
  {
    forall c, q, k :: 0 <= c < |clusters| && 0 <= q < |clusters[c]| && 0 <= k < |ents| && SameSpan(ents[k], clusters[c][q]) ==>
      NumberedUpTo(ents, nums, clusters[c][q], counter + c)
  }

  /** Numbering by clusters keeps the mention spans together: an entity
      with a cluster mention's span is never left alone with a fresh
      number. */
  lemma AssignClustersComplete(ents: seq<PredEntity>, clusters: seq<seq<CorefMention>>, counter: nat)
    ensures SpansNumbered(ents, clusters, AssignClusters(ents, clusters, counter).0, counter)
  {
    var claimed := ClaimClusters(ents, Unclaimed(|ents|), clusters, counter);
    var nums := AssignClusters(ents, clusters, counter).0;
    assert nums == FillFresh(claimed, counter + |clusters|).0;
    var none := Unclaimed(|ents|);
    forall c, q, k | 0 <= c < |clusters| && 0 <= q < |clusters[c]| && 0 <= k < |ents| && SameSpan(ents[k], clusters[c][q])
      ensures NumberedUpTo(ents, nums, clusters[c][q], counter + c)
    {
      ClaimClustersComplete(ents, none, clusters, counter, c, q, k);
      var j :| 0 <= j < |ents| && none[j].None? && SameSpan(ents[j], clusters[c][q]) && claimed[j].Some? && claimed[j].value <= counter + c;
      assert nums[j] == claimed[j].value;
    }
  }

  /** Some entity with the mention's span carries a number no larger than
      `bound`: that of the mention's cluster or of an earlier one. */
  predicate NumberedUpTo(ents: seq<PredEntity>, nums: seq<nat>, m: CorefMention, bound: nat)
    requires |nums| == |ents|
  {
    exists j :: 0 <= j < |ents| && SameSpan(ents[j], m) && nums[j] <= bound
  }

  /** A document's entities and its resolver clusters. */
  datatype Document = Document(ents: seq<PredEntity>, clusters: seq<seq<CorefMention>>)

  /** The shared counter across documents: numbers of different documents
      never meet, those of a later document being larger. */
  function AssignDocuments(docs: seq<Document>, counter: nat): (r: (seq<seq<nat>>, nat))
    ensures |r.0| == |docs| && r.1 >= counter
    ensures forall d :: 0 <= d < |docs| ==> |r.0[d]| == |docs[d].ents|
    ensures forall d, k :: 0 <= d < |docs| && 0 <= k < |r.0[d]| ==> counter <= r.0[d][k] < r.1
    ensures forall a, b, ka, kb :: 0 <= a < b < |docs| && 0 <= ka < |r.0[a]| && 0 <= kb < |r.0[b]| ==> r.0[a][ka] < r.0[b][kb]
    decreases |docs|
  {
    if |docs| == 0 then ([], counter)
    else
      var first := AssignClusters(docs[0].ents, docs[0].clusters, counter);
      var rest := AssignDocuments(docs[1..], first.1);
      assert forall d :: 1 <= d < |docs| ==> docs[d] == docs[1..][d - 1];
      ([first.0] + rest.0, rest.1)
  }

  function Count(xs: seq<string>, x: string): nat {
    multiset(xs)[x]
  }

  /** The best element among `xs[..k + 1]`: the earliest of greatest count. */
  function BestAmong(xs: seq<string>, k: nat): (r: string)
    requires k < |xs|
    ensures r in xs[..k + 1]
    ensures forall q :: 0 <= q <= k ==> Count(xs, xs[q]) <= Count(xs, r)
  {
    if k == 0 then xs[0]
    else
      var best := BestAmong(xs, k - 1);
      assert xs[..k] + [xs[k]] == xs[..k + 1];
      if Count(xs, xs[k]) > Count(xs, best) then xs[k] else best
  }

  /** `most_frequent`: an element of greatest count. The source picks among
      ties in the set's iteration order; here the earliest wins. */
  function MostFrequent(xs: seq<string>): (r: Result<string>)
    ensures r.Err? <==> |xs| == 0
    ensures r.Ok? ==> r.value in xs && forall x :: x in xs ==> Count(xs, x) <= Count(xs, r.value)
  {
    if |xs| == 0 then Err("ValueError: max() arg is an empty sequence")
    else
      var r := BestAmong(xs, |xs| - 1);
      assert xs[..|xs|] == xs;
      Ok(r)
  }

  /** Python's `s[a:b]` for integer bounds. */
  function PySlice(s: seq<string>, a: int, b: int): (r: seq<string>)
    ensures 0 <= a <= b <= |s| ==> r == s[a..b]
  {
    var lo := if a < 0 then (if a + |s| < 0 then 0 else a + |s|) else (if a > |s| then |s| else a);
    var hi := if b < 0 then (if b + |s| < 0 then 0 else b + |s|) else (if b > |s| then |s| else b);
    if lo >= hi then [] else s[lo..hi]
  }

  /** An output mention: the entity's span and its tokens joined by spaces. */
  function Named(sents: seq<seq<string>>, e: PredEntity): (r: Result<OutMention>)
    ensures r.Ok? <==> 0 <= e.sentId < |sents|
    ensures r.Ok? ==> r.value == OutMention(e.sentId, e.posStart, e.posEnd, JoinSpaces(PySlice(sents[e.sentId], e.posStart, e.posEnd)))
  {
    if 0 <= e.sentId < |sents| then Ok(OutMention(e.sentId, e.posStart, e.posEnd, JoinSpaces(PySlice(sents[e.sentId], e.posStart, e.posEnd))))
    else Err("IndexError: list index out of range")
  }

  /** The entities with cluster number `c`, in order. */
  function Members(ces: seq<Clustered>, c: nat): (r: seq<PredEntity>)
    ensures |r| <= |ces|
    ensures forall k :: 0 <= k < |ces| && ces[k].cluster == c ==> |r| > 0
    decreases |ces|
  {
    if |ces| == 0 then []
    else
      var rest := Members(ces[1..], c);
      assert forall k :: 1 <= k < |ces| ==> ces[k] == ces[1..][k - 1];
      if ces[0].cluster == c then [ces[0].entity] + rest else rest
  }

  function NameAll(sents: seq<seq<string>>, ents: seq<PredEntity>): (r: Result<seq<OutMention>>)
    ensures r.Ok? <==> forall k :: 0 <= k < |ents| ==> 0 <= ents[k].sentId < |sents|
    ensures r.Ok? ==> |r.value| == |ents| && forall k :: 0 <= k < |ents| ==> Ok(r.value[k]) == Named(sents, ents[k])
    decreases |ents|
  {
    if |ents| == 0 then Ok([])
    else
      var first :- Named(sents, ents[0]);
      var rest :- NameAll(sents, ents[1..]);
      assert forall k :: 1 <= k < |ents| ==> ents[k] == ents[1..][k - 1];
      Ok([first] + rest)
  }

  function Kinds(ents: seq<PredEntity>): (r: seq<string>)
    ensures |r| == |ents| && forall k :: 0 <= k < |ents| ==> r[k] == ents[k].kind
  {
    seq(|ents|, k requires 0 <= k < |ents| => ents[k].kind)
  }

  /** `t` is the output entity of cluster number `t.number`: the named mentions
      of its members and their most frequent type. */
  predicate Grouped(sents: seq<seq<string>>, ces: seq<Clustered>, t: Tagged) {
    var members := Members(ces, t.number);
    |members| > 0 && EntityOf(sents, members) == Ok(t.entity)
  }

  /** The output entity of a cluster's members: their named mentions and
      their most frequent type. */
  function EntityOf(sents: seq<seq<string>>, members: seq<PredEntity>): (r: Result<OutEntity>)
    ensures r.Ok? <==> |members| > 0 && NameAll(sents, members).Ok?
    ensures r.Ok? ==> NameAll(sents, members) == Ok(r.value.mentions)
    ensures r.Ok? ==> MostFrequent(Kinds(members)) == Ok(r.value.kind)
  {
    var named :- NameAll(sents, members);
    var kind :- MostFrequent(Kinds(members));
    Ok(OutEntity(named, kind))
  }

  /** Some output entity has cluster number `c`. */
  predicate HasNumber(out: seq<Tagged>, c: nat) {
    exists o :: 0 <= o < |out| && out[o].number == c
  }

  /** The cluster numbers from `c` up to `end` that have entities, in
      increasing order. */
  function Numbers(ces: seq<Clustered>, c: nat, end: nat): (r: seq<nat>)
    ensures forall o :: 0 <= o < |r| ==> c <= r[o] < end && |Members(ces, r[o])| > 0
    ensures forall a, b :: 0 <= a < b < |r| ==> r[a] < r[b]
    ensures forall k :: 0 <= k < |ces| && c <= ces[k].cluster < end ==> ces[k].cluster in r
    decreases end - c
  {
    if c >= end then []
    else if |Members(ces, c)| == 0 then Numbers(ces, c + 1, end)
    else [c] + Numbers(ces, c + 1, end)
  }

  /** `t` is the output entity of cluster number `n`. */
  predicate MadeOf(sents: seq<seq<string>>, ces: seq<Clustered>, n: nat, t: Tagged) {
    t.number == n && EntityOf(sents, Members(ces, n)) == Ok(t.entity)
  }

  /** The output entity of each number, in order. */
  function GroupNumbers(sents: seq<seq<string>>, ces: seq<Clustered>, numbers: seq<nat>): (r: Result<seq<Tagged>>)
    ensures r.Ok? ==> |r.value| == |numbers|
    ensures r.Ok? ==> forall o :: 0 <= o < |numbers| ==> MadeOf(sents, ces, numbers[o], r.value[o])
    decreases |numbers|
  {
    if |numbers| == 0 then Ok([])
    else
      var entity :- EntityOf(sents, Members(ces, numbers[0]));
      var rest :- GroupNumbers(sents, ces, numbers[1..]);
      Ok([Tagged(numbers[0], entity)] + rest)
  }

  function MinCluster(ces: seq<Clustered>): (r: nat)
    requires |ces| > 0
    ensures forall k :: 0 <= k < |ces| ==> r <= ces[k].cluster
  {
    if |ces| == 1 then ces[0].cluster
    else
      var rest := MinCluster(ces[1..]);
      assert forall k :: 1 <= k < |ces| ==> ces[k] == ces[1..][k - 1];
      if ces[0].cluster < rest then ces[0].cluster else rest
  }

  function MaxCluster(ces: seq<Clustered>): (r: nat)
    requires |ces| > 0
    ensures forall k :: 0 <= k < |ces| ==> ces[k].cluster <= r
  {
    if |ces| == 1 then ces[0].cluster
    else
      var rest := MaxCluster(ces[1..]);
      assert forall k :: 1 <= k < |ces| ==> ces[k] == ces[1..][k - 1];
      if ces[0].cluster > rest then ces[0].cluster else rest
  }

  /** The output entities of one document: one per cluster number that has
      entities, in increasing number order, typed by their most frequent
      type. A document without entities raises (`min` of nothing). */
  function Group(sents: seq<seq<string>>, ces: seq<Clustered>): (r: Result<seq<Tagged>>)
    ensures |ces| == 0 ==> r.Err?
    ensures r.Ok? ==> forall o :: 0 <= o < |r.value| ==> Grouped(sents, ces, r.value[o])
    ensures r.Ok? ==> forall a, b :: 0 <= a < b < |r.value| ==> r.value[a].number < r.value[b].number
    ensures r.Ok? ==> forall k :: 0 <= k < |ces| ==> HasNumber(r.value, ces[k].cluster)
  {
    if |ces| == 0 then Err("ValueError: min() arg is an empty sequence")
    else
      var lo, hi := MinCluster(ces), MaxCluster(ces) + 1;
      var r :- GroupNumbers(sents, ces, Numbers(ces, lo, hi));
      NumberedGroups(sents, ces, lo, hi, r);
      Ok(r)
  }

  /** The entities made for the numbers from `lo` up to `hi` are grouped,
      ordered by number, and cover every cluster in that range. */
  lemma NumberedGroups(sents: seq<seq<string>>, ces: seq<Clustered>, lo: nat, hi: nat, r: seq<Tagged>)
    requires GroupNumbers(sents, ces, Numbers(ces, lo, hi)) == Ok(r)
    ensures forall o :: 0 <= o < |r| ==> Grouped(sents, ces, r[o])
    ensures forall a, b :: 0 <= a < b < |r| ==> r[a].number < r[b].number
    ensures forall k :: 0 <= k < |ces| && lo <= ces[k].cluster < hi ==> HasNumber(r, ces[k].cluster)
  {
    var numbers := Numbers(ces, lo, hi);
    forall o | 0 <= o < |r|
      ensures Grouped(sents, ces, r[o])
    {
      assert MadeOf(sents, ces, numbers[o], r[o]);
    }
    forall k | 0 <= k < |ces| && lo <= ces[k].cluster < hi
      ensures HasNumber(r, ces[k].cluster)
    {
      var o :| 0 <= o < |numbers| && numbers[o] == ces[k].cluster;
      assert r[o].number == ces[k].cluster;
    }
  }
}
