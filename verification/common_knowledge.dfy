/** Decoding the common-knowledge annotations and applying them
    (`4_3__decode_annotations.py`).

    Each annotated row names a frequent entity by its simplified text and
    type and gives its resource: a search candidate, none (`Other`), a
    resource written out, or, for a text starting with `-`, a placeholder
    `---<simplified text>`. Entities not yet linked, or linked by this same
    step, then take the resource of the first of their mentions whose
    simplified text and type name a row.

    The source keeps the rows in a DataFrame, tests membership of the
    (text, type) key against its column labels and reads the entity's
    resource under the key `resource`; the evident intent, modelled here, is
    a lookup table keyed by (simplified text, type), later rows winning, and
    the `wikipedia_resource` key; `AsWrittenLinkDocuments` keeps the source's
    reading. A row of an unknown annotation type reuses
    the resource of the previous row, as the loop variable does in the
    source, and raises when there is none. */
module CommonKnowledge {
  import opened Wrappers
  import opened Strings
  import Normalize

  const CommonKnowledgeMethod := "common-knowledge"

  datatype Annotation = Annotation(kind: string, values: seq<string>)

  /** An annotated row: its results, the entity's simplified text and type,
      and the resources of the candidates shown. */
  datatype Row = Row(results: seq<Annotation>, simplifiedText: string, entityType: string, candidates: seq<Option<string>>)

  datatype Key = Key(text: string, entityType: string)

  datatype Link = Link(resource: Option<string>, matcher: Option<string>)

  /** An entity of the aligned documents: type, mention names, linking. */
  datatype Entity = Entity(kind: string, mentions: seq<string>, linking: Link)

  /** The candidate picked by a choice: the digit at index 12 of the choice
      text numbers the candidate. */
  function ChoiceResource(choice: string, candidates: seq<Option<string>>): (r: Result<Option<string>>)
    ensures choice == "Other" ==> r == Ok(None)
    ensures choice != "Other" ==>
      (r.Ok? <==> |choice| > 12 && IsDigitChar(choice[12]) && DigitValue(choice[12]) < |candidates|)
    ensures choice != "Other" && r.Ok? ==> r.value == candidates[DigitValue(choice[12])]
  {
    if choice == "Other" then Ok(None)
    else if |choice| <= 12 then Err("IndexError: string index out of range")
    else
      if !IsDigitChar(choice[12]) then Err("ValueError: invalid literal for int()")
      else
      var num := DigitValue(choice[12]);
      if num < |candidates| then Ok(candidates[num]) else Err("IndexError: list index out of range")
  }

  /** The resource of one row's first result; `previous` is the resource of
      the last decoded row, if any. */
  function RowResource(row: Row, previous: Option<Option<string>>): (r: Result<Option<string>>)
    requires |row.results| > 0
    ensures row.results[0].kind == "choices" ==>
      (|row.results[0].values| == 0 ==> r.Err?)
      && (|row.results[0].values| > 0 ==> r == ChoiceResource(row.results[0].values[0], row.candidates))
    ensures row.results[0].kind == "textarea" && |row.results[0].values| > 0 ==>
      var text := row.results[0].values[0];
      r == Ok(Some(if StartsWith(text, "-") then "---" + row.simplifiedText else text))
    ensures row.results[0].kind != "choices" && row.results[0].kind != "textarea" ==>
      (r.Ok? <==> previous.Some?) && (r.Ok? ==> r.value == previous.value)
  {
    var a := row.results[0];
    if a.kind == "choices" then
      if |a.values| == 0 then Err("IndexError: list index out of range")
      else ChoiceResource(a.values[0], row.candidates)
    else if a.kind == "textarea" then
      if |a.values| == 0 then Err("IndexError: list index out of range")
      else
        var text := a.values[0];
        Ok(Some(if StartsWith(text, "-") then "---" + row.simplifiedText else text))
    else if previous.Some? then Ok(previous.value)
    else Err("UnboundLocalError: resource")
  }

  /** The annotated rows, those with at least one result, in order. */
  function Annotated(rows: seq<Row>): (r: seq<Row>)
    ensures |r| <= |rows|
    ensures forall i :: 0 <= i < |r| ==> |r[i].results| > 0
    ensures forall row :: row in r <==> row in rows && |row.results| > 0
    decreases |rows|
  {
    if |rows| == 0 then []
    else
      assert forall row :: row in rows <==> row == rows[0] || row in rows[1..];
      if |rows[0].results| == 0 then Annotated(rows[1..]) else [rows[0]] + Annotated(rows[1..])
  }

  /** Selecting the annotated rows commutes with concatenation, so it keeps
      their order and multiplicity. */
  lemma {:induction false} AnnotatedAppend(a: seq<Row>, b: seq<Row>)
    ensures Annotated(a + b) == Annotated(a) + Annotated(b)
    decreases |a|
  {
    if |a| == 0 {
      assert a + b == b;
    } else {
      assert (a + b)[0] == a[0] && (a + b)[1..] == a[1..] + b;
      AnnotatedAppend(a[1..], b);
    }
  }

  /** The resources of a table's rows. */
  function Values(entries: seq<(Key, Option<string>)>): (r: seq<Option<string>>)
    ensures |r| == |entries| && forall i :: 0 <= i < |entries| ==> r[i] == entries[i].1
  {
    seq(|entries|, i requires 0 <= i < |entries| => entries[i].1)
  }

  /** The resource decoded before annotated row `i`: that of row `i - 1`,
      or `previous` for the first row. */
  function Before(vals: seq<Option<string>>, previous: Option<Option<string>>, i: nat): Option<Option<string>>
    requires i <= |vals|
  {
    if i == 0 then previous else Some(vals[i - 1])
  }

  /** `vals` are the resources of the first `|vals|` annotated rows, each
      read with the resource decoded before it. */
  predicate Chained(ann: seq<Row>, previous: Option<Option<string>>, vals: seq<Option<string>>) {
    |vals| <= |ann| && forall i :: 0 <= i < |vals| ==> Step(ann, previous, vals, i)
  }

  /** Annotated row `i` decodes to `vals[i]`, read with the resource
      decoded before it. */
  predicate Step(ann: seq<Row>, previous: Option<Option<string>>, vals: seq<Option<string>>, i: nat)
    requires i < |vals| <= |ann|
  {
    |ann[i].results| > 0 && RowResource(ann[i], Before(vals, previous, i)) == Ok(vals[i])
  }

  /** The rows before annotated row `|vals|` decode to `vals`, and that row
      raises. */
  predicate FailsAt(ann: seq<Row>, previous: Option<Option<string>>, vals: seq<Option<string>>) {
    Chained(ann, previous, vals) && |vals| < |ann| && |ann[|vals|].results| > 0 &&
    RowResource(ann[|vals|], Before(vals, previous, |vals|)).Err?
  }

  lemma ChainedCons(row: Row, ann: seq<Row>, previous: Option<Option<string>>, v: Option<string>, vals: seq<Option<string>>)
    requires |row.results| > 0 && RowResource(row, previous) == Ok(v)
    requires Chained(ann, Some(v), vals)
    ensures Chained([row] + ann, previous, [v] + vals)
  {
    var all, out := [row] + ann, [v] + vals;
    assert Step(all, previous, out, 0);
    forall i | 0 < i < |out|
      ensures Step(all, previous, out, i)
    {
      StepShift(row, ann, previous, v, vals, i);
    }
  }

  lemma StepShift(row: Row, ann: seq<Row>, previous: Option<Option<string>>, v: Option<string>, vals: seq<Option<string>>, i: nat)
    requires 0 < i <= |vals| <= |ann| && Step(ann, Some(v), vals, i - 1)
    ensures Step([row] + ann, previous, [v] + vals, i)
  {
    var all, out := [row] + ann, [v] + vals;
    assert all[i] == ann[i - 1] && out[i] == vals[i - 1];
    assert Before(out, previous, i) == Before(vals, Some(v), i - 1);
  }

  lemma FailsAtCons(row: Row, ann: seq<Row>, previous: Option<Option<string>>, v: Option<string>, vals: seq<Option<string>>)
    requires |row.results| > 0 && RowResource(row, previous) == Ok(v)
    requires FailsAt(ann, Some(v), vals)
    ensures FailsAt([row] + ann, previous, [v] + vals)
  {
    ChainedCons(row, ann, previous, v, vals);
    assert ([row] + ann)[|vals| + 1] == ann[|vals|];
    assert Before([v] + vals, previous, |vals| + 1) == Before(vals, Some(v), |vals|);
  }

  /** A complete chain is the only one: every chain agrees with it on
      its rows and on the resource it hands to its next row. */
  lemma {:induction false} ChainUnique(ann: seq<Row>, previous: Option<Option<string>>, full: seq<Option<string>>,
                                       vals: seq<Option<string>>, n: nat)
    requires Chained(ann, previous, full) && |full| == |ann|
    requires Chained(ann, previous, vals) && n <= |vals|
    ensures forall i :: 0 <= i < n ==> vals[i] == full[i]
    ensures Before(vals, previous, n) == Before(full, previous, n)
    decreases n
  {
    if n > 0 {
      ChainUnique(ann, previous, full, vals, n - 1);
      assert Step(ann, previous, vals, n - 1) && Step(ann, previous, full, n - 1);
    }
  }

  /** Decoding that succeeds on every annotated row fails at none. */
  lemma CompleteNeverFails(ann: seq<Row>, previous: Option<Option<string>>, full: seq<Option<string>>)
    requires Chained(ann, previous, full) && |full| == |ann|
    ensures forall vals :: !FailsAt(ann, previous, vals)
  {
    forall vals | Chained(ann, previous, vals) && |vals| < |ann|
      ensures !FailsAt(ann, previous, vals)
    {
      ChainUnique(ann, previous, full, vals, |vals|);
      assert Step(ann, previous, full, |vals|);
    }
  }

  /** `entries` are the annotated rows keyed by (simplified text, type), in
      order, each with the resource of its row read with the resource
      decoded before it. */
  predicate Decoded(rows: seq<Row>, previous: Option<Option<string>>, entries: seq<(Key, Option<string>)>) {
    var ann := Annotated(rows);
    |entries| == |ann| &&
    (forall i :: 0 <= i < |entries| ==> entries[i].0 == Key(ann[i].simplifiedText, ann[i].entityType)) &&
    Chained(ann, previous, Values(entries))
  }

  /** Decoding raises at some annotated row. */
  ghost predicate Fails(rows: seq<Row>, previous: Option<Option<string>>) {
    exists vals :: FailsAt(Annotated(rows), previous, vals)
  }

  lemma AnnotatedSkip(rows: seq<Row>)
    requires |rows| > 0 && |rows[0].results| == 0
    ensures Annotated(rows) == Annotated(rows[1..])
  {
  }

  lemma AnnotatedKeep(rows: seq<Row>)
    requires |rows| > 0 && |rows[0].results| > 0
    ensures Annotated(rows) == [rows[0]] + Annotated(rows[1..])
  {
  }

  lemma DecodedCons(rows: seq<Row>, previous: Option<Option<string>>, resource: Option<string>, rest: seq<(Key, Option<string>)>)
    requires |rows| > 0 && |rows[0].results| > 0 && RowResource(rows[0], previous) == Ok(resource)
    requires Decoded(rows[1..], Some(resource), rest)
    ensures Decoded(rows, previous, [(Key(rows[0].simplifiedText, rows[0].entityType), resource)] + rest)
    ensures !Fails(rows, previous)
  {
    var out := [(Key(rows[0].simplifiedText, rows[0].entityType), resource)] + rest;
    AnnotatedKeep(rows);
    DecodedPrepend(rows[0], Annotated(rows[1..]), previous, resource, rest);
    CompleteNeverFails(Annotated(rows), previous, Values(out));
  }

  /** `DecodedCons` on the annotated rows themselves. */
  lemma DecodedPrepend(row: Row, tail: seq<Row>, previous: Option<Option<string>>, resource: Option<string>, rest: seq<(Key, Option<string>)>)
    requires |row.results| > 0 && RowResource(row, previous) == Ok(resource)
    requires |rest| == |tail| && Chained(tail, Some(resource), Values(rest))
    requires forall i :: 0 <= i < |rest| ==> rest[i].0 == Key(tail[i].simplifiedText, tail[i].entityType)
    ensures forall i :: 0 <= i < |rest| + 1 ==>
      ([(Key(row.simplifiedText, row.entityType), resource)] + rest)[i].0 == Key(([row] + tail)[i].simplifiedText, ([row] + tail)[i].entityType)
    ensures Chained([row] + tail, previous, Values([(Key(row.simplifiedText, row.entityType), resource)] + rest))
  {
    var out := [(Key(row.simplifiedText, row.entityType), resource)] + rest;
    assert Values(out) == [resource] + Values(rest);
    ChainedCons(row, tail, previous, resource, Values(rest));
  }

  lemma FailsCons(rows: seq<Row>, previous: Option<Option<string>>, resource: Option<string>)
    requires |rows| > 0 && |rows[0].results| > 0 && RowResource(rows[0], previous) == Ok(resource)
    requires Fails(rows[1..], Some(resource))
    ensures Fails(rows, previous)
  {
    AnnotatedKeep(rows);
    FailingCons(rows[0], Annotated(rows[1..]), previous, resource);
  }

  lemma FailingCons(row: Row, ann: seq<Row>, previous: Option<Option<string>>, v: Option<string>)
    requires |row.results| > 0 && RowResource(row, previous) == Ok(v)
    requires exists vals :: FailsAt(ann, Some(v), vals)
    ensures exists vals :: FailsAt([row] + ann, previous, vals)
  {
    var vals :| FailsAt(ann, Some(v), vals);
    FailsAtCons(row, ann, previous, v, vals);
  }

  lemma FailsHead(rows: seq<Row>, previous: Option<Option<string>>)
    requires |rows| > 0 && |rows[0].results| > 0 && RowResource(rows[0], previous).Err?
    ensures Fails(rows, previous)
  {
    AnnotatedKeep(rows);
    assert FailsAt(Annotated(rows), previous, []);
  }

  /** Every decoded key is that of an annotated row. */
  lemma DecodedKeys(rows: seq<Row>, previous: Option<Option<string>>, entries: seq<(Key, Option<string>)>)
    requires Decoded(rows, previous, entries)
    ensures forall e :: e in entries ==>
      exists k :: 0 <= k < |rows| && |rows[k].results| > 0 && e.0 == Key(rows[k].simplifiedText, rows[k].entityType)
  {
    var ann := Annotated(rows);
    forall e | e in entries
      ensures exists k :: 0 <= k < |rows| && |rows[k].results| > 0 && e.0 == Key(rows[k].simplifiedText, rows[k].entityType)
    {
      var i :| 0 <= i < |entries| && entries[i] == e;
      assert ann[i] in ann;
      var k :| 0 <= k < |rows| && rows[k] == ann[i];
    }
  }

  /** The annotated rows keyed by (simplified text, type), in order. Each
      resource is that of its row read with the resource decoded before
      it; decoding raises exactly when one of those rows raises. */
  function DecodeRows(rows: seq<Row>, previous: Option<Option<string>>): (r: Result<seq<(Key, Option<string>)>>)
    ensures r.Ok? ==> |r.value| <= |rows|
    ensures r.Ok? ==> forall e :: e in r.value ==>
      exists k :: 0 <= k < |rows| && |rows[k].results| > 0 && e.0 == Key(rows[k].simplifiedText, rows[k].entityType)
    ensures (forall k :: 0 <= k < |rows| ==> |rows[k].results| == 0) ==> r == Ok([])
    ensures r.Ok? ==> Decoded(rows, previous, r.value)
    ensures r.Err? <==> Fails(rows, previous)
    decreases |rows|
  {
    if |rows| == 0 then
      assert Annotated(rows) == [];
      Ok([])
    else if |rows[0].results| == 0 then
      var rest := DecodeRows(rows[1..], previous);
      assert forall k :: 1 <= k < |rows| ==> rows[k] == rows[1..][k - 1];
      AnnotatedSkip(rows);
      rest
    else
      assert forall k :: 1 <= k < |rows| ==> rows[k] == rows[1..][k - 1];
      match RowResource(rows[0], previous)
      case Err(e) =>
        FailsHead(rows, previous);
        Err(e)
      case Ok(resource) =>
        match DecodeRows(rows[1..], Some(resource))
        case Err(e) =>
          FailsCons(rows, previous, resource);
          Err(e)
        case Ok(rest) =>
          var out := [(Key(rows[0].simplifiedText, rows[0].entityType), resource)] + rest;
          DecodedCons(rows, previous, resource, rest);
          DecodedKeys(rows, previous, out);
          Ok(out)
  }

  /** The lookup table: a later row for the same key wins. */
  function Table(entries: seq<(Key, Option<string>)>): (r: map<Key, Option<string>>)
    ensures forall key :: key in r <==> exists k :: 0 <= k < |entries| && entries[k].0 == key
    decreases |entries|
  {
    if |entries| == 0 then map[]
    else
      var init := entries[..|entries| - 1];
      var last := entries[|entries| - 1];
      var t := Table(init);
      assert forall k :: 0 <= k < |entries| - 1 ==> entries[k] == init[k];
      t[last.0 := last.1]
  }

  /** The value of a key is that of its last row. */
  lemma {:induction false} TableLastWins(entries: seq<(Key, Option<string>)>, k: nat)
    requires k < |entries|
    requires forall q :: k < q < |entries| ==> entries[q].0 != entries[k].0
    ensures entries[k].0 in Table(entries) && Table(entries)[entries[k].0] == entries[k].1
    decreases |entries|
  {
    var init := entries[..|entries| - 1];
    if k < |entries| - 1 {
      assert init[k] == entries[k];
      forall q | k < q < |init|
        ensures init[q].0 != init[k].0
      {
        assert init[q] == entries[q];
      }
      TableLastWins(init, k);
    }
  }

  /** Whether this step may (re)link the entity. */
  predicate Relinkable(e: Entity) {
    e.linking.resource.None? || e.linking.matcher == Some(CommonKnowledgeMethod)
  }

  /** The lookup key of mention `q`: its simplified text and the entity's
      type. */
  function MentionKey(nz: Normalize.Normalizer, kind: string, mentions: seq<string>, q: nat): Key
    requires q < |mentions|
  {
    Key(Normalize.PreprocessEntity(nz, mentions[q]), kind)
  }

  predicate Known(nz: Normalize.Normalizer, kind: string, mentions: seq<string>, table: map<Key, Option<string>>, q: nat)
    requires q < |mentions|
  {
    MentionKey(nz, kind, mentions, q) in table
  }

  /** The first mention, from `k` on, whose key is in the table. */
  function FirstKnown(nz: Normalize.Normalizer, kind: string, mentions: seq<string>, table: map<Key, Option<string>>, k: nat): (r: Option<nat>)
    requires k <= |mentions|
    ensures r.Some? ==> k <= r.value < |mentions| && Known(nz, kind, mentions, table, r.value)
    ensures r.Some? ==> forall q :: k <= q < r.value ==> !Known(nz, kind, mentions, table, q)
    ensures r.None? ==> forall q :: k <= q < |mentions| ==> !Known(nz, kind, mentions, table, q)
    decreases |mentions| - k
  {
    if k == |mentions| then None
    else if Known(nz, kind, mentions, table, k) then Some(k)
    else FirstKnown(nz, kind, mentions, table, k + 1)
  }

  /** One entity: unlinked or common-knowledge entities take the resource of
      their first mention with a known key; the search stops there. */
  function LinkEntity(nz: Normalize.Normalizer, e: Entity, table: map<Key, Option<string>>): (r: Entity)
    ensures !Relinkable(e) ==> r == e
    ensures r.kind == e.kind && r.mentions == e.mentions
    ensures (forall q :: 0 <= q < |e.mentions| ==> !Known(nz, e.kind, e.mentions, table, q)) ==> r == e
    ensures r != e ==>
      exists k :: 0 <= k < |e.mentions|
        && (forall q :: 0 <= q < k ==> !Known(nz, e.kind, e.mentions, table, q))
        && Known(nz, e.kind, e.mentions, table, k)
        && r.linking == Link(table[MentionKey(nz, e.kind, e.mentions, k)], Some(CommonKnowledgeMethod))
  {
    if !Relinkable(e) then e
    else match FirstKnown(nz, e.kind, e.mentions, table, 0)
      case None => e
      case Some(k) => e.(linking := Link(table[MentionKey(nz, e.kind, e.mentions, k)], Some(CommonKnowledgeMethod)))
  }

  /** Running the step again changes nothing: a relinked entity keeps the
      method `common-knowledge`, so it is relinked from the same first known
      mention. */
  lemma LinkEntityIdempotent(nz: Normalize.Normalizer, e: Entity, table: map<Key, Option<string>>)
    ensures LinkEntity(nz, LinkEntity(nz, e, table), table) == LinkEntity(nz, e, table)
  {
  }

  /** The whole step over every entity of every document. */
  function LinkDocuments(nz: Normalize.Normalizer, docs: seq<seq<Entity>>, table: map<Key, Option<string>>): (r: seq<seq<Entity>>)
    ensures |r| == |docs|
    ensures forall d :: 0 <= d < |docs| ==> |r[d]| == |docs[d]| && forall i :: 0 <= i < |docs[d]| ==> r[d][i] == LinkEntity(nz, docs[d][i], table)
  {
    seq(|docs|, d requires 0 <= d < |docs| => seq(|docs[d]|, i requires 0 <= i < |docs[d]| => LinkEntity(nz, docs[d][i], table)))
  }

  /** The step as written. The linking record the aligned documents carry
      has the keys `wikipedia_resource` and `method`, so reading its
      `resource` key raises at the first entity; past that, the key test
      against the DataFrame's column labels would never match either. Only
      documents without entities go through, unchanged. */
  function AsWrittenLinkDocuments(docs: seq<seq<Entity>>): (r: Result<seq<seq<Entity>>>)
    ensures r.Err? <==> exists d :: 0 <= d < |docs| && |docs[d]| > 0
    ensures r.Ok? ==> r.value == docs
  {
    if |docs| == 0 then Ok([])
    else if |docs[0]| > 0 then Err("KeyError: 'resource'")
    else
      var rest :- AsWrittenLinkDocuments(docs[1..]);
      assert forall d :: 1 <= d < |docs| ==> docs[1..][d - 1] == docs[d];
      assert docs == [docs[0]] + docs[1..];
      Ok([docs[0]] + rest)
  }

  /** An unlinked entity whose first mention names a row: as written the
      step raises, while the intended step links the entity to that row's
      resource. */
  lemma AsWrittenNeverRelinks(nz: Normalize.Normalizer, e: Entity, table: map<Key, Option<string>>)
    requires e.linking.resource.None? && |e.mentions| > 0 && Known(nz, e.kind, e.mentions, table, 0)
    ensures AsWrittenLinkDocuments([[e]]).Err?
    ensures LinkDocuments(nz, [[e]], table)[0][0].linking == Link(table[MentionKey(nz, e.kind, e.mentions, 0)], Some(CommonKnowledgeMethod))
  {
    assert FirstKnown(nz, e.kind, e.mentions, table, 0) == Some(0);
  }
}
