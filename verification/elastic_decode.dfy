/** Decoding the annotations of the documents the full-text search did not
    match (`1_3_c__decode_annotations.py`).

    Every exported row yields one record. The first result of its first
    annotation set decides the resource: the choice `True` confirms the
    search hit, any other choice `cX` picks the alternative stored in the
    row's data under `X`, and a free text is a resource written out, or,
    when it starts with `-`, no resource at all. A result of any other type
    keeps the resource and method of the previous row, as the loop variables
    do in the source. Finally every resource holding `wiki/` is cut down to
    the piece after it. */
module ElasticDecode {
  import opened Wrappers
  import opened Strings
  import Finalize

  const ElasticVerified := "elastic-verified"
  const GoogleVerified := "google-verified"
  const Manual := "manual"
  const WikiSeparator := "wiki/"

  /** One Label Studio result: its type and its `choices` or `text` list. */
  datatype Annotation = Annotation(kind: string, values: seq<string>)

  /** An exported row: its annotation sets (each a list of results), the
      resources stored in its data, and the document it stands for. */
  datatype Row = Row(annotationSets: seq<seq<Annotation>>, data: map<string, Option<string>>, dataset: string, id: nat)

  /** A decoded resource with its linking method. */
  datatype Decision = Decision(resource: Option<string>, linkMethod: Option<string>)

  datatype Record = Record(dataset: string, id: nat, resource: Option<string>, linkMethod: Option<string>)

  /** `choice[1:]`. */
  function DropFirst(s: string): string {
    if |s| == 0 then "" else s[1..]
  }

  /** A choice: `True` keeps the row's own resource, any other choice names
      an alternative; a missing key raises. */
  function DecodeChoice(choice: string, data: map<string, Option<string>>): (r: Result<Decision>)
    ensures choice == "True" ==>
      (r.Ok? <==> "resource" in data) && (r.Ok? ==> r.value == Decision(data["resource"], Some(ElasticVerified)))
    ensures choice != "True" ==>
      (r.Ok? <==> DropFirst(choice) in data) && (r.Ok? ==> r.value == Decision(data[DropFirst(choice)], Some(GoogleVerified)))
  {
    if choice == "True" then
      if "resource" in data then Ok(Decision(data["resource"], Some(ElasticVerified)))
      else Err("KeyError: 'resource'")
    else
      var key := DropFirst(choice);
      if key in data then Ok(Decision(data[key], Some(GoogleVerified)))
      else Err("KeyError")
  }

  /** A free text: a resource with method `manual`, or nothing at all when
      it starts with `-`. */
  function DecodeText(text: string): (r: Decision)
    ensures StartsWith(text, "-") <==> r.resource.None?
    ensures r.resource.None? <==> r.linkMethod.None?
    ensures r.resource.Some? ==> r == Decision(Some(text), Some(Manual))
  {
    if StartsWith(text, "-") then Decision(None, None) else Decision(Some(text), Some(Manual))
  }

  /** The first result of the first annotation set of one row; `previous` is
      what the previous row decided, if there was one. */
  function DecodeRow(row: Row, previous: Option<Decision>): (r: Result<Decision>)
    ensures |row.annotationSets| == 0 || |row.annotationSets[0]| == 0 ==> r.Err?
    ensures |row.annotationSets| > 0 && |row.annotationSets[0]| > 0 ==>
      var a := row.annotationSets[0][0];
      && (a.kind == "choices" ==> (|a.values| == 0 ==> r.Err?) && (|a.values| > 0 ==> r == DecodeChoice(a.values[0], row.data)))
      && (a.kind == "textarea" ==> (|a.values| == 0 ==> r.Err?) && (|a.values| > 0 ==> r == Ok(DecodeText(a.values[0]))))
      && (a.kind != "choices" && a.kind != "textarea" ==> (r.Ok? <==> previous.Some?) && (r.Ok? ==> r.value == previous.value))
  {
    if |row.annotationSets| == 0 || |row.annotationSets[0]| == 0 then Err("IndexError: list index out of range")
    else
      var a := row.annotationSets[0][0];
      if a.kind == "choices" then
        if |a.values| == 0 then Err("IndexError: list index out of range")
        else DecodeChoice(a.values[0], row.data)
      else if a.kind == "textarea" then
        if |a.values| == 0 then Err("IndexError: list index out of range")
        else Ok(DecodeText(a.values[0]))
      else if previous.Some? then Ok(previous.value)
      else Err("UnboundLocalError: resource")
  }

  /** Whether the row's first result is a choice or a free text, so that its
      decision does not depend on the row before it. */
  predicate SelfContained(row: Row) {
    |row.annotationSets| > 0 && |row.annotationSets[0]| > 0
    && (row.annotationSets[0][0].kind == "choices" || row.annotationSets[0][0].kind == "textarea")
  }

  /** One record per row, in order, with the row's dataset and id. */
  function DecodeRows(rows: seq<Row>, previous: Option<Decision>): (r: Result<seq<Record>>)
    ensures r.Ok? ==> |r.value| == |rows|
    ensures r.Ok? ==> forall k :: 0 <= k < |rows| ==> r.value[k].dataset == rows[k].dataset && r.value[k].id == rows[k].id
    ensures r.Ok? ==> forall k :: 0 <= k < |rows| && SelfContained(rows[k]) ==>
      DecodeRow(rows[k], None) == Ok(Decision(r.value[k].resource, r.value[k].linkMethod))
    ensures r.Ok? ==> forall k :: 0 < k < |rows| && !SelfContained(rows[k]) ==>
      r.value[k].resource == r.value[k - 1].resource && r.value[k].linkMethod == r.value[k - 1].linkMethod
    ensures r.Ok? && |rows| > 0 && !SelfContained(rows[0]) ==>
      previous.Some? && r.value[0].resource == previous.value.resource && r.value[0].linkMethod == previous.value.linkMethod
    decreases |rows|
  {
    if |rows| == 0 then Ok([])
    else
      var d :- DecodeRow(rows[0], previous);
      var rest :- DecodeRows(rows[1..], Some(d));
      assert forall k :: 1 <= k < |rows| ==> rows[k] == rows[1..][k - 1];
      Ok([Record(rows[0].dataset, rows[0].id, d.resource, d.linkMethod)] + rest)
  }

  /** `r.split("wiki/")[1]` for a resource holding `wiki/`; nothing else
      changes. The piece kept holds no `wiki/` itself, so cutting twice is
      cutting once. */
  function WikiSuffix(r: Option<string>): (s: Option<string>)
    ensures r.None? ==> s.None?
    ensures r.Some? && !Contains(r.value, WikiSeparator) ==> s == r
    ensures r.Some? ==> s.Some? && !Contains(s.value, WikiSeparator)
    ensures r.Some? && Contains(r.value, WikiSeparator) ==>
      Find(r.value, WikiSeparator).Some? &&
      Find(r.value, WikiSeparator).value + |WikiSeparator| <= |r.value| &&
      PieceAt(r.value, Find(r.value, WikiSeparator).value + |WikiSeparator|, s.value, WikiSeparator)
  {
    if r.Some? && Contains(r.value, WikiSeparator) then
      var parts := Split(r.value, WikiSeparator);
      var i := Find(r.value, WikiSeparator).value;
      assert parts == [r.value[..i]] + Split(r.value[i + |WikiSeparator|..], WikiSeparator);
      SplitHeadAvoidsSeparator(r.value[i + |WikiSeparator|..], WikiSeparator);
      SplitSecondIsPiece(r.value, WikiSeparator);
      Some(parts[1])
    else r
  }

  /** Every `wiki/` of the English Wikipedia prefix is the one before the
      title. */
  lemma NoEarlierSeparator()
    ensures forall k :: 0 <= k < 25 ==> !StartsWith(Finalize.EnWikiPrefix[k..], WikiSeparator)
  {
    var p := "https://en.wikipedia.org/wiki/";
    assert p == Finalize.EnWikiPrefix;
    forall k | 0 <= k < 25
      ensures !StartsWith(p[k..], WikiSeparator)
    {
      if k == 11 {
        assert p[k..][..5][4] == p[15] == 'p';
      } else {
        assert p[k..][..5][0] == p[k] != 'w';
      }
    }
  }

  /** An English Wikipedia URL is cut back to its title. */
  lemma WikiSuffixOfUrl(t: string)
    requires !Contains(t, WikiSeparator)
    ensures WikiSuffix(Some(Finalize.EnWikiPrefix + t)) == Some(t)
  {
    var s := Finalize.EnWikiPrefix + t;
    assert s[25..30] == WikiSeparator;
    ContainsAt(s, WikiSeparator, 25);
    var i := Find(s, WikiSeparator).value;
    assert StartsWith(s[25..], WikiSeparator);
    NoEarlierSeparator();
    forall k | 0 <= k < 25
      ensures !StartsWith(s[k..], WikiSeparator)
    {
      assert s[k..][..5] == Finalize.EnWikiPrefix[k..][..5];
    }
    assert StartsWith(s[i..], WikiSeparator);
    assert s[30..] == t;
  }

  /** The whole file: one record per row, resources cut at `wiki/`. */
  function DecodeFile(rows: seq<Row>): (r: Result<seq<Record>>)
    ensures r.Ok? <==> DecodeRows(rows, None).Ok?
    ensures r.Ok? ==> |r.value| == |rows|
    ensures r.Ok? ==> forall k :: 0 <= k < |rows| ==>
      var raw := DecodeRows(rows, None).value[k];
      r.value[k] == raw.(resource := WikiSuffix(raw.resource))
  {
    var raw :- DecodeRows(rows, None);
    Ok(seq(|raw|, k requires 0 <= k < |raw| => raw[k].(resource := WikiSuffix(raw[k].resource))))
  }
}
