/** Decoding the manual disambiguation annotations
    (`5_3__decode_anotations.py`).

    Each annotation result either disambiguates one entity, named by the
    slot number in its `to_name`, or is an `error` flag, which is ignored.
    A choice picks a search candidate, asks for a new entity or for the
    article's own resource; a free text is either the number of a
    coreferent entity or a resource written out. The annotated entity text
    must match one of the entity's mention names in DocRED. Every decoded
    record has method `manual`. */
module ManualDecode {
  import opened Wrappers
  import opened Strings
  import Placeholders

  const SlotPrefix := "to_disambiguate_"
  const Manual := "manual"

  /** One Label Studio result: `to_name`, `from_name`, `type`, and the
      `choices` or `text` list of its value. */
  datatype Annotation = Annotation(toName: string, fromName: string, kind: string, values: seq<string>)

  /** An entity offered for disambiguation: its index among the document's
      entities, its text and the resources of its search candidates. */
  datatype Pending = Pending(entityId: nat, text: string, candidates: seq<string>)

  /** `entity_linking` of entity `entityId` is overwritten with `link`. */
  datatype Assignment = Assignment(entityId: nat, link: Placeholders.Link)

  /** `s.split(c)[-1]`: what follows the last `c`, or `s` without one. */
  function AfterLast(s: string, c: char): (r: string)
    ensures c !in r
    ensures |r| <= |s| && r == s[|s| - |r|..]
    ensures c in s ==> s[|s| - |r| - 1] == c
    ensures c !in s ==> r == s
  {
    if |s| == 0 then ""
    else if s[|s| - 1] == c then ""
    else
      var init := s[..|s| - 1];
      var r := AfterLast(init, c) + [s[|s| - 1]];
      assert s == init + [s[|s| - 1]];
      assert c in s ==> c in init;
      r
  }

  /** The piece after a separator that ends the prefix. */
  lemma {:induction false} AfterLastOfSuffix(p: string, d: string, c: char)
    requires |p| > 0 && p[|p| - 1] == c && c !in d
    ensures AfterLast(p + d, c) == d
    decreases |d|
  {
    if |d| == 0 {
      assert p + d == p;
    } else {
      var init := d[..|d| - 1];
      AfterLastOfSuffix(p, init, c);
      assert (p + d)[..|p + d| - 1] == p + init;
    }
  }

  /** A choice: candidate `k` for `to_disambiguate_..._k`, a new entity for
      `Does not exist` (no candidate is the resource), the article's own
      resource for `Title`; anything else raises. */
  function DecodeChoice(value: string, candidates: seq<string>): (r: Result<(string, seq<string>)>)
    ensures StartsWith(value, SlotPrefix) ==>
      (r.Ok? <==> IsDigits(AfterLast(value, '_')) && DigitsValue(AfterLast(value, '_')) < |candidates|)
    ensures StartsWith(value, SlotPrefix) && r.Ok? ==> r.value == (candidates[DigitsValue(AfterLast(value, '_'))], [])
    ensures !StartsWith(value, SlotPrefix) ==>
      && (value == "Does not exist" ==> r == Ok(("---new", candidates)))
      && (value == "Title" ==> r == Ok(("---title", [])))
      && (value != "Does not exist" && value != "Title" ==> r.Err?)
  {
    if StartsWith(value, SlotPrefix) then
      var k :- ParseNat(AfterLast(value, '_'));
      if k < |candidates| then Ok((candidates[k], [])) else Err("IndexError: list index out of range")
    else if value == "Does not exist" then Ok(("---new", candidates))
    else if value == "Title" then Ok(("---title", []))
    else Err("Exception: unknown choice")
  }

  /** Choosing the slot of candidate `k` selects candidate `k`. */
  lemma CandidateChoiceRoundTrip(slot: string, k: nat, candidates: seq<string>)
    requires '_' !in slot && k < |candidates|
    ensures DecodeChoice(SlotPrefix + slot + "_" + NatToString(k), candidates) == Ok((candidates[k], []))
  {
    var value := SlotPrefix + slot + "_" + NatToString(k);
    var digits := NatToString(k);
    assert '_' !in digits by {
      assert forall i :: 0 <= i < |digits| ==> IsDigitChar(digits[i]);
    }
    AfterLastOfSuffix(SlotPrefix + slot + "_", digits, '_');
    assert value[..|SlotPrefix|] == SlotPrefix;
  }

  /** A free text: a number names a coreferent entity, anything else is the
      resource itself. */
  function DecodeText(value: string): (r: string)
    ensures IsDigits(value) ==> StartsWith(r, "---coref") && r[8..] == value
    ensures !IsDigits(value) ==> r == value
  {
    if IsDigits(value) then
      assert ("---coref" + value)[..8] == "---coref";
      "---coref" + value
    else value
  }

  /** The `---coref` placeholder written for a number leads placeholder
      resolution back to the entity with that number. */
  lemma CorefTextRoundTrip(digits: string, links: seq<Placeholders.Link>)
    requires IsDigits(digits) && DigitsValue(digits) < |links|
    ensures |DecodeText(digits)| >= 8
    ensures Placeholders.CorefTarget(links, DecodeText(digits)) == Ok(DigitsValue(digits))
  {
  }

  /** `entity['text'].lower()` is among the stripped, lower-cased DocRED
      mention names. */
  predicate NameMatches(text: string, names: seq<string>) {
    Lower(text) in seq(|names|, k requires 0 <= k < |names| => Lower(Strip(names[k])))
  }

  lemma NameMatchesWitness(text: string, names: seq<string>)
    ensures NameMatches(text, names) <==> exists k :: 0 <= k < |names| && Lower(Strip(names[k])) == Lower(text)
  {
    var all := seq(|names|, k requires 0 <= k < |names| => Lower(Strip(names[k])));
    if NameMatches(text, names) {
      var k :| 0 <= k < |all| && all[k] == Lower(text);
      assert Lower(Strip(names[k])) == Lower(text);
    }
    if exists k :: 0 <= k < |names| && Lower(Strip(names[k])) == Lower(text) {
      var k :| 0 <= k < |names| && Lower(Strip(names[k])) == Lower(text);
      assert all[k] == Lower(text);
    }
  }

  /** The resource and not-resource list an annotation asks for. */
  function DecodeValue(a: Annotation, entity: Pending): (r: Result<(string, seq<string>)>)
    ensures |a.values| != 1 ==> r.Err?
    ensures a.kind != "choices" && a.kind != "textarea" ==> r.Err?
    ensures a.kind == "choices" && |a.values| == 1 ==> r == DecodeChoice(a.values[0], entity.candidates)
    ensures a.kind == "textarea" && |a.values| == 1 ==> r == Ok((DecodeText(a.values[0]), []))
  {
    if a.kind == "choices" then
      if |a.values| > 1 then Err("Exception: more than one choice")
      else if |a.values| == 0 then Err("IndexError: list index out of range")
      else DecodeChoice(a.values[0], entity.candidates)
    else if a.kind == "textarea" then
      if |a.values| > 1 then Err("Exception: more than one text")
      else if |a.values| == 0 then Err("IndexError: list index out of range")
      else Ok((DecodeText(a.values[0]), []))
    else Err("Exception: unknown annotation type")
  }

  /** One annotation result against the document's pending entities and the
      mention names of its DocRED entities. */
  function DecodeAnnotation(a: Annotation, pending: seq<Pending>, vertexNames: seq<seq<string>>): (r: Result<Option<Assignment>>)
    ensures !StartsWith(a.toName, SlotPrefix) ==> (r == Ok(None) <==> a.fromName == "error") && (r.Err? <==> a.fromName != "error")
    ensures StartsWith(a.toName, SlotPrefix) ==>
      (r.Ok? <==>
        && IsDigits(a.toName[16..]) && DigitsValue(a.toName[16..]) < |pending|
        && DecodeValue(a, pending[DigitsValue(a.toName[16..])]).Ok?
        && pending[DigitsValue(a.toName[16..])].entityId < |vertexNames|
        && NameMatches(pending[DigitsValue(a.toName[16..])].text, vertexNames[pending[DigitsValue(a.toName[16..])].entityId]))
    ensures StartsWith(a.toName, SlotPrefix) && r.Ok? ==>
      var entity := pending[DigitsValue(a.toName[16..])];
      var decoded := DecodeValue(a, entity).value;
      r.value == Some(Assignment(entity.entityId, Placeholders.Link(Some(decoded.0), Some(Manual), decoded.1)))
  {
    if StartsWith(a.toName, SlotPrefix) then
      var slot :- ParseNat(a.toName[16..]);
      if slot >= |pending| then Err("IndexError: list index out of range")
      else
        var entity := pending[slot];
        var decoded :- DecodeValue(a, entity);
        if entity.entityId >= |vertexNames| then Err("IndexError: list index out of range")
        else if !NameMatches(entity.text, vertexNames[entity.entityId]) then Err("Exception: entity text differs from DocRED")
        else Ok(Some(Assignment(entity.entityId, Placeholders.Link(Some(decoded.0), Some(Manual), decoded.1))))
    else if a.fromName == "error" then Ok(None)
    else Err("Exception: unknown annotation")
  }

  /** The results of the first annotation set, in order; the first failing
      result raises. */
  function DecodeResults(results: seq<Annotation>, pending: seq<Pending>, vertexNames: seq<seq<string>>): (r: Result<seq<Assignment>>)
    ensures r.Ok? <==> forall k :: 0 <= k < |results| ==> DecodeAnnotation(results[k], pending, vertexNames).Ok?
    ensures r.Ok? ==> |r.value| <= |results|
  {
    if |results| == 0 then Ok([])
    else
      var first :- DecodeAnnotation(results[0], pending, vertexNames);
      var rest :- DecodeResults(results[1..], pending, vertexNames);
      assert forall k :: 1 <= k < |results| ==> results[k] == results[1..][k - 1];
      Ok((if first.Some? then [first.value] else []) + rest)
  }

  /** The decoded assignments are exactly those the annotation results
      yield, and each is a manual link to a resource. */
  lemma {:induction false} DecodeResultsContents(results: seq<Annotation>, pending: seq<Pending>, vertexNames: seq<seq<string>>)
    requires DecodeResults(results, pending, vertexNames).Ok?
    ensures forall x :: x in DecodeResults(results, pending, vertexNames).value <==>
      exists k :: 0 <= k < |results| && DecodeAnnotation(results[k], pending, vertexNames) == Ok(Some(x))
    decreases |results|
  {
    if |results| > 0 {
      var tail := results[1..];
      DecodeResultsContents(tail, pending, vertexNames);
      var first := DecodeAnnotation(results[0], pending, vertexNames).value;
      var rest := DecodeResults(tail, pending, vertexNames).value;
      var all := DecodeResults(results, pending, vertexNames).value;
      assert all == (if first.Some? then [first.value] else []) + rest;
      forall x
        ensures x in all <==> exists k :: 0 <= k < |results| && DecodeAnnotation(results[k], pending, vertexNames) == Ok(Some(x))
      {
        if exists k :: 0 <= k < |results| && DecodeAnnotation(results[k], pending, vertexNames) == Ok(Some(x)) {
          var k :| 0 <= k < |results| && DecodeAnnotation(results[k], pending, vertexNames) == Ok(Some(x));
          if k > 0 {
            assert tail[k - 1] == results[k];
          }
        }
        if x in rest {
          var k :| 0 <= k < |tail| && DecodeAnnotation(tail[k], pending, vertexNames) == Ok(Some(x));
          assert tail[k] == results[k + 1];
        }
      }
    }
  }

  /** Every decoded assignment is a manual link to a resource. */
  lemma DecodedAreManual(results: seq<Annotation>, pending: seq<Pending>, vertexNames: seq<seq<string>>)
    requires DecodeResults(results, pending, vertexNames).Ok?
    ensures forall x :: x in DecodeResults(results, pending, vertexNames).value ==> x.link.matcher == Some(Manual) && x.link.resource.Some?
  {
    DecodeResultsContents(results, pending, vertexNames);
    forall x | x in DecodeResults(results, pending, vertexNames).value
      ensures x.link.matcher == Some(Manual) && x.link.resource.Some?
    {
      var k :| 0 <= k < |results| && DecodeAnnotation(results[k], pending, vertexNames) == Ok(Some(x));
      SomeIsSlot(results[k], pending, vertexNames);
    }
  }

  /** Only a slot annotation yields an assignment. */
  lemma SomeIsSlot(a: Annotation, pending: seq<Pending>, vertexNames: seq<seq<string>>)
    requires DecodeAnnotation(a, pending, vertexNames).Ok? && DecodeAnnotation(a, pending, vertexNames).value.Some?
    ensures DecodeAnnotation(a, pending, vertexNames).value.value.link.matcher == Some(Manual)
    ensures DecodeAnnotation(a, pending, vertexNames).value.value.link.resource.Some?
  {
  }

  /** A document's annotations: only the first annotation set is read, and a
      document without one raises. */
  function DecodeDocument(annotationSets: seq<seq<Annotation>>, pending: seq<Pending>, vertexNames: seq<seq<string>>): (r: Result<seq<Assignment>>)
    ensures |annotationSets| == 0 ==> r.Err?
    ensures |annotationSets| > 0 ==> r == DecodeResults(annotationSets[0], pending, vertexNames)
  {
    if |annotationSets| == 0 then Err("IndexError: list index out of range")
    else DecodeResults(annotationSets[0], pending, vertexNames)
  }

  /** The assignments written into the document's entities, in order, so a
      later assignment to the same entity wins. */
  function Apply(links: seq<Placeholders.Link>, assignments: seq<Assignment>): (r: Result<seq<Placeholders.Link>>)
    ensures r.Ok? <==> forall k :: 0 <= k < |assignments| ==> assignments[k].entityId < |links|
    ensures r.Ok? ==> |r.value| == |links|
    decreases |assignments|
  {
    if |assignments| == 0 then Ok(links)
    else
      var last := assignments[|assignments| - 1];
      var init := assignments[..|assignments| - 1];
      var written :- Apply(links, init);
      assert forall k :: 0 <= k < |init| ==> init[k] == assignments[k];
      if last.entityId < |written| then Ok(written[last.entityId := last.link])
      else Err("IndexError: list index out of range")
  }

  /** What `Apply` leaves in entity `e`: its old link when no assignment
      names it, otherwise the link of the last assignment that does. */
  lemma {:induction false} ApplyAt(links: seq<Placeholders.Link>, assignments: seq<Assignment>, e: nat)
    requires Apply(links, assignments).Ok? && e < |links|
    ensures (forall k :: 0 <= k < |assignments| ==> assignments[k].entityId != e) ==>
      Apply(links, assignments).value[e] == links[e]
    ensures forall k :: 0 <= k < |assignments| && assignments[k].entityId == e && (forall q :: k < q < |assignments| ==> assignments[q].entityId != e) ==>
      Apply(links, assignments).value[e] == assignments[k].link
    decreases |assignments|
  {
    if |assignments| > 0 {
      var last := assignments[|assignments| - 1];
      var init := assignments[..|assignments| - 1];
      var written := Apply(links, init).value;
      assert forall k :: 0 <= k < |init| ==> init[k] == assignments[k];
      assert Apply(links, assignments).value == written[last.entityId := last.link];
      ApplyAt(links, init, e);
    }
  }
}
