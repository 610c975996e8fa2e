/** Label tables of the PURE baseline (`baseline/pure/shared/const.py`).

    `get_labelmap` numbers the labels of a list from 1 in list order: one
    map sends each number to its label, the other each label to its number,
    a repeated label keeping the number of its last occurrence. Number 0 is
    left free. The DocRED relation list is `COREF` followed by the Wikidata
    properties the dataset uses. */
module LabelMap {
  import opened Strings

  const TaskNerLabels: map<string, seq<string>> := map[
    "ace04" := ["FAC", "WEA", "LOC", "VEH", "GPE", "ORG", "PER"],
    "ace05" := ["FAC", "WEA", "LOC", "VEH", "GPE", "ORG", "PER"],
    "scierc" := ["Method", "OtherScientificTerm", "Task", "Generic", "Material", "Metric"],
    "docred" := ["LOC", "NUM", "ORG", "PER", "MISC", "TIME"]
  ]

  /** The Wikidata property numbers of the DocRED relations, in list order. */
  const DocredPropertyNumbers: seq<nat> := [
    6, 17, 19, 20, 22, 25, 26, 27, 30, 31, 35, 36, 37, 39, 40, 50, 54, 57, 58, 69, 86, 102, 108, 112, 118,
    123, 127, 131, 136, 137, 140, 150, 155, 156, 159, 161, 162, 166, 170, 171, 172, 175, 176, 178, 179,
    190, 194, 205, 206, 241, 264, 272, 276, 279, 355, 361, 364, 400, 403, 449, 463, 488, 495, 527, 551,
    569, 570, 571, 576, 577, 580, 582, 585, 607, 674, 676, 706, 710, 737, 740, 749, 800, 807, 840, 937,
    1001, 1056, 1198, 1336, 1344, 1365, 1366, 1376, 1412, 1441, 3373
  ]

  /** `P<n>` for each property number. */
  function PropertyLabels(numbers: seq<nat>): (r: seq<string>)
    ensures |r| == |numbers|
    ensures forall k :: 0 <= k < |numbers| ==> r[k] == "P" + NatToString(numbers[k])
  {
    seq(|numbers|, k requires 0 <= k < |numbers| => "P" + NatToString(numbers[k]))
  }

  function TaskRelLabels(): map<string, seq<string>> {
    map[
      "ace04" := ["PER-SOC", "OTHER-AFF", "ART", "GPE-AFF", "EMP-ORG", "PHYS"],
      "ace05" := ["ART", "ORG-AFF", "GEN-AFF", "PHYS", "PER-SOC", "PART-WHOLE"],
      "scierc" := ["PART-OF", "USED-FOR", "FEATURE-OF", "CONJUNCTION", "EVALUATE-FOR", "HYPONYM-OF", "COMPARE"],
      "docred" := ["COREF"] + PropertyLabels(DocredPropertyNumbers)
    ]
  }

  /** `get_labelmap(label_list)`: (label2id, id2label). */
  function GetLabelMap(labels: seq<string>): (r: (map<string, nat>, map<nat, string>))
    ensures forall n :: n in r.1 <==> 1 <= n <= |labels|
    ensures forall k :: 0 <= k < |labels| ==> r.1[k + 1] == labels[k]
    ensures r.0.Keys == set k | 0 <= k < |labels| :: labels[k]
    ensures forall l :: l in r.0 ==>
      && 1 <= r.0[l] <= |labels|
      && labels[r.0[l] - 1] == l
      && (forall q :: r.0[l] <= q < |labels| ==> labels[q] != l)
    decreases |labels|
  {
    if |labels| == 0 then (map[], map[])
    else
      var init := labels[..|labels| - 1];
      var last := labels[|labels| - 1];
      var m := GetLabelMap(init);
      assert forall k :: 0 <= k < |init| ==> init[k] == labels[k];
      (m.0[last := |labels|], m.1[|labels| := last])
  }

  /** Every label's number leads back to the label, even when the list
      repeats it, and no label has number 0. */
  lemma LabelRoundTrip(labels: seq<string>, l: string)
    requires l in labels
    ensures l in GetLabelMap(labels).0
    ensures GetLabelMap(labels).0[l] in GetLabelMap(labels).1
    ensures GetLabelMap(labels).1[GetLabelMap(labels).0[l]] == l
    ensures 0 !in GetLabelMap(labels).1
  {
    var m := GetLabelMap(labels);
    var k :| 0 <= k < |labels| && labels[k] == l;
    assert l in m.0.Keys;
    assert m.0[l] in m.1.Keys;
  }

  predicate Distinct(labels: seq<string>) {
    forall a, b :: 0 <= a < b < |labels| ==> labels[a] != labels[b]
  }

  /** With distinct labels the two maps are inverse bijections between the
      labels and 1..n. */
  lemma DistinctLabelsInverse(labels: seq<string>)
    requires Distinct(labels)
    ensures forall k :: 0 <= k < |labels| ==> GetLabelMap(labels).0[labels[k]] == k + 1
    ensures forall n :: n in GetLabelMap(labels).1 ==>
      GetLabelMap(labels).1[n] in GetLabelMap(labels).0 && GetLabelMap(labels).0[GetLabelMap(labels).1[n]] == n
  {
    var m := GetLabelMap(labels);
    forall k | 0 <= k < |labels|
      ensures m.0[labels[k]] == k + 1
    {
      assert labels[k] in m.0.Keys;
    }
    forall n | n in m.1
      ensures m.1[n] in m.0 && m.0[m.1[n]] == n
    {
      assert 1 <= n <= |labels|;
      assert m.1[n] == labels[n - 1];
    }
  }

  /** The DocRED relation labels give `COREF` number 1. */
  lemma CorefIsOne()
    ensures "COREF" in GetLabelMap(TaskRelLabels()["docred"]).0
    ensures GetLabelMap(TaskRelLabels()["docred"]).0["COREF"] == 1
  {
    var labels := TaskRelLabels()["docred"];
    var m := GetLabelMap(labels);
    assert labels[0] == "COREF";
    assert "COREF" in m.0.Keys;
    forall q | 1 <= q < |labels|
      ensures labels[q] != "COREF"
    {
      assert labels[q][0] == 'P';
    }
  }
}
