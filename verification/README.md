# Linked-DocRED in Dafny

This project models the pure logic of Linked-DocRED, a dataset that links the
entities of the DocRED relation-extraction corpus to Wikipedia articles, and
the pure logic of its baselines and metrics. Everything that talks to the
outside world becomes an input: search hits, HTML links, resolver clusters
and annotation exports. The model keeps the branches, edge cases, error
conditions and constants of the Python code. A Python exception is a
`Result.Err`, and a value that may be `None` is an `Option`.

The dataset pipeline (`entity-linking/src`):

- `FindInstances` (`1_2`): picks the best Wikipedia article for each
  DocRED document among the first five search hits, and routes it to the
  matched or not-matched file at similarity 0.5. `FindInstancesAsWritten`
  keeps the code as written for a document without hits (see Findings).
- `ElasticDecode` (`1_3_c`), `CommonKnowledge` (`4_3`) and `ManualDecode`
  (`5_3`): decode the three annotation rounds. They cover each choice,
  text and error case, and the common-knowledge lookup that links entities
  by simplified name and type.
- `Positions`, `UrlFilter`, `Alignment` and `Linking` (`2+3`):
  - `Positions`: token and mention character positions in the
    space-joined text.
  - `UrlFilter`: which page links are kept.
  - `Alignment`: the character-level Needleman–Wunsch aligner. It is an
    imperative 2-D array DP, proved equal to a recursive specification. Its
    position maps are proved total, mutually inverse and monotone, and its
    distance bounded.
  - `Linking`: the per-mention matching cascade and the per-entity fold.
- `Normalize` and `Similarity` (`utils.py`): text normalisation with the
  stemmer and stop words as parameters, and the Levenshtein similarities in
  exact rational arithmetic.
- `Finalize`, `Placeholders` and `Merge` (`6`):
  - `Finalize`: URL and resource normalisation, following the generic URL
    syntax of section 3 of RFC 3986 as `urllib.parse` splits it (module
    `UrlParse`), and the confidence tiers.
  - `Placeholders`: placeholder resolution, which mints fresh
    `#DocRED-n#` ids.
  - `Merge`: the per-document coreference merge, which absorbs entities
    that share a resource, re-indexes relations and drops self-relations.

The baselines (`baseline`):

- `PrepareDataset`: document offsets and the PURE input.
- `LabelMap`: the label tables.
- `CorefBaseline`: span conversion, cluster numbering and grouping.
- `LinkingBaseline`: surface forms, Wikipedia URL decoding and the
  positional rank fusion of `RankFusion`.

The metrics (`metrics`):

- `MentionPairing`: the greedy mention pairing of `coref_b3` and `ner_f1`.
- `ClusterScore`, `EntityF1` and `RelationF1`: the cluster true-positive
  counts of the F1 metrics.
- `LinkingMetric`: the ranks of the entity-linking metric.

`Wrappers` and `Strings` hold the shared datatypes and the Python string
operations the code relies on.

## Model

| member | source | states |
|---|---|---|
| Alignment.Max3 | entity-linking/src/2+3__automatic_entity_linking.py:255 | the cell score is one of the three candidate scores and at least each of them |
| Alignment.Argmax3 | entity-linking/src/2+3__automatic_entity_linking.py:256-257 | the arrow is the first of source skip, reference skip, match that reaches the maximum: ties go to the earlier move |
| Alignment.Cell | entity-linking/src/2+3__automatic_entity_linking.py:240-257 | from the three neighbouring scores, the cell gets the score and arrow of the recursive definition (source skip -1 only in the last column, else -10; reference skip -10; +1 match, -1 mismatch) |
| Alignment.FillTables | entity-linking/src/2+3__automatic_entity_linking.py:221-257 | every cell of the score table holds the recursive score, with `F[i][0] = -10i` and `F[0][j] = -j`, and every inner arrow the recursive arrow |
| Alignment.WalkBack | entity-linking/src/2+3__automatic_entity_linking.py:264-285 | one step of the main loop moves strictly towards the corner and leaves the walk that remains unchanged |
| Alignment.WalkTables | entity-linking/src/2+3__automatic_entity_linking.py:259-294 | the three backtracking loops over the filled arrows produce exactly the walk of the recursive definition, including the trailing source and reference drains |
| Alignment.BacktrackStep | entity-linking/src/2+3__automatic_entity_linking.py:264-294 | away from the corner, the walk takes exactly one of the three moves, and in row 0 or column 0 the drain move |
| Alignment.SkipSourceStep | entity-linking/src/2+3__automatic_entity_linking.py:267-290 | a source skip maps `i - 1` to None, adds one to the distance, and keeps the walk invariant |
| Alignment.SkipReferenceStep | entity-linking/src/2+3__automatic_entity_linking.py:272-294 | a reference skip maps `j - 1` to None, adds at most the penalty of the column (only for `1 < j < m`) and keeps the walk invariant |
| Alignment.DiagonalStep | entity-linking/src/2+3__automatic_entity_linking.py:278-285 | a diagonal move maps `i - 1` and `j - 1` to each other, adds one only on a mismatch, and keeps the walk invariant |
| Alignment.BacktrackKeepsInvariant | entity-linking/src/2+3__automatic_entity_linking.py:259-294 | from any cell where the invariant holds, the finished walk has both maps total on the prefixes, mutually inverse, increasing, and the distance bounded |
| Alignment.InverseIncreasing | entity-linking/src/2+3__automatic_entity_linking.py:280-281 | when the two maps are mutually inverse and one is strictly increasing, so is the other |
| Alignment.FullWalkProperties | entity-linking/src/2+3__automatic_entity_linking.py:259-294 | every source index `0..n-1` and reference index `0..m-1` has an entry, mapped pairs are mutual inverses and strictly increasing in both coordinates, and the distance is at most the source length plus the penalised reference columns |
| Alignment.NeedlemanWunsch | entity-linking/src/2+3__automatic_entity_linking.py:208-298 | an empty source text is the division-by-zero error; otherwise both maps and the distance are those of the walk, with its totality, inverse and monotonicity properties, and the similarity is `1 - distance / n`, at most 1 |
| Alignment.ScoreAtMostShorter | entity-linking/src/2+3__automatic_entity_linking.py:221-257 | the best score of two prefixes never exceeds the length of the shorter |
| Alignment.SelfScore | entity-linking/src/2+3__automatic_entity_linking.py:221-257 | a text aligned with itself scores its length on the diagonal |
| Alignment.SelfArrow | entity-linking/src/2+3__automatic_entity_linking.py:240-257 | on the diagonal of a text aligned with itself the arrow is always a match |
| Alignment.SelfBacktrack | entity-linking/src/2+3__automatic_entity_linking.py:259-294 | walking back from the diagonal of a text aligned with itself adds the identity maps and no distance |
| Alignment.SelfAlignment | entity-linking/src/2+3__automatic_entity_linking.py:259-294 | the walk of a text aligned with itself is the identity in both directions with distance 0 |
| Alignment.AlignSelf | entity-linking/src/2+3__automatic_entity_linking.py:208-298 | aligning a non-empty text with itself gives the identity maps, distance 0 and similarity 1; an empty one raises |
| LinkingBaseline.KeptEntities | baseline/entity-linking/predict.py:17-22 | the kept entities are the entities of all documents, in document order, filtered to those whose type is neither `NUM` nor `TIME` |
| LinkingBaseline.AllEntitiesCons | baseline/entity-linking/predict.py:19-20 | the entities of all documents are the first document's followed by the rest's |
| LinkingBaseline.Filter | baseline/entity-linking/predict.py:20-22 | keeps exactly the entities of one document that are neither numbers nor dates; all kept when all qualify and none when none does |
| LinkingBaseline.FilterAppend | baseline/entity-linking/predict.py:20-22 | filtering a concatenation filters each part: the kept entities keep their order and multiplicity |
| LinkingBaseline.MentionKeys | baseline/entity-linking/predict.py:25-27 | each mention's key is its lower-cased, stripped name, in mention order |
| LinkingBaseline.AddKeys | baseline/entity-linking/predict.py:89-91 | adding an entity's keys gives exactly the old forms and the new keys, still without repeats |
| LinkingBaseline.SurfaceForms | baseline/entity-linking/predict.py:87-92 | the unique surface forms are exactly the keys of all mentions of the kept entities, each once |
| LinkingBaseline.FormsFrom | baseline/entity-linking/predict.py:88-91 | the loop over entities collects exactly the forms seen so far and all mention keys, without repeats |
| LinkingBaseline.ProcessWikipediaLink | baseline/entity-linking/predict.py:52-57 | a URL holding the English Wikipedia prefix gives the percent-decoded text after its first 30 characters; any other URL raises |
| LinkingBaseline.PrefixLength | baseline/entity-linking/predict.py:53-54 | the cut of 30 characters is exactly the length of the English Wikipedia prefix |
| LinkingBaseline.ProcessArticleUrl | baseline/entity-linking/predict.py:52-55 | the article URL of an ASCII title, percent-encoded after the prefix, gives the title back |
| LinkingBaseline.ProcessLinks | baseline/entity-linking/predict.py:66 | the results of one search fail exactly when some URL lacks the prefix; otherwise each URL is decoded in order |
| LinkingBaseline.Disambiguate | baseline/entity-linking/predict.py:59-74 | fails exactly when some surface form's search returns a URL without the prefix; otherwise the table has exactly the surface forms as keys, each holding its decoded search results |
| LinkingBaseline.MentionLists | baseline/entity-linking/predict.py:108-111 | fails exactly when some mention key was not searched; otherwise each mention contributes its key's results as one list |
| LinkingBaseline.KeyGroups | baseline/entity-linking/predict.py:108-111 | each mention contributes its key's search results as one candidate list |
| LinkingBaseline.ListedByMention | baseline/entity-linking/predict.py:108-123 | a candidate appears in the mentions' lists exactly when some mention key's search found it |
| LinkingBaseline.PredictEntity | baseline/entity-linking/predict.py:105-132 | fails exactly when some mention key was not searched; otherwise the prediction holds each candidate found by some mention's search exactly once, in non-decreasing order of the score the positional fusion of the mentions' search results gives it |
| LinkingBaseline.Predict | baseline/entity-linking/predict.py:84-132 | fails exactly when the search of some surface form fails; otherwise there is one prediction per kept entity, in order, each the entity's ranking over the search table |
| LinkingBaseline.KnownAt | baseline/entity-linking/predict.py:108-111 | when every mention key of the entities has been searched, no entity's prediction raises |
| LinkingBaseline.PredictAll | baseline/entity-linking/predict.py:103-132 | with every key searched, predicting succeeds and gives each entity's ranking, in order |
| CommonKnowledge.ChoiceResource | entity-linking/src/4_3__decode_annotations.py:35-40 | `Other` means no resource; any other choice succeeds exactly when its character at index 12 is a digit numbering a candidate, and then gives that candidate's resource |
| CommonKnowledge.RowResource | entity-linking/src/4_3__decode_annotations.py:31-45 | a choice with no value raises and otherwise decodes the choice; a text starting with `-` becomes the placeholder `---<simplified text>` and any other text is the resource; a result of another type reuses the previous row's resource and raises when there is none |
| CommonKnowledge.Annotated | entity-linking/src/4_3__decode_annotations.py:27-30 | the rows kept are exactly those with a result |
| CommonKnowledge.AnnotatedAppend | entity-linking/src/4_3__decode_annotations.py:27-30 | keeping the rows with a result commutes with concatenation, so their order and multiplicity are kept |
| CommonKnowledge.ChainUnique | entity-linking/src/4_3__decode_annotations.py:31-50 | the resources of the annotated rows, each read with the resource decoded before it, are determined: every partial chain agrees with a complete one |
| CommonKnowledge.CompleteNeverFails | entity-linking/src/4_3__decode_annotations.py:31-50 | when every annotated row decodes, no row raises along the chain |
| CommonKnowledge.DecodeRows | entity-linking/src/4_3__decode_annotations.py:26-50 | one entry per row with a result, in row order, keyed by that row's simplified text and type and holding the row's resource read with the resource of the previous such row (or the given one for the first); decoding raises exactly when one of those rows raises |
| CommonKnowledge.Table | entity-linking/src/4_3__decode_annotations.py:51 | the table has exactly the keys of the decoded rows |
| CommonKnowledge.TableLastWins | entity-linking/src/4_3__decode_annotations.py:51-71 | a key's value is that of its last row |
| CommonKnowledge.FirstKnown | entity-linking/src/4_3__decode_annotations.py:65-74 | the search finds the first mention whose (simplified text, type) key is in the table, or reports that none is |
| CommonKnowledge.LinkEntity | entity-linking/src/4_3__decode_annotations.py:59-74 | an entity linked by another method is left alone, as is one with no known mention; otherwise only its linking changes, to the resource of its first known mention with method `common-knowledge` |
| CommonKnowledge.LinkEntityIdempotent | entity-linking/src/4_3__decode_annotations.py:59-74 | running the step twice gives the same result as running it once |
| CommonKnowledge.LinkDocuments | entity-linking/src/4_3__decode_annotations.py:59-74 | every entity of every document goes through the step, and document and entity counts are kept |
| CommonKnowledge.AsWrittenLinkDocuments | entity-linking/src/4_3__decode_annotations.py:59-74 | as written: raises exactly when some document has an entity, since the linking record has no `resource` key, and otherwise returns the documents unchanged |
| CommonKnowledge.AsWrittenNeverRelinks | entity-linking/src/4_3__decode_annotations.py:59-69 | for an unlinked entity whose first mention names a row, the code as written raises while the intended step links it to that row's resource with method `common-knowledge` |
| CorefBaseline.FirstBeyond | baseline/neuralcoref/predict.py:10-11 | finds the first sentence start past the position, all starts before it lying at or below the position, or reports that there is none |
| CorefBaseline.PosToSent | baseline/neuralcoref/predict.py:9-12 | gives no answer exactly when no sentence start lies beyond the position |
| CorefBaseline.PosToSentOfOffsets | baseline/neuralcoref/predict.py:9-12 | on the cumulative sentence offsets of a document, a position inside the document maps to the one sentence whose range holds it and to its distance from that sentence's start, and a position past the end maps to nothing |
| CorefBaseline.ConvertPredicted | baseline/neuralcoref/predict.py:87-95 | a predicted entity converts exactly when its start lies inside the document; the result is the start's sentence and in-sentence start, an end of start plus the inclusive length clamped to the sentence length, and the entity's type |
| CorefBaseline.InSentenceUnique | baseline/neuralcoref/predict.py:9-12 | a document position lies in one sentence only |
| CorefBaseline.DocPosRoundTrip | baseline/neuralcoref/predict.py:87-95 | a mention turned into the inclusive document range of the PURE input converts back to the mention's own sentence, start and end |
| CorefBaseline.ConvertCoref | baseline/neuralcoref/predict.py:51-57 | a resolver mention converts exactly when its start lies inside the document; its sentence start plus in-sentence start is the document start and its length is kept |
| CorefBaseline.FirstUnclaimed | baseline/neuralcoref/predict.py:110-118 | finds the first entity not yet claimed whose sentence and span equal the mention's, every one before it being claimed or different, or reports that there is none |
| CorefBaseline.Claim | baseline/neuralcoref/predict.py:105-118 | a cluster mention leaves claimed entities alone, claims at most one unclaimed entity and only one with its span, and claims one whenever an unclaimed entity has its span |
| CorefBaseline.ClaimCluster | baseline/neuralcoref/predict.py:104-118 | the mentions of one cluster leave claimed entities alone and give the cluster's number only to entities with the span of one of its mentions |
| CorefBaseline.ClaimClusterComplete | baseline/neuralcoref/predict.py:104-118 | when an unclaimed entity has the span of one of the cluster's mentions, some unclaimed entity with that span ends up with the cluster's number |
| CorefBaseline.ClaimClusters | baseline/neuralcoref/predict.py:104-119 | the clusters of a document leave claimed entities alone, and each newly claimed entity carries the number of a cluster, taken from the counter, one of whose mentions has its span |
| CorefBaseline.ClaimClustersComplete | baseline/neuralcoref/predict.py:104-119 | when an unclaimed entity has the span of a mention of cluster `c`, some unclaimed entity with that span ends up with the number of cluster `c` or of an earlier cluster |
| CorefBaseline.FillFresh | baseline/neuralcoref/predict.py:121-124 | every unclaimed entity gets its own number from the counter on, increasing in entity order, while claimed entities keep theirs |
| CorefBaseline.Unclaimed | baseline/neuralcoref/predict.py:101-102 | every entity of the document starts unclaimed |
| CorefBaseline.AssignClusters | baseline/neuralcoref/predict.py:99-124 | every entity's number comes from the counter and lies below the counter's new value, which has advanced by at least the number of clusters; a cluster number is carried only by entities with the span of one of that cluster's mentions, and two entities share a number only if it is a cluster number |
| CorefBaseline.AssignClustersComplete | baseline/neuralcoref/predict.py:99-124 | an entity with the span of a mention of cluster `c` is never alone in being numbered fresh: some entity with that span carries the number of cluster `c` or of an earlier cluster |
| CorefBaseline.AssignDocuments | baseline/neuralcoref/predict.py:99-124 | with the counter shared across documents, every number of an earlier document is smaller than every number of a later one |
| CorefBaseline.BestAmong | baseline/neuralcoref/predict.py:22-23 | picks an element of the prefix whose count in the list is at least that of every element of the prefix |
| CorefBaseline.MostFrequent | baseline/neuralcoref/predict.py:22-23 | fails exactly on the empty list; otherwise returns an element of the list whose count is at least every element's count |
| CorefBaseline.PySlice | baseline/neuralcoref/predict.py:135 | agrees with the ordinary slice whenever the bounds lie inside the list |
| CorefBaseline.Named | baseline/neuralcoref/predict.py:132-135 | fails exactly when the entity's sentence does not exist; otherwise the mention keeps the entity's sentence and span and is named by the span's tokens joined by spaces |
| CorefBaseline.Members | baseline/neuralcoref/predict.py:132-135 | the members of a number present among the entities are never empty |
| CorefBaseline.NameAll | baseline/neuralcoref/predict.py:132-135 | fails exactly when some entity's sentence does not exist; otherwise each entity is named in order |
| CorefBaseline.Kinds | baseline/neuralcoref/predict.py:137-138 | lists each entity's type in order |
| CorefBaseline.EntityOf | baseline/neuralcoref/predict.py:132-139 | succeeds exactly when there are members and all can be named; the entity then has their named mentions and their most frequent type |
| CorefBaseline.Numbers | baseline/neuralcoref/predict.py:131-136 | lists, in increasing order, exactly the numbers of the range that some entity carries |
| CorefBaseline.GroupNumbers | baseline/neuralcoref/predict.py:131-139 | each number yields, in order, the output entity made of its members |
| CorefBaseline.MinCluster | baseline/neuralcoref/predict.py:129 | is at most every entity's number |
| CorefBaseline.MaxCluster | baseline/neuralcoref/predict.py:130 | is at least every entity's number |
| CorefBaseline.Group | baseline/neuralcoref/predict.py:126-139 | a document without entities fails; otherwise there is one output entity per number carried by some entity, in increasing number order, each made of exactly the entities of that number |
| CorefBaseline.NumberedGroups | baseline/neuralcoref/predict.py:131-139 | the entities made for a range of numbers are grouped, ordered by number and cover every entity whose number lies in the range |
| ElasticDecode.DecodeChoice | entity-linking/src/1_3_c__decode_annotations.py:48-55 | `True` confirms the row's own resource as `elastic-verified`, any other choice reads the alternative named by the choice without its first character as `google-verified`; each fails exactly when the key is missing from the row |
| ElasticDecode.DecodeText | entity-linking/src/1_3_c__decode_annotations.py:56-61 | a text starting with `-` means no resource and no method; any other text is the resource with method `manual` |
| ElasticDecode.DecodeRow | entity-linking/src/1_3_c__decode_annotations.py:47-61 | a row without a first result raises; a choice or text with no value raises; otherwise the choice or the text is decoded, and a result of another type reuses the previous row's decision, raising when there is none |
| ElasticDecode.DecodeRows | entity-linking/src/1_3_c__decode_annotations.py:46-68 | one record per row, in order, with the row's dataset and id; a row with a choice or text is decoded on its own, and any other row repeats the decision of the row before it |
| ElasticDecode.WikiSuffix | entity-linking/src/1_3_c__decode_annotations.py:72-73 | a resource holding `wiki/` is cut to the piece after the first one: the text from just after the first `wiki/` up to the next `wiki/` or the end, which holds none, so cutting twice is cutting once; any other resource and a missing one are kept |
| ElasticDecode.NoEarlierSeparator | entity-linking/src/1_3_c__decode_annotations.py:72-73 | the English Wikipedia prefix holds `wiki/` only right before the title |
| ElasticDecode.WikiSuffixOfUrl | entity-linking/src/1_3_c__decode_annotations.py:72-73 | an English Wikipedia URL is cut back to its title |
| ElasticDecode.DecodeFile | entity-linking/src/1_3_c__decode_annotations.py:45-73 | the file decodes exactly when its rows do, giving one record per row with the resource cut at `wiki/` |
| Finalize.CorrectUrl | entity-linking/src/6__generate_linked_docred.py:22-40 | a missing resource stays missing and a `---` placeholder passes through; a Wikidata id gets the Wikidata prefix, an English Wikipedia URL is kept, and any other text gets the article prefix, so every result is a placeholder or a Wikipedia or Wikidata URL |
| Finalize.CorrectUrlIdempotent | entity-linking/src/6__generate_linked_docred.py:25-40 | correcting a corrected resource again changes nothing, for every resource that is not a bare Wikidata id |
| Finalize.CorrectWikiResource | entity-linking/src/6__generate_linked_docred.py:43-64 | missing resources and placeholders pass through; otherwise it fails exactly when `urlparse` does, and yields the text after the last `/wiki/` of the path, else the first `title` query value, else nothing |
| Finalize.PlainTitleRoundTrip | entity-linking/src/6__generate_linked_docred.py:193-198 | a plain page title comes back unchanged from `correct_url` followed by `correct_wiki_resource` |
| Finalize.ParseWikiUrl | entity-linking/src/6__generate_linked_docred.py:54 | `urlparse` of an English Wikipedia article URL gives scheme `https`, host `en.wikipedia.org`, path `/wiki/<title>` and no query or fragment |
| Finalize.ParseEnWikipediaUrl | entity-linking/src/6__generate_linked_docred.py:54 | any URL under `https://en.wikipedia.org/` parses with scheme `https`, host `en.wikipedia.org`, and path, parameters, query and fragment as the remainder splits |
| Finalize.ParseIndexUrl | entity-linking/src/6__generate_linked_docred.py:54-61 | `urlparse` of `https://en.wikipedia.org/w/index.php?title=<t>` gives path `/w/index.php` and query `title=<t>` |
| Finalize.IndexUrlTitle | entity-linking/src/6__generate_linked_docred.py:54-62 | an index URL's resource is the first `title` value of its query, its path holding no `/wiki/` |
| Finalize.Confidence | entity-linking/src/6__generate_linked_docred.py:67-80 | a link without a resource is an error; a `#DocRED` resource gets tier C; otherwise tier B exactly for the in-page and common-knowledge methods and tier A exactly for the manual, number/time and hyperlink-alignment methods, so every tier is one of A, B, C |
| Finalize.ConfidenceLess | entity-linking/src/6__generate_linked_docred.py:148-150 | comparing with a missing tier is an error; otherwise A beats B and C, B beats C, and nothing beats A |
| FindInstances.Considered | entity-linking/src/1_2__find_docred_instances.py:42-71 | only the first `MAX_CANDIDATES` (five) hits are compared: all of them when there are fewer, otherwise exactly five |
| FindInstances.Score | entity-linking/src/1_2__find_docred_instances.py:74-75 | the similarity of a hit's text to a non-empty document text lies between 0 and 1 |
| FindInstances.IsBestUnique | entity-linking/src/1_2__find_docred_instances.py:68-83 | the selection rule determines the candidate: two candidates that both satisfy it are equal |
| FindInstances.BestHit | entity-linking/src/1_2__find_docred_instances.py:54-83 | without hits the candidate is no resource with similarity -1, returned as a pair (the source returns it alone, see Findings); with hits and an empty document text scoring divides by zero; otherwise the candidate is the earliest considered hit of greatest similarity, with that similarity |
| FindInstances.CoveredAfterWrite | entity-linking/src/1_2__find_docred_instances.py:105-111 | writing a record to either output file keeps every document already written covered and covers the record's own document |
| FindInstances.FileMatched | entity-linking/src/1_2__find_docred_instances.py:105-106 | appending the best candidate of the next document, when its similarity exceeds one half, to the matched file keeps both files complete, correctly split and in document order |
| FindInstances.FileNotMatched | entity-linking/src/1_2__find_docred_instances.py:107-108 | appending it to the not-matched file, when its similarity is at most one half, does the same |
| FindInstances.ProcessDataset | entity-linking/src/1_2__find_docred_instances.py:97-112 | fails exactly when some document has hits but an empty text; otherwise every document has one record, with its index and the dataset name, in the matched file if its best similarity exceeds one half and in the other file if not, each file in document order, and each record carries the document's best candidate |
| FindInstancesAsWritten.AsWrittenFindCandidate | entity-linking/src/1_2__find_docred_instances.py:54-83 | as written: without hits the bare candidate (no resource, similarity -1) is returned; with hits it raises exactly when the document text is empty, and otherwise returns the best candidate paired with its similarity |
| FindInstancesAsWritten.Unpack | entity-linking/src/1_2__find_docred_instances.py:101-102 | unpacking the returned value and numbering the candidate raises exactly when the candidate came back alone, and otherwise gives the pair |
| FindInstancesAsWritten.AsWrittenProcessDataset | entity-linking/src/1_2__find_docred_instances.py:97-112 | as written: raises exactly when some document has no hits or has hits and an empty text; otherwise the files are those of the intended pass |
| FindInstancesAsWritten.ZeroHitsDiscrepancy | entity-linking/src/1_2__find_docred_instances.py:97-112 | with a search that finds nothing, the pass as written raises while the intended pass files every document as unmatched with no resource and similarity -1 |
| LabelMap.PropertyLabels | baseline/pure/shared/const.py:12 | each DocRED property number becomes its `P`-label, in list order |
| LabelMap.GetLabelMap | baseline/pure/shared/const.py:15-21 | numbers run from 1 to the list length and number `k + 1` names label `k`; the labels mapped are exactly those of the list, each to the position of its last occurrence |
| LabelMap.LabelRoundTrip | baseline/pure/shared/const.py:15-21 | every listed label's number leads back to the label, even when the list repeats it, and no label has number 0 |
| LabelMap.DistinctLabelsInverse | baseline/pure/shared/const.py:15-21 | for a list without repeats the two maps are inverse bijections between the labels and 1 to n |
| LabelMap.CorefIsOne | baseline/pure/shared/const.py:12-21 | the DocRED relation labels give `COREF` number 1 |
| Linking.Lookup | entity-linking/src/2+3__automatic_entity_linking.py:336-337 | `wiki_to_docred[k]` succeeds exactly when `k` is a key, with its value |
| Linking.LinkMatches | entity-linking/src/2+3__automatic_entity_linking.py:336-344 | accepting a link means both ends are mapped, the aligned range overlaps the mention (start mapped before the mention's last character, end unmapped or after its first) and the texts are more than 0.75 similar; it raises only on an unmapped end or an empty name against an empty link text |
| Linking.FirstMatch | entity-linking/src/2+3__automatic_entity_linking.py:335-361 | the chosen link is accepted and every earlier link is rejected; no choice means every link is rejected; an error means some link's test raised |
| Linking.FirstMatches | entity-linking/src/2+3__automatic_entity_linking.py:331-361 | the search result of every mention of an entity, in order |
| Linking.AlignMentions | entity-linking/src/2+3__automatic_entity_linking.py:331-361 | fails exactly when some mention's search fails; otherwise each mention gets the first accepted link or none |
| Linking.AlignEntities | entity-linking/src/2+3__automatic_entity_linking.py:330-361 | fails exactly when some entity's pass fails; otherwise one link list per entity, in order |
| Linking.CorefTagRoundTrip | entity-linking/src/2+3__automatic_entity_linking.py:353-417 | parsing the part before `-` of `f"{entity_id}-{i}"` gives back `entity_id` |
| Linking.AlignEvents | entity-linking/src/2+3__automatic_entity_linking.py:351-359 | every table entry recorded by pass 1 comes from an aligned mention, with its name, the link's resource and its coreference tag |
| Linking.AlignEventsComplete | entity-linking/src/2+3__automatic_entity_linking.py:351-359 | every aligned mention at or after a position records its entry |
| Linking.BuildMap | entity-linking/src/2+3__automatic_entity_linking.py:351-359 | the keys are those assigned, and each key holds the value of its last assignment |
| Linking.SimplifiedPairs | entity-linking/src/2+3__automatic_entity_linking.py:355-360 | only non-empty normalised names are recorded, each with the url and tag of the aligned mention it comes from |
| Linking.Cascade | entity-linking/src/2+3__automatic_entity_linking.py:363-402 | an unlinked mention stays unlinked exactly when none of the four tables knows it; otherwise the first applicable of exact coreference, simplified coreference, link in page and article name decides the link, with that table's url and tag |
| Linking.MentionLinks | entity-linking/src/2+3__automatic_entity_linking.py:345-402 | a mention aligned in pass 1 keeps its `hyperlinks-alignment` link; every other mention gets the cascade's link |
| Linking.FoldStep | entity-linking/src/2+3__automatic_entity_linking.py:409-431 | a link whose matcher is already recorded changes nothing; a coreference records the entity parsed before `-` with `links-in-page`, unless it equals the mention's position; a URL matcher records its URL and matcher |
| Linking.FoldProvenance | entity-linking/src/2+3__automatic_entity_linking.py:405-431 | the folded resource is set exactly when the method is; a URL comes from one of the mention links with that matcher; an entity index comes from the coreference tag of a mention at another position |
| Linking.AsWrittenFoldDropsHyperlinks | entity-linking/src/2+3__automatic_entity_linking.py:412-431 | with the matcher names the fold tests for, an entity whose only linked mention was aligned through a hyperlink stays unlinked |
| Linking.UrlLinkedMentionLinksEntity | entity-linking/src/2+3__automatic_entity_linking.py:412-431 | with the names passes 1 and 2 record, an entity with a mention linked by hyperlink, link in page or article name ends up linked |
| Linking.EntityKind | entity-linking/src/2+3__automatic_entity_linking.py:439 | `entity[0]['type']` succeeds exactly for an entity with mentions |
| Linking.FinishEntity | entity-linking/src/2+3__automatic_entity_linking.py:433-449 | NUM and TIME entities get `#ignored#` with method `num/time`; other entities keep the folded link; mentions and type are kept |
| Linking.LinkEntities | entity-linking/src/2+3__automatic_entity_linking.py:405-449 | fails exactly when some entity has no mentions or its fold raises; otherwise one finished entity per input entity, in order |
| Linking.AsWrittenLinkEntities | entity-linking/src/2+3__automatic_entity_linking.py:405-449 | as written: fails exactly when the intended pass fails, and otherwise the document keeps its bare mention lists, because the folded record is never stored |
| Linking.AsWrittenDropsEntityLinking | entity-linking/src/2+3__automatic_entity_linking.py:433-449 | for an entity whose one mention was aligned through a hyperlink, the code as written outputs the bare mention list, while the intended pass outputs the entity linked to that hyperlink's resource |
| Linking.LinkDocument | entity-linking/src/2+3__automatic_entity_linking.py:321-456 | the output exists exactly when pass 1 succeeds, every entity has a mention and every entity's fold succeeds; it carries the hit's dataset and id and, for every input entity, its mentions unchanged and the finished fold of its mention links; every NUM or TIME entity is ignored |
| Linking.PageLinks | entity-linking/src/2+3__automatic_entity_linking.py:199-202 | `wiki_all_links` has no empty key and holds every link whose text is not empty and whose resource passed the filter |
| Linking.PageLinksLastWins | entity-linking/src/2+3__automatic_entity_linking.py:199-202 | a key holds the resource of the last link with that text |
| Linking.PassLinks | entity-linking/src/2+3__automatic_entity_linking.py:321-402 | after passes 1 and 2 every mention aligned with a hyperlink carries its resource as `hyperlinks-alignment` and every other mention the result of the matching cascade; it raises exactly when pass 1 raises |
| Linking.DisambiguateInstance | entity-linking/src/2+3__automatic_entity_linking.py:301-456 | a missing page gives no output; an empty document text raises in the alignment; an article without a names entry raises; otherwise the output is the linking of the document with the alignment's abstract-to-document map |
| ManualDecode.AfterLast | entity-linking/src/5_3__decode_anotations.py:59 | `split('_')[-1]` is the longest suffix without the separator, preceded by the separator when there is one, and the whole text otherwise |
| ManualDecode.AfterLastOfSuffix | entity-linking/src/5_3__decode_anotations.py:59 | a text that ends in the separator followed by a piece without one gives back that piece |
| ManualDecode.DecodeChoice | entity-linking/src/5_3__decode_anotations.py:52-68 | a slot choice succeeds exactly when its last `_`-piece is a number naming a candidate, and selects that candidate; `Does not exist` asks for a new entity with every candidate excluded; `Title` asks for the article's resource; any other choice raises |
| ManualDecode.CandidateChoiceRoundTrip | entity-linking/src/5_3__decode_anotations.py:58-60 | choosing the slot of candidate `k` selects candidate `k` |
| ManualDecode.DecodeText | entity-linking/src/5_3__decode_anotations.py:76-79 | a number becomes a `---coref` placeholder carrying that number, any other text is the resource itself |
| ManualDecode.CorefTextRoundTrip | entity-linking/src/5_3__decode_anotations.py:76-77 | the `---coref` placeholder written for a number leads placeholder resolution back to the entity with that number |
| ManualDecode.NameMatchesWitness | entity-linking/src/5_3__decode_anotations.py:84-87 | the annotated text matches exactly when it equals, lower-cased, some stripped and lower-cased DocRED mention name |
| ManualDecode.DecodeValue | entity-linking/src/5_3__decode_anotations.py:52-81 | a result with no value or more than one, or of a type other than a choice or a text, raises; otherwise the choice or the text is decoded |
| ManualDecode.DecodeAnnotation | entity-linking/src/5_3__decode_anotations.py:42-100 | an `error` flag yields nothing and any other non-slot result raises; a slot result succeeds exactly when its number names a pending entity, its value decodes, and the entity text matches a DocRED mention name, and then assigns that entity a manual link to the decoded resource |
| ManualDecode.DecodeResults | entity-linking/src/5_3__decode_anotations.py:42-100 | the results decode exactly when each one does, with at most one assignment per result |
| ManualDecode.DecodeResultsContents | entity-linking/src/5_3__decode_anotations.py:42-100 | the decoded assignments are exactly those the individual results yield |
| ManualDecode.DecodedAreManual | entity-linking/src/5_3__decode_anotations.py:91-95 | every decoded assignment is a manual link with a resource |
| ManualDecode.SomeIsSlot | entity-linking/src/5_3__decode_anotations.py:44-95 | a result that assigns something assigns a manual link with a resource |
| ManualDecode.DecodeDocument | entity-linking/src/5_3__decode_anotations.py:37-42 | only the first annotation set is read, and a document without one raises |
| ManualDecode.Apply | entity-linking/src/5_3__decode_anotations.py:91-95 | writing the assignments succeeds exactly when each names an entity of the document, and keeps the number of entities |
| ManualDecode.ApplyAt | entity-linking/src/5_3__decode_anotations.py:91-95 | an entity keeps its old link when no assignment names it, and otherwise ends with the link of the last assignment naming it |
| Merge.ProjectMentions | entity-linking/src/6__generate_linked_docred.py:83-112 | `handle_mention` keeps one reduced mention per mention, in order, holding its name, sentence and span |
| Merge.RateAll | entity-linking/src/6__generate_linked_docred.py:124-126 | the confidence pass fails exactly when some entity's first mention has no resource; otherwise each entity takes type and linking record from its first mention, its reduced mentions, and the tier `handle_entity_linking` gives |
| Merge.Reshape | entity-linking/src/6__generate_linked_docred.py:106-127 | reshaping fails exactly when some entity has no mention or its first mention has no resource; otherwise every entity keeps all its mentions |
| Merge.MentionBagUpdate | entity-linking/src/6__generate_linked_docred.py:145-146 | replacing one entity changes the collection of all mentions by exactly the old and new entity's mentions |
| Merge.Absorb | entity-linking/src/6__generate_linked_docred.py:144-150 | absorbing fails exactly when a tier is missing; otherwise the later entity's mentions move to the end of the earlier one's, the later one is emptied, nothing else changes, and the kept linking record is the better-tiered one, the earlier one's on a tie |
| Merge.AbsorbKeepsMentions | entity-linking/src/6__generate_linked_docred.py:145-146 | absorbing loses and duplicates no mention |
| Merge.MovedMentions | entity-linking/src/6__generate_linked_docred.py:145-146 | moving one entity's mentions onto another and emptying it keeps the collection of all mentions |
| Merge.MergeFrom | entity-linking/src/6__generate_linked_docred.py:141-158 | the inner loop succeeds whenever every entity has a tier, keeps the number of entities, and leaves every tier in place |
| Merge.MergeFromKeepsResources | entity-linking/src/6__generate_linked_docred.py:141-150 | the inner loop changes no entity's resource |
| Merge.MergeFromKeepsMentions | entity-linking/src/6__generate_linked_docred.py:141-146 | the inner loop loses and duplicates no mention |
| Merge.MergeFromFrame | entity-linking/src/6__generate_linked_docred.py:141-146 | the inner loop only grows entity `i` and empties later entities, leaves earlier entities alone, and empties every later entity that shares `i`'s resource |
| Merge.MergeAll | entity-linking/src/6__generate_linked_docred.py:136-158 | the outer loop succeeds whenever every entity has a tier and keeps the number of entities |
| Merge.MergeAllKeepsResources | entity-linking/src/6__generate_linked_docred.py:136-158 | the outer loop changes no entity's resource |
| Merge.MergeAllKeepsMentions | entity-linking/src/6__generate_linked_docred.py:136-158 | the outer loop loses and duplicates no mention |
| Merge.MergeAllSeparates | entity-linking/src/6__generate_linked_docred.py:136-158 | after the outer loop no two non-empty entities share a resource that is not ignored |
| Merge.FollowAppend | entity-linking/src/6__generate_linked_docred.py:152-158 | following two lists of redirections in turn is following their concatenation |
| Merge.TracksCompose | entity-linking/src/6__generate_linked_docred.py:152-158 | redirections that track the entities through two steps track them through both |
| Merge.MergeFromTracks | entity-linking/src/6__generate_linked_docred.py:141-158 | after the inner loop every entity's mentions and resource sit at the index its redirections lead to |
| Merge.MergeFromAbsorbs | entity-linking/src/6__generate_linked_docred.py:144-158 | a later entity with the same resource is absorbed and recorded as a redirection |
| Merge.MergeAllMerges | entity-linking/src/6__generate_linked_docred.py:140-141 | a non-empty entity that is not ignored runs the inner loop from the next entity |
| Merge.MergeAllSkips | entity-linking/src/6__generate_linked_docred.py:140 | an empty or ignored entity absorbs nothing |
| Merge.MergeFromSkips | entity-linking/src/6__generate_linked_docred.py:144 | an entity with another resource is left alone |
| Merge.AbsorbTracks | entity-linking/src/6__generate_linked_docred.py:144-158 | after one absorption the absorbed entity's mentions and resource are found at the absorbing entity |
| Merge.MergeAllTracks | entity-linking/src/6__generate_linked_docred.py:136-158 | after the merge every original entity's mentions and resource sit at the index its redirections lead to |
| Merge.EmptyBelow | entity-linking/src/6__generate_linked_docred.py:161-164 | the number of empty entities among the first `k` is at most `k` |
| Merge.ShiftCountsEmptyBelow | entity-linking/src/6__generate_linked_docred.py:161-169 | the downward decrement loop moves a relation index down by exactly the number of empty entities below it |
| Merge.ShiftKeepsNegative | entity-linking/src/6__generate_linked_docred.py:166-169 | a negative relation index is never shifted |
| Merge.Compact | entity-linking/src/6__generate_linked_docred.py:171-173 | only entities with mentions remain, each one of the input's |
| Merge.CompactCounts | entity-linking/src/6__generate_linked_docred.py:171-173 | removal drops exactly the empty entities |
| Merge.CompactKeepsMentions | entity-linking/src/6__generate_linked_docred.py:171-173 | removal loses no mention |
| Merge.EmptyBelowPrefix | entity-linking/src/6__generate_linked_docred.py:161-164 | counting empty entities below `k` looks only at the first `k` entities |
| Merge.EmptyBelowPrefixAt | entity-linking/src/6__generate_linked_docred.py:161-164 | counting empty entities below `k` looks only at the first `k` entities |
| Merge.MentionBagSnoc | entity-linking/src/6__generate_linked_docred.py:171-173 | appending an entity adds exactly its mentions to the collection |
| Merge.CompactIndex | entity-linking/src/6__generate_linked_docred.py:161-173 | a non-empty entity at `x` lands at `x` less the number of empty entities below it, which is where the shift sends its relations |
| Merge.CompactDistinct | entity-linking/src/6__generate_linked_docred.py:171-173 | removing empty entities keeps non-empty ones apart |
| Merge.Number | entity-linking/src/6__generate_linked_docred.py:174-175 | the kept entities are numbered by position and otherwise unchanged |
| Merge.RelocateAll | entity-linking/src/6__generate_linked_docred.py:152-169 | every relation is redirected along the merge and then shifted, in order |
| Merge.DropSelfRelations | entity-linking/src/6__generate_linked_docred.py:177-180 | exactly the relations from an entity to itself are dropped; the others stay, in order |
| Merge.HandleInstance | entity-linking/src/6__generate_linked_docred.py:97-183 | `handle_instance` fails exactly when reshaping or the merge does; relations are present exactly when the input has labels, the old entities exactly when it does not; every output entity has mentions and its position as id, and no relation goes from an entity to itself |
| Merge.SameMentions | entity-linking/src/6__generate_linked_docred.py:174-175 | numbering keeps every mention |
| Merge.MergeKeepsMentionsApart | entity-linking/src/6__generate_linked_docred.py:136-175 | the output entities hold exactly the reshaped mentions, and no two of them share a resource unless it is ignored |
| Merge.RelationsFollowTheirEntities | entity-linking/src/6__generate_linked_docred.py:136-180 | a relation between two original entities ends up between valid output entities that hold those entities' mentions and resources, and is kept exactly when the two differ |
| Merge.RelocatedRelation | entity-linking/src/6__generate_linked_docred.py:152-180 | a relation's endpoints land on the output entities holding the original entities' mentions and resources, and it is kept exactly when they differ |
| Merge.HandleInstanceParts | entity-linking/src/6__generate_linked_docred.py:160-180 | the output entities are the numbered non-empty merged entities, and the relations are the relocated ones without self-relations |
| Merge.EndpointSurvives | entity-linking/src/6__generate_linked_docred.py:152-175 | an endpoint's redirections lead to a non-empty entity, and the shift sends it to that entity's place after removal |
| ClusterScore.Search | metrics/entity_f1.py:33-36 | the inner loop over the pool succeeds exactly when some pool mention compares equal to the cluster mention |
| ClusterScore.Intersection | metrics/entity_f1.py:29-36 | the intersection count never exceeds the cluster size, and equals it exactly when every cluster mention is found in the pool |
| ClusterScore.FoundFlags | metrics/entity_f1.py:33-36 | one flag per cluster mention, set exactly when the mention compares equal to some pool mention |
| ClusterScore.IntersectionCounts | metrics/entity_f1.py:29-36 | the intersection is the number of cluster mentions found in the pool |
| ClusterScore.SoftScoreIsFoundShare | metrics/entity_f1.py:29-61 | under soft aggregation a non-empty cluster scores the share of its mentions found in the pool |
| ClusterScore.TpCluster | metrics/entity_f1.py:29-61 | an empty cluster scores nothing; otherwise the score lies in [0, 1], is 1 exactly when the whole cluster is found, is 0 under hard aggregation exactly when some mention is missed, and under soft aggregation times the cluster size is the intersection |
| ClusterScore.Totals | metrics/entity_f1.py:112-118 | the summed score of a list of clusters lies between 0 and the cluster count, and reaches the count exactly when every cluster is non-empty and found in full |
| ClusterScore.Misses | metrics/entity_f1.py:120-121 | FP (or FN) is never negative, never more than the cluster count, and is zero exactly when every cluster is non-empty and found in full |
| ClusterScore.HardTotalsCount | metrics/entity_f1.py:37-41 | under hard aggregation TP is the number of non-empty clusters found in full |
| EntityF1.Bucket | metrics/entity_f1.py:86-95 | the bucket of a type holds one cluster per entity of that type, every such entity's mention list, nothing else, and its pool holds exactly the mentions of the entities of that type |
| EntityF1.TypeTotals | metrics/entity_f1.py:112-133 | the cluster count is the number of entities of the type in the paired instances; TP lies between 0 and it and reaches it exactly when every such cluster is found in full in its paired pool |
| EntityF1.Score | metrics/entity_f1.py:76-136 | the counts exist exactly when every paired instance uses only the six known types; then for each type the predicted and gold cluster counts are the entity counts of the type, TP_P and TP_G are the summed cluster scores, FP = predicted clusters less TP_P and FN = gold clusters less TP_G, each between 0 and its count, and FP (FN) is zero exactly when every predicted (gold) cluster is found in full |
| EntityF1.TypeScoreOf | metrics/entity_f1.py:109-136 | for one type: the cluster counts are the entity counts of the type, TP_P and TP_G the summed cluster scores, FP and FN the counts less TP, each zero exactly when every cluster of its side is found in full |
| EntityF1.SelfBucketComplete | metrics/entity_f1.py:84-107 | an entity list scored against its own pool finds every mention of every non-empty cluster |
| EntityF1.PerfectPrediction | metrics/entity_f1.py:109-136 | a prediction equal to the reference, all of whose entities have mentions, has FP = FN = 0 for every type |
| RelationF1.Row | metrics/relation_f1.py:27-34 | one relation mention per tail mention, in tail order, each pairing the fixed head mention with that tail mention under the entity types and the relation |
| RelationF1.Generate | metrics/relation_f1.py:25-34 | the generator yields one mention per head-mention row of tail mentions |
| RelationF1.GenerateMembers | metrics/relation_f1.py:25-34 | every generated mention pairs a head mention with a tail mention and carries the head type, the tail type and the relation |
| RelationF1.GenerateAt | metrics/relation_f1.py:25-34 | the pair of head mention `i` and tail mention `j` sits at position `i * |ts| + j`: the order is head-major |
| RelationF1.GenerateAtRow | metrics/relation_f1.py:25-34 | the pair of head mention `i` and tail mention `j` sits after `i` full rows of tail mentions |
| RelationF1.RowsAreProduct | metrics/relation_f1.py:36-37 | `i` rows of `n` mentions hold `i * n` mentions |
| RelationF1.Mentions | metrics/relation_f1.py:25-37 | a relation between two entities has `len_relation_mentions` = head mentions times tail mentions relation mentions, all carrying the entity types and the relation |
| RelationF1.RelationIgnored | metrics/relation_f1.py:43-47 | comparing two relation mentions does not depend on their relations |
| RelationF1.Bucket | metrics/relation_f1.py:113-132 | the bucket of a relation type holds one cluster per relation of that type, the cluster of every such relation and nothing else, and its pool is exactly the mentions of its clusters |
| RelationF1.TypeTotals | metrics/relation_f1.py:158-178 | the cluster count is the number of relations of the type in the paired instances; TP lies between 0 and it and reaches it exactly when every such cluster is found in full in its paired pool |
| RelationF1.Score | metrics/relation_f1.py:98-181 | the counts exist exactly when every relation of both files names two existing entities and a known relation type; then for each relation type the predicted and gold cluster counts are the relation counts of the type, TP_P and TP_G the summed cluster scores, FP = predicted clusters less TP_P and FN = gold clusters less TP_G, each between 0 and its count, and FP (FN) is zero exactly when every predicted (gold) cluster is found in full |
| RelationF1.TypeScoreOf | metrics/relation_f1.py:155-181 | for one relation type: the cluster counts are the relation counts of the type, TP_P and TP_G the summed cluster scores, FP and FN the counts less TP, each zero exactly when every cluster of its side is found in full |
| RelationF1.ContainedIsFound | metrics/relation_f1.py:43-47 | a cluster whose every mention lies in the pool is found in full |
| RelationF1.ClusterNonEmpty | metrics/relation_f1.py:25-37 | a relation between two entities with mentions has a non-empty cluster |
| RelationF1.SelfBucketComplete | metrics/relation_f1.py:113-153 | a file scored against itself finds every cluster of every relation type in full, when all entities have mentions |
| RelationF1.PerfectPrediction | metrics/relation_f1.py:155-181 | a prediction equal to the reference, whose relations index existing entities with mentions, has FP = FN = 0 for every relation type |
| RankFusion.KeySet | metrics/entity_linking.py:58 | the keys of a score table are exactly the candidates named by some entry |
| RankFusion.AddTo | metrics/entity_linking.py:73-78 | adding a position keeps every existing key in place, and appends the candidate at the end exactly when it was not yet a key |
| RankFusion.AddToKeys | metrics/entity_linking.py:73-78 | after adding, the keys are the old keys plus the candidate |
| RankFusion.AddToScores | metrics/entity_linking.py:74-78 | adding moves only the candidate's score, by the position (from 0 for a new candidate) |
| RankFusion.AddAll | metrics/entity_linking.py:73-78 | one candidate list adds to every candidate's score the sum of its positions in the list, joins the list's candidates to the keys, and keeps the old keys in place |
| RankFusion.PenalizeScores | metrics/entity_linking.py:80-82 | the pass over the marks pushes back by the list length exactly the keys still unmarked that the list does not hold, and leaves every other score alone |
| RankFusion.FuseStep | metrics/entity_linking.py:67-82 | fusing one list keeps the old keys in place, adds the list's candidates to the keys, and marks them |
| RankFusion.FuseStepScores | metrics/entity_linking.py:67-82 | after one list a candidate's score is its old score, plus its positions in the list, plus the list length when it was an unmarked key the list misses |
| RankFusion.AddAllKeepsDistinct | metrics/entity_linking.py:73-78 | the table stays a map: adding a list never duplicates a key |
| RankFusion.FuseStepKeepsDistinct | metrics/entity_linking.py:67-82 | fusing one list never duplicates a key |
| RankFusion.FuseGroup | metrics/entity_linking.py:69-82 | the lists matched by one reference mention leave as keys the old ones and every candidate of some list, share one set of marks that only shrinks, and keep old keys in place |
| RankFusion.FuseMention | metrics/entity_linking.py:66-82 | one reference mention adds to the table's keys exactly the candidates of its matched lists, with the marks starting as the table's keys |
| RankFusion.FuseMentions | metrics/entity_linking.py:58-82 | the fused table of an entity has as keys exactly the candidates listed for some of its mentions |
| RankFusion.FuseGroupKeepsDistinct | metrics/entity_linking.py:66-82 | fusing the lists of one mention never duplicates a key |
| RankFusion.FuseMentionsKeepsDistinct | metrics/entity_linking.py:58-82 | fusing all mentions of an entity never duplicates a key |
| RankFusion.Insert | metrics/entity_linking.py:88-89 | insertion adds exactly one occurrence of the key to the sorted list |
| RankFusion.InsertSorted | metrics/entity_linking.py:88-89 | inserting into a list sorted by score keeps it sorted |
| RankFusion.SortKeys | metrics/entity_linking.py:85-89 | the sorted keys are a permutation of the input keys in non-decreasing score order |
| RankFusion.Ranking | metrics/entity_linking.py:85-89 | the `argsort` ranking is a permutation of the table's keys in non-decreasing score order |
| RankFusion.DistinctKeysCount | metrics/entity_linking.py:85-86 | a table with distinct keys lists each key at most once |
| RankFusion.RankingIsPermutation | metrics/entity_linking.py:85-89 | on a table with distinct keys the ranking names every key exactly once and nothing else |
| RankFusion.RankOf | metrics/entity_linking.py:97-102 | the rank is -1 exactly when the gold resource is not ranked; otherwise it is the 1-based position of its first occurrence |
| RankFusion.HitsAt1AtMostHitsAt5 | metrics/entity_linking.py:109-110 | Hit@1's count is at most Hit@5's, which is at most the number of ranks |
| LinkingMetric.Flatten | metrics/entity_linking.py:41-53 | the flattened predicted mentions are exactly the mentions of the predicted entities, each carrying its entity's type and candidate list |
| LinkingMetric.Matching | metrics/entity_linking.py:69-70 | the lists collected for a reference mention are exactly the candidate lists of the predictions with its type, sentence and span |
| LinkingMetric.Groups | metrics/entity_linking.py:66-70 | one collection of matched lists per reference mention, in mention order |
| LinkingMetric.ListedIsProposed | metrics/entity_linking.py:66-82 | a candidate appears in the fused table exactly when some prediction matching a mention of the entity proposes it |
| LinkingMetric.EntityRanking | metrics/entity_linking.py:56-94 | the ranking of a reference entity names every proposed candidate exactly once, and nothing else, in non-decreasing fused score |
| LinkingMetric.EntityRank | metrics/entity_linking.py:96-102 | the rank is -1 exactly when no matching prediction proposes the gold resource; otherwise it is the gold resource's 1-based place in the ranking |
| LinkingMetric.InstanceRanks | metrics/entity_linking.py:57-64 | one rank per entity that is not a number or a time (all entities when none is), each -1 or at least 1 |
| LinkingMetric.Ranks | metrics/entity_linking.py:56-106 | every rank over the paired instances is -1 or at least 1 |
| LinkingMetric.HitsOrdered | metrics/entity_linking.py:109-110 | over any pair of files Hit@1's count is at most Hit@5's, which is at most the number of ranked entities |
| LinkingMetric.SingleCandidateRanksFirst | metrics/entity_linking.py:56-102 | an entity with one mention matched by one prediction whose only candidate is the gold resource gets rank 1 |
| MentionPairing.FirstFree | metrics/coref_b3.py:60-72 | the scan from `j` finds the first prediction with the reference's sentence and span that no earlier reference took, or reports that every such prediction is taken |
| MentionPairing.TakenPrefix | metrics/coref_b3.py:56-72 | a pairing made later does not change which predictions the earlier references took |
| MentionPairing.Pairing | metrics/coref_b3.py:56-77 | every reference is paired greedily: with the first prediction of the same sentence and span still unmarked, or with none when every such prediction is marked |
| MentionPairing.PairingInjective | metrics/coref_b3.py:61-68 | no prediction is paired with two references |
| MentionPairing.FreeFrom | metrics/coref_b3.py:79-83 | the leftover predictions are exactly the unpaired ones, in increasing order |
| MentionPairing.FreeCount | metrics/coref_b3.py:79-83 | the unpaired predictions from `j` on and the taken ones below `n` together account for every prediction from `j` on |
| MentionPairing.TakenBelowExtend | metrics/coref_b3.py:68 | pairing one more reference with a fresh prediction below `n` adds exactly one taken prediction below `n` |
| MentionPairing.TakenBelowIsMatched | metrics/coref_b3.py:56-77 | the number of taken predictions equals the number of references that found a prediction |
| MentionPairing.TakenBelowNone | metrics/coref_b3.py:49-52 | before any pairing no prediction is taken |
| MentionPairing.Labels | metrics/coref_b3.py:70-76 | the true side lists every reference's label in reference order |
| MentionPairing.FreeSize | metrics/coref_b3.py:79-83 | the number of leftover predictions is the number of predictions less the number of paired references |
| MentionPairing.PairedTags | metrics/coref_b3.py:56-77 | for each reference the predicted side holds the paired prediction's label, which has the same sentence and span, or the missing marker |
| MentionPairing.TagsAt | metrics/coref_b3.py:79-83 | the labels of the predictions at the given indices, in order |
| MentionPairing.Compare | metrics/coref_b3.py:48-85 | `compare_instance` yields two equally long lists: references first (label against paired label or missing), then every leftover prediction (missing against its label), one entry per reference plus one per unpaired prediction |
| MentionPairing.MatchedAll | metrics/coref_b3.py:56-77 | when every reference found a prediction, the number of paired references is the number of references |
| MentionPairing.SelfComparison | metrics/coref_b3.py:48-85 | mentions with distinct spans compared with themselves give two equal lists, both their labels |
| MentionPairing.CorefB3Compare | metrics/coref_b3.py:48-85 | the coreference comparison keeps every reference's cluster id on the true side, gives a paired reference the id of the prediction with the same span and an unpaired one -1, then lists every leftover prediction's id, in order, against -1 |
| MentionPairing.NerF1Compare | metrics/ner_f1.py:9-53 | the NER comparison keeps every reference's type on the true side, gives a paired reference the type of the prediction with the same span and an unpaired one `na`, then lists every leftover prediction's type, in order, against `na` |
| Placeholders.MintNumber | entity-linking/src/6__generate_linked_docred.py:222-223 | a string read back as a counter value is exactly the id minted for that value |
| Placeholders.MintNumberOfMint | entity-linking/src/6__generate_linked_docred.py:222-223 | every minted `#DocRED-<n>#` id reads back as the counter value it was made from |
| Placeholders.MintInjective | entity-linking/src/6__generate_linked_docred.py:222-223 | different counter values mint different ids |
| Placeholders.MintIsTierC | entity-linking/src/6__generate_linked_docred.py:222-223 | a minted id always falls in confidence tier C |
| Placeholders.PrepareLink | entity-linking/src/6__generate_linked_docred.py:193-201 | the first loop fails exactly when normalising the resource does; it stores the normalised resource, keeps the method, and defaults the not-resource list to empty |
| Placeholders.CorefTarget | entity-linking/src/6__generate_linked_docred.py:238-241 | the `---coref<n>` target is entity `n` of the document, an error exactly when the suffix is not a number or names no entity |
| Placeholders.AsWrittenCorefTarget | entity-linking/src/6__generate_linked_docred.py:238-242 | as written, resolving a `---coref<n>` placeholder always raises: a non-number suffix fails `int()`, and otherwise the list of processed documents is indexed by the dataset name |
| Placeholders.AsWrittenCorefNeverResolves | entity-linking/src/6__generate_linked_docred.py:238-242 | for a placeholder naming an entity of the document, the code as written raises while the intended lookup gives that entity |
| Placeholders.Classify | entity-linking/src/6__generate_linked_docred.py:215-237 | the branches are told apart in the source's order: plain exactly without the `---` prefix, then `---ignored`, `---new`, other `---new…` strings, `---title`, `---coref…` |
| Placeholders.MarksDiffer | entity-linking/src/6__generate_linked_docred.py:218-237 | the placeholder forms are mutually exclusive placeholders, and a `---coref` mark is long enough to carry its suffix |
| Placeholders.Fresh | entity-linking/src/6__generate_linked_docred.py:222-223 | minting advances the counter by one, keeps the shared map, and the new id reads back as the new counter value |
| Placeholders.ResolveLink | entity-linking/src/6__generate_linked_docred.py:214-244 | one entity fails exactly when its resource is missing, its document has no article row for `---title`, or its `---coref` target is not an entity with a resource; plain resources are untouched, `---ignored` becomes `#ignored#`, `---title` takes the article resource, `---coref` copies a resolved target's resource and not-resource list, the counter grows by at most one, and shared ids are never changed |
| Placeholders.ResolveLinkMints | entity-linking/src/6__generate_linked_docred.py:221-236 | a new shared key is the entity's own `---new…` string with the id just minted; the counter moves exactly for a fresh entity or a shared string seen for the first time, and every shared string resolves to the id its map entry holds |
| Placeholders.ResolveFrom | entity-linking/src/6__generate_linked_docred.py:213-244 | a pass keeps the number of entities and the already-visited ones, never lowers the counter or changes a shared id, leaves plain resources alone, turns every `---ignored` into `#ignored#`, and fails when some resource is missing |
| Placeholders.ResolveFromStep | entity-linking/src/6__generate_linked_docred.py:213-244 | a pass resolves entity `k` and then runs on the updated records, so a later `---coref` sees the earlier entity as resolved |
| Placeholders.SharedKeysResolveToMap | entity-linking/src/6__generate_linked_docred.py:225-229 | every entity carrying the same `---new…` string ends up with the one id the final map holds for it |
| Placeholders.FreshIdsIncrease | entity-linking/src/6__generate_linked_docred.py:221-236 | the ids minted for `---new` and unmatched `---title` use counter values above the starting counter, strictly increasing in entity order, so no two are equal |
| Placeholders.NewKeysAreFresh | entity-linking/src/6__generate_linked_docred.py:225-228 | strings added to the shared map during a pass get counter values above the starting counter |
| Placeholders.ResolveLinkKeepsSharedOk | entity-linking/src/6__generate_linked_docred.py:225-229 | one entity keeps the shared map holding distinct minted ids, none above the counter |
| Placeholders.ResolveKeepsSharedOk | entity-linking/src/6__generate_linked_docred.py:211-244 | a pass keeps the shared map holding distinct minted ids, none above the counter |
| Placeholders.FreshIdsAvoidShared | entity-linking/src/6__generate_linked_docred.py:221-236 | an id minted for `---new` or an unmatched `---title` is never the id of a shared `---new…` string |
| Placeholders.FirstFreshAvoidsShared | entity-linking/src/6__generate_linked_docred.py:221-236 | the id minted for the first fresh entity of a pass is never a shared string's id |
| Placeholders.NotSharedKeys | entity-linking/src/6__generate_linked_docred.py:221-230 | `---new` and `---title` are not shared strings |
| Positions.SentencePositions | entity-linking/src/2+3__automatic_entity_linking.py:42-51 | one span per token of the sentence, in order |
| Positions.PositionsFrom | entity-linking/src/2+3__automatic_entity_linking.py:40-52 | one span list per sentence, each as long as its sentence |
| Positions.WordPositions | entity-linking/src/2+3__automatic_entity_linking.py:31-52 | `compute_word_positions` gives one span list per sentence, each as long as its sentence |
| Positions.SentencePositionsAt | entity-linking/src/2+3__automatic_entity_linking.py:44-50 | token `k` starts at the cursor plus the width of the tokens before it (length plus one space each) and ends its length later |
| Positions.PositionsFromAt | entity-linking/src/2+3__automatic_entity_linking.py:40-52 | the cursor entering sentence `s` has moved past every token of the earlier sentences |
| Positions.WordPositionsAt | entity-linking/src/2+3__automatic_entity_linking.py:40-52 | sentence `s` starts at the width of all earlier tokens |
| Positions.TokenRange | entity-linking/src/2+3__automatic_entity_linking.py:44-50 | a token's start is the width of the flat tokens before it and its end plus one is the width including it |
| Positions.CharPos | entity-linking/src/2+3__automatic_entity_linking.py:65-68 | `Ok` exactly when the sentence and both token indices exist (else the `IndexError`), and then the range runs from the start of token `pos0` to the end of token `pos1 - 1` |
| Positions.PlaceMentions | entity-linking/src/2+3__automatic_entity_linking.py:64-68 | fails exactly when some mention's range fails; otherwise every mention, in order, carries its character range |
| Positions.PlaceEntities | entity-linking/src/2+3__automatic_entity_linking.py:55-69 | fails exactly when some entity's mentions fail; otherwise each entity keeps its order and gets its placed mentions |
| Positions.DocTextJoinsAllTokens | entity-linking/src/2+3__automatic_entity_linking.py:81 | with no empty sentence, the document text is all tokens joined by single spaces |
| Positions.MentionCharRange | entity-linking/src/2+3__automatic_entity_linking.py:65-68 | a mention's range runs from the width of the flat tokens before its first token to the width up to its last token, less the trailing space |
| Positions.MentionTokens | entity-linking/src/2+3__automatic_entity_linking.py:81 | a mention's tokens sit contiguously in the flat token list, after all tokens of earlier sentences |
| Positions.MentionSpanSlicesText | entity-linking/src/2+3__automatic_entity_linking.py:31-69 | with no empty sentence, `char_pos` slices the mention's tokens, joined by single spaces, out of the document text |
| Positions.TokenSpanSlicesText | entity-linking/src/2+3__automatic_entity_linking.py:31-52 | with no empty sentence, each token's `[start, end)` slices exactly that token out of the document text |
| Positions.JoinSlice | entity-linking/src/2+3__automatic_entity_linking.py:81 | the characters of tokens `k..l-1` in a space-joined text are those tokens joined by spaces |
| PrepareDataset.StartOffsets | baseline/pure/prepare_dataset.py:14 | the offsets start at 0, each sentence's next offset adds its length, and the last offset is the document's token count |
| PrepareDataset.OffsetsMonotone | baseline/pure/prepare_dataset.py:14 | the sentence offsets never decrease |
| PrepareDataset.TokenAtOffset | baseline/pure/prepare_dataset.py:14-16 | token `p` of sentence `s` is token offset-of-`s` plus `p` of the flattened single sentence |
| PrepareDataset.DocPos | baseline/pure/prepare_dataset.py:23-25 | fails exactly when the mention's sentence has no offset; otherwise the range starts at the sentence offset plus the mention start and is inclusive, one shorter than the half-open mention range |
| PrepareDataset.MentionSpans | baseline/pure/prepare_dataset.py:22-25 | fails exactly when some mention's sentence has no offset; otherwise one range per mention, in order |
| PrepareDataset.EntitySpans | baseline/pure/prepare_dataset.py:20-25 | fails exactly when some entity's mention ranges fail; otherwise the ranges of every entity, in order |
| PrepareDataset.Ner | baseline/pure/prepare_dataset.py:19-27 | one item per mention of all entities |
| PrepareDataset.NerItemOfMention | baseline/pure/prepare_dataset.py:20-27 | mention `k` of entity `e` is the item after all mentions of the entities before `e`, holding its range and the entity's type |
| PrepareDataset.LeadPairs | baseline/pure/prepare_dataset.py:34-39 | pairs the first mention with each later mention, in order, labelled `COREF` |
| PrepareDataset.CorefPairsCount | baseline/pure/prepare_dataset.py:32-39 | an entity with n mentions yields n(n-1)/2 `COREF` pairs |
| PrepareDataset.CorefPairsMembers | baseline/pure/prepare_dataset.py:32-39 | the `COREF` pairs of an entity are exactly its mention pairs `i < j`, the earlier mention first |
| PrepareDataset.RelationItems | baseline/pure/prepare_dataset.py:42-49 | fails exactly when some relation names a missing entity or one without mentions; otherwise one item per relation, in order, joining the first mentions of head and tail under the relation's label |
| PrepareDataset.AllCorefPairsCount | baseline/pure/prepare_dataset.py:32-39 | the `COREF` pairs of all entities number the sum of n(n-1)/2 over the entities |
| PrepareDataset.ProcessInstance | baseline/pure/prepare_dataset.py:14-56 | converting a document fails exactly when a mention names a sentence past the offsets or a relation names a missing entity or one without mentions |
| PrepareDataset.ProcessInstanceShape | baseline/pure/prepare_dataset.py:14-56 | a converted document has key `key-<name>-<index>`, one sentence holding all tokens, one `ner` item per mention and one relation item per `COREF` pair and per labelled relation |
| PrepareDataset.SpansKeepCounts | baseline/pure/prepare_dataset.py:20-39 | the mention ranges keep each entity's mention count, hence the mention and pair counts |
| PrepareDataset.ProcessDataset | baseline/pure/prepare_dataset.py:10-56 | converting fails exactly when one of the first ten documents is badly indexed; otherwise it yields as many documents as there are, at most ten |
| PrepareDataset.ProcessDatasetAt | baseline/pure/prepare_dataset.py:11-56 | output document `k` is input document `k` converted under index `k` |
| PrepareDataset.DocKeysDistinct | baseline/pure/prepare_dataset.py:52 | no two output documents share a key |
| Similarity.LevenshteinBounds | entity-linking/src/utils.py:94 | the edit distance is at most the longer length and at least the difference of the lengths |
| Similarity.LevenshteinSymmetric | entity-linking/src/utils.py:94 | the edit distance does not depend on the order of its arguments |
| Similarity.LevenshteinZeroIffEqual | entity-linking/src/utils.py:94 | the edit distance is zero exactly between equal texts |
| Similarity.OneMinusRatio | entity-linking/src/utils.py:94-108 | one minus `d / n` with `d <= n` lies in [0, 1] and is 1 exactly when `d` is 0 |
| Similarity.TextSimilarity | entity-linking/src/utils.py:84-94 | two empty texts divide by zero and nothing else fails; the similarity lies in [0, 1] and is 1 exactly when the texts are equal |
| Similarity.TextSimilaritySymmetric | entity-linking/src/utils.py:84-94 | `text_similarity` is symmetric, errors included |
| Similarity.TextSimilarityDocred | entity-linking/src/utils.py:97-108 | an empty document text divides by zero and nothing else fails; the similarity lies in [0, 1] and is 1 exactly when the Wikipedia text starts with the document text |
| Normalize.Keep | entity-linking/src/utils.py:45-70 | the characters kept are exactly those of the input satisfying the test, and a text whose every character passes is kept whole |
| Normalize.KeepAppend | entity-linking/src/utils.py:45 | filtering a concatenation filters each part: the filter keeps order and multiplicity |
| Normalize.KeepAll | entity-linking/src/utils.py:45 | a text with no character to drop is kept whole |
| Normalize.RunLength | entity-linking/src/utils.py:30-48 | the run of word characters at the start of a text is maximal |
| Normalize.Tokens | entity-linking/src/utils.py:30-73 | `\w+` tokens are non-empty runs of word characters; a text without word characters has no token and a non-empty all-word text is one token |
| Normalize.RunLengthStops | entity-linking/src/utils.py:30 | a word run stops at the first non-word character |
| Normalize.TokensSplitAtNonWord | entity-linking/src/utils.py:30-48 | a non-word character splits the text: the tokens of `a + c + b` are those of `a` followed by those of `b`, so tokens are maximal and in order |
| Normalize.TokensKeepWordCharacters | entity-linking/src/utils.py:30-73 | concatenated, the tokens are exactly the word characters of the text, in order |
| Normalize.DropStopwords | entity-linking/src/utils.py:51-76 | a word survives exactly when its lower-case form is not a stop word, and a list without stop words survives whole |
| Normalize.DropStopwordsAppend | entity-linking/src/utils.py:51 | dropping stop words from a concatenation drops them from each part, keeping the order and multiplicity of the survivors |
| Normalize.StemAll | entity-linking/src/utils.py:54-79 | every word is replaced by its stem, in order |
| Normalize.StemAllAppend | entity-linking/src/utils.py:54 | stemming a concatenation stems each part in place |
| Normalize.CleanAbstract | entity-linking/src/utils.py:44-45 | the cleaned abstract is no longer than the input, has no backslash and no upper-case letter, each character is the lower-case form of an input character, and text already clean is unchanged |
| Normalize.CleanAbstractAppend | entity-linking/src/utils.py:44-45 | lower-casing and dropping backslashes act character by character: the cleaning of a concatenation is the concatenation of the cleanings |
| Normalize.KeywordsSplit | entity-linking/src/utils.py:48-54 | tokenising, dropping stop words and stemming split at a non-word character |
| Normalize.PreprocessAbstractSplit | entity-linking/src/utils.py:35-56 | `preprocess_abstract` of a text split at a non-word character, not a backslash nor an upper-case letter, joins the keywords of both sides |
| Normalize.PreprocessAbstractWord | entity-linking/src/utils.py:35-56 | a single lower-case content word without backslash normalises to its stem |
| Normalize.RemoveEscapes | entity-linking/src/utils.py:32-69 | every backslash followed by a character other than a newline is removed together with it, so a backslash survives only at the end or before a newline; no character is invented and text without a backslash is unchanged |
| Normalize.RemoveEscapesAppend | entity-linking/src/utils.py:32-69 | a prefix without backslash passes through the escape removal unchanged |
| Normalize.EscapeRemoved | entity-linking/src/utils.py:32-69 | a backslash and the character after it, other than a newline, vanish and the scan resumes after them |
| Normalize.RemoveDigits | entity-linking/src/utils.py:31-70 | the characters that survive are exactly the non-digits of the input, and text without a digit is unchanged |
| Normalize.CleanEntity | entity-linking/src/utils.py:68-70 | the text `preprocess_entity` tokenizes has no digit and no upper-case letter, is no longer than the input, and equals the input when that is already clean |
| Normalize.AllStopwordsNormaliseToEmpty | entity-linking/src/utils.py:44-56 | a text whose every token is a stop word normalises to `''` |
| Normalize.KeywordsAreStemmedContentWords | entity-linking/src/utils.py:48-81 | the words joined into the result are exactly the stems of the tokens that are not stop words |
| UrlFilter.LineEnd | entity-linking/src/2+3__automatic_entity_linking.py:22 | the first newline at or after a position, or the end: `.` cannot cross it |
| UrlFilter.NoNewlineUpTo | entity-linking/src/2+3__automatic_entity_linking.py:22 | a stretch is newline-free exactly when it ends no later than the line end |
| UrlFilter.LastAmp | entity-linking/src/2+3__automatic_entity_linking.py:22 | the greedy `(.*)&`: the last `&` in a range, with no `&` after it in the range, or none when the range has no `&` |
| UrlFilter.GroupEnd | entity-linking/src/2+3__automatic_entity_linking.py:22 | the `&` closing the group after `title=` is the last one reachable on the line, with no `&` after it before the line ends, and none means no `&` is reachable |
| UrlFilter.FirstTitle | entity-linking/src/2+3__automatic_entity_linking.py:22 | the lazy `.*?title=`: the first `title=` from which the group closes, no earlier `title=` in range being one, and none means no such `title=` in range |
| UrlFilter.TitleAfter | entity-linking/src/2+3__automatic_entity_linking.py:22 | the lazy search after a `wikipedia.org` stays on its line and takes the first `title=` there that closes a group, and none means no `title=` there does |
| UrlFilter.LastWiki | entity-linking/src/2+3__automatic_entity_linking.py:22 | the greedy leading `.*`: the last `wikipedia.org` up to a position from which the rest matches, no later one matching, and none means none does |
| UrlFilter.EditTitle | entity-linking/src/2+3__automatic_entity_linking.py:105-106 | a returned title is the group of the match Python selects: the last `wikipedia.org` that matches, then the first `title=` after it, then the last `&` on the line; none means the pattern matches nowhere |
| UrlFilter.LastWikiMatches | entity-linking/src/2+3__automatic_entity_linking.py:105-106 | what the search returns is a match of the whole pattern |
| UrlFilter.NoWikiNoMatch | entity-linking/src/2+3__automatic_entity_linking.py:105 | when the search finds nothing, the pattern matches nowhere |
| UrlFilter.MatchIsFound | entity-linking/src/2+3__automatic_entity_linking.py:105 | every match of the pattern is found by the search |
| UrlFilter.SelectedMatchUnique | entity-linking/src/2+3__automatic_entity_linking.py:22 | at most one match is the selected one: last `wikipedia.org`, first `title=` after it, last `&` |
| UrlFilter.LastWikiIsLast | entity-linking/src/2+3__automatic_entity_linking.py:22 | when no later position up to the line end starts a matching `wikipedia.org`, no later match of the whole pattern exists |
| UrlFilter.FirstTitleIsFirst | entity-linking/src/2+3__automatic_entity_linking.py:22 | the `title=` the lazy search takes has no earlier `title=` after the same `wikipedia.org` that starts a match |
| UrlFilter.GroupEndIsLast | entity-linking/src/2+3__automatic_entity_linking.py:22 | the closing `&` found has no later `&` closing a match for the same `wikipedia.org` and `title=` |
| UrlFilter.MatchHasTitle | entity-linking/src/2+3__automatic_entity_linking.py:22 | every match lies on the first line and its `title=` is one the search after its `wikipedia.org` can reach |
| UrlFilter.LastWikiSelects | entity-linking/src/2+3__automatic_entity_linking.py:105 | what the search returns is the selected match |
| UrlFilter.SelectedGroup | entity-linking/src/2+3__automatic_entity_linking.py:105-106 | a title that is the group of a selected match is the group of any selected match |
| UrlFilter.EditTitleSelects | entity-linking/src/2+3__automatic_entity_linking.py:105-106 | for the selected match, the title returned is its group; for `...title=X&action=edit&redlink=1` that is `X&action=edit` |
| UrlFilter.FilterUrlSelects | entity-linking/src/2+3__automatic_entity_linking.py:104-107 | a Wikipedia URL with a selected match is rewritten to that match's group |
| UrlFilter.FilterUrl | entity-linking/src/2+3__automatic_entity_linking.py:96-116 | dropped exactly when the URL has no `wikipedia.org` and is a citation anchor or not `./`-relative; a `./X` link keeps `X`; a Wikipedia URL keeps itself exactly when the edit pattern does not match, and otherwise the group of the selected match |
| UrlParse.StripC0Left | entity-linking/src/6__generate_linked_docred.py:54 | `urlparse` first drops a prefix of control characters and spaces: the result is a suffix of the input that does not start with one |
| UrlParse.RemoveUnsafe | entity-linking/src/6__generate_linked_docred.py:54 | tabs, carriage returns and line feeds disappear from the URL and every other character is kept |
| UrlParse.SchemeEnd | entity-linking/src/6__generate_linked_docred.py:54 | a scheme is recognised exactly when the first colon is preceded by scheme characters only, starting with a letter |
| UrlParse.SplitScheme | entity-linking/src/6__generate_linked_docred.py:54 | without a scheme the whole URL is the rest; with one the rest is what follows its colon |
| UrlParse.AuthorityEnd | entity-linking/src/6__generate_linked_docred.py:54 | the authority runs up to the first `/`, `?` or `#`, or to the end |
| UrlParse.SplitAuthority | entity-linking/src/6__generate_linked_docred.py:54 | only a rest starting with `//` has an authority, and `//`, the authority and the remainder rebuild the rest |
| UrlParse.RFind | entity-linking/src/6__generate_linked_docred.py:54 | the last occurrence of a character, or none when it does not occur |
| UrlParse.SplitParams | entity-linking/src/6__generate_linked_docred.py:54 | a path without `;` has no parameters, and the path part is always a prefix of the input |
| UrlParse.SplitTail | entity-linking/src/6__generate_linked_docred.py:54 | the fragment is the text after the first `#` (empty when there is none); the query is the text between the first `?` and that `#`; the path is a prefix without `?` or `#`, and all of the text before the query when no parameters are split off; a remainder without `#`, `?` or `;` is all path |
| UrlParse.Parse | entity-linking/src/6__generate_linked_docred.py:54 | `urlparse` raises exactly when the authority has unbalanced square brackets; otherwise scheme and host are those split off the cleaned URL, and path, parameters, query and fragment are those `SplitTail` cuts from what follows the host |
| UrlParse.HexChar | baseline/entity-linking/predict.py:55 | every value below 16 has a hexadecimal digit that reads back as that value |
| UrlParse.Unquote | baseline/entity-linking/predict.py:55 | text without `%` is left unchanged |
| UrlParse.PercentEncodeAll | baseline/entity-linking/predict.py:55 | percent-encoding turns each ASCII character into three characters |
| UrlParse.UnquotePercentEncodeAll | baseline/entity-linking/predict.py:55 | `unquote` decodes percent-encoded ASCII text back to the original |
| UrlParse.PlusToSpace | entity-linking/src/6__generate_linked_docred.py:60 | `parse_qs` reads every `+` as a space and keeps every other character |
| UrlParse.ParseField | entity-linking/src/6__generate_linked_docred.py:60 | a query field yields a name and value exactly when it has an `=` followed by a non-empty value |
| UrlParse.FirstField | entity-linking/src/6__generate_linked_docred.py:60-62 | the first field with the given name, every earlier field having another name or none |
| UrlParse.QueryValue | entity-linking/src/6__generate_linked_docred.py:60-62 | a `title` value exists exactly when some `&`-separated field of the query is named `title`, and it is the value of the first such field |

## Left out

- HTML extraction with BeautifulSoup (`entity-linking/src/2+3__automatic_entity_linking.py:119-205`) is not modelled. The abstract text, its links, the page's links and the article names are inputs of `Linking`.
- nltk's tokenizer, English stop-word list and Snowball stemmer are parameters of `Normalize`. The word-character class is a predicate. Every property holds for any choice of them.
- The C implementation of python-Levenshtein is replaced by the recursive edit-distance definition `Similarity.Levenshtein`.
- Stages that only call external services are left out:
  - the Elasticsearch bulk load and N-Triples parsing of `1_1`;
  - the Wikipedia API and SPARQL queries of `1_5`;
  - the Selenium search of `search_wikipedia.py`;
  - the Label Studio exports, colours and pandas summaries of `1_3_a`, `4_1` and `5_1`;
  - the `es.search` call in `1_2`, which is the `search` parameter of `FindInstances`.
- `1_4__merge_wikipedia_candidate.py` is left out. It only concatenates and sorts tables with pandas.
- File I/O, dotenv, argparse, tqdm and the `main` drivers are left out. The three-pass driver of `6__generate_linked_docred.py:211-258` is modelled as one resolution pass (`Placeholders`) and one merge (`Merge.HandleInstance`).
- The HTTP requests and sleeps of the baseline search are the `search` parameter. A failed request yields an empty result list, which the parameter can return.
- Floating-point aggregates are left out, because they are float arithmetic over the modelled counts:
  - B3 through sklearn's contingency matrix;
  - the precision, recall and F1 divisions and `precision_recall_fscore_support`;
  - pandas means.
  Similarities and cluster scores are exact `real` values.
- `RankFusion.Ranking`: numpy's `argsort` tie order is not modelled. Ties among equal scores may come out in any order, and only non-decreasing score order and being a permutation are stated.
- `LinkingBaseline.PredictEntity`: as for `RankFusion.Ranking`, candidates with equal fused scores may come out in any order.
- `Linking.LinkDocument`: the page's link table is an input. `Linking.PageLinks` shows that the table `get_wiki_page` builds never has an empty key. The `WikiPage` type itself admits one, and the contracts of `Linking` do not exclude it.
- `CorefBaseline.MostFrequent`: Python picks among tied types in set iteration order. The model takes the earliest, and the contract states only maximal count.
- `LinkingBaseline.SurfaceForms`: the source lists a set in no fixed order. The model uses first-appearance order, and the contract states membership and uniqueness only.
- `Strings.Lower` and `Strings.Strip` act on ASCII letters and on the ASCII characters `str.strip()` removes (white space and the separators `\x1c`..`\x1f`) only. Unicode case mapping and non-ASCII white space such as `\x85` and `\xa0` are left out.
- `UrlParse.Unquote` decodes percent-escapes of ASCII bytes only. Multi-byte UTF-8 sequences are left out, because strings are sequences of characters here, not bytes.
- `UrlParse.Parse` omits IPv6 bracket checks and NFKC netloc validation, which Wikipedia URLs never reach.
- `Strings.ParseNat` accepts ASCII digit strings only. The signs, underscores, surrounding white space and non-ASCII digits that Python's `int()` also accepts are left out.
- `ManualDecode.DecodeText`: a text counts as a number when it is a non-empty string of ASCII digits. Python's `str.isdigit()` also accepts other Unicode digits, such as `²` or `٣`, and turns them into a `---coref` placeholder. Those are left out, because strings here carry no Unicode character classes.
- Python's negative list indices are modelled as errors wherever an index comes from data, such as relation heads and tails, slots and candidate numbers. DocRED's indices are non-negative.
- Source defects are modelled with the evident intent, each noted in the module's comment and listed under Findings with a member that keeps the code as written.
- The `out_instance` append placed after the loop in `metrics/coref_b3.py` and `metrics/ner_f1.py` is not modelled. Each instance's pairs are kept, as `MentionPairing.Compare` states.
- The cluster ids `coref_b3` gives each instance are not modelled, because they feed only the B3 computation.
- The baseline `read_docred` returns entities where the prediction loop expects documents. The model predicts for every kept entity. The `wikidata` option runs the same Wikipedia search, and `disambiguate_wikidata` is never called, so it is left out.
- In `metrics/entity_linking.py`, a reference entity without an `entity_linking` record raises `KeyError`. That case is left out: every `LinkingMetric.RefEntity` carries its gold resource. The Hit@k ratios, mean rank and confidence column are float aggregates and are left out. `LinkingMetric.HitsOrdered` states the order of the counts behind them.
- Error values carry a short message naming the Python exception. Message texts are not part of any contract.
- The `<` and `>` marking in `preprocess_instance` (`2+3:86-91`) is dead code and is left out.
- The `print` calls for documents with several annotation sets (`5_3`) and for rows without results (`4_3`) are left out. A `4_3` row without any annotation set (`annotations[0]` raising) is not modelled: each row carries the results of its first set.
- `Alignment.FillRow`: its contract speaks about the arrays through `old()`. The walk it feeds is stated by `Alignment.NeedlemanWunsch`.
- The search of `FindInstances` and `LinkingBaseline`, the resolver of `CorefBaseline` and the stemmer of `Normalize` are functions passed in. Their own behaviour is not part of the model.

## Findings

| source | as written | input that shows it | evidently intended | confidence | as-written member | corrected member |
|---|---|---|---|---|---|---|
| entity-linking/src/2+3__automatic_entity_linking.py:412-431 | the per-entity fold tests the matcher names `text-alignment`, `simplified-coreference` and `article-title`, but passes 1 and 2 record `hyperlinks-alignment`, `coreference-simplified` and `article-name` | an entity whose one linked mention was aligned through a hyperlink to any URL: no branch of the fold applies, and the entity stays unlinked | the fold tests the names the matchers record, so a mention linked by hyperlink, link in page or article name links its entity | not executed | Linking.AsWrittenFoldDropsHyperlinks | Linking.UrlLinkedMentionLinksEntity |
| entity-linking/src/2+3__automatic_entity_linking.py:433-449 | the folded entity record is bound to the loop variable `entity` only and never stored in the document, while `del mention['resource']` empties the shared mention records | an entity whose one mention was aligned through a hyperlink: the output keeps its bare mention list, with no linking | the folded record replaces the entity in the document | not executed | Linking.AsWrittenDropsEntityLinking | Linking.LinkEntities |
| entity-linking/src/6__generate_linked_docred.py:238-242 | a `---coref<n>` placeholder looks up `processed_docred[instance['dataset']]`, indexing a list by the dataset name, and then reads the key `wiki_resource`, which the records do not have | any document with a placeholder `---coref0` whose entity 0 exists: the lookup raises `TypeError` | the placeholder resolves to the linking of entity `n` of the same document | not executed | Placeholders.AsWrittenCorefNeverResolves | Placeholders.CorefTarget |
| entity-linking/src/4_3__decode_annotations.py:59-69 | the step reads `entity['entity_linking']['resource']`, but the records carry `wikipedia_resource`; the key test `search_tuple in most_common_entities` compares against the DataFrame's column labels | any document with an entity: the first read raises `KeyError`; past it, no (text, type) key is ever a column label | unlinked entities take the resource of the first mention whose key names a row, from a table keyed by (simplified text, type) | not executed | CommonKnowledge.AsWrittenNeverRelinks | CommonKnowledge.LinkDocuments |
| entity-linking/src/1_2__find_docred_instances.py:68-102 | without hits `find_candidate_elasticsearch` returns the candidate dict alone, and the caller unpacks it as a (candidate, similarity) pair | a document the search finds nothing for: the dict unpacks into its two key strings and `candidate['id'] = i` raises `TypeError` | the candidate with no resource and similarity -1 is returned with that similarity and filed as not matched | not executed | FindInstancesAsWritten.ZeroHitsDiscrepancy | FindInstances.ProcessDataset |
