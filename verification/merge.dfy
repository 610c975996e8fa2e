/** The per-document coreference merge of the final Linked-DocRED assembly
    (`handle_instance` in `6__generate_linked_docred.py`).

    Entities are first reshaped (type and linking record from the first
    mention, mentions cut down to name, sentence and span) and given a
    confidence tier. Then every entity that is non-empty and not ignored
    absorbs each later entity with the same resource: the mentions move, the
    better-tiered linking record is kept and relations are redirected. After
    that, relation indices are shifted down past every emptied slot, empty
    entities are removed, the survivors are numbered and relations from an
    entity to itself are dropped.

    The source redirects every relation as soon as an entity is absorbed;
    here the merge returns the list of redirections it made, in order, and
    each relation is redirected afterwards along that list. Relations are
    independent of each other, so the result is the same. */
module Merge {
  import opened Wrappers
  import opened Strings
  import Finalize

  /** The linking record of a resolved entity, before confidence. */
  datatype RawLink = RawLink(resource: Option<string>, matcher: Option<string>, notResource: seq<string>)

  /** A mention as the disambiguated data stores it: every mention carries
      the entity's type and linking record, and only the first is read. */
  datatype RawMention = RawMention(name: string, sentId: nat, posStart: nat, posEnd: nat, kind: string, linking: RawLink)

  /** `handle_mention`: a mention reduced to name, sentence and span. */
  datatype Mention = Mention(name: string, sentId: nat, posStart: nat, posEnd: nat)

  datatype Link = Link(resource: string, matcher: Option<string>, notResource: seq<string>, confidence: Option<char>)

  datatype Entity = Entity(kind: string, linking: Link, mentions: seq<Mention>)

  /** A DocRED relation label; `h` and `t` index the entity list. */
  datatype Relation = Relation(h: int, t: int, relKind: string, evidence: seq<nat>)

  /** Relations that pointed at entity `from` now point at entity `to`. */
  datatype Redirect = Redirect(from: nat, to: nat)

  datatype FinalEntity = FinalEntity(id: nat, kind: string, linking: Link, mentions: seq<Mention>)

  /** A disambiguated document; `labels` is absent in the test split. */
  datatype Instance = Instance(entities: seq<seq<RawMention>>, labels: Option<seq<Relation>>)

  datatype LinkedInstance = LinkedInstance(entities: seq<FinalEntity>, relations: Option<seq<Relation>>, oldEntities: Option<seq<Entity>>)

  const IgnoredPrefix := "#ignored#"

  predicate Ignored(e: Entity) {
    StartsWith(e.linking.resource, IgnoredPrefix)
  }

  predicate IsEmpty(e: Entity) {
    |e.mentions| == 0
  }

  // ---- Reshaping and confidence ----

  function ProjectMention(m: RawMention): Mention {
    Mention(m.name, m.sentId, m.posStart, m.posEnd)
  }

  function ProjectMentions(ms: seq<RawMention>): (r: seq<Mention>)
    ensures |r| == |ms|
    ensures forall k :: 0 <= k < |ms| ==> r[k] == ProjectMention(ms[k])
  {
    if |ms| == 0 then [] else [ProjectMention(ms[0])] + ProjectMentions(ms[1..])
  }

  /** `e` is the reshaped, rated form of the entity whose mentions are
      `raw`: type and linking record come from the first mention. */
  predicate RatedFrom(raw: seq<RawMention>, e: Entity)
    requires |raw| > 0
  {
    && Some(e.linking.resource) == raw[0].linking.resource
    && e.kind == raw[0].kind
    && e.mentions == ProjectMentions(raw)
    && e.linking.matcher == raw[0].linking.matcher
    && e.linking.notResource == raw[0].linking.notResource
    && Finalize.Confidence(raw[0].linking.resource, raw[0].linking.matcher) == Ok(e.linking.confidence)
  }

  /** The confidence pass over entities that all have a first mention; a
      missing resource raises. */
  function RateAll(raw: seq<seq<RawMention>>): (r: Result<seq<Entity>>)
    requires forall k :: 0 <= k < |raw| ==> |raw[k]| > 0
    ensures r.Err? <==> exists k :: 0 <= k < |raw| && raw[k][0].linking.resource.None?
    ensures r.Ok? ==> |r.value| == |raw|
    ensures r.Ok? ==> forall k :: 0 <= k < |raw| ==> RatedFrom(raw[k], r.value[k])
  {
    if |raw| == 0 then Ok([])
    else
      var head := raw[0][0];
      var confidence :- Finalize.Confidence(head.linking.resource, head.linking.matcher);
      var rest :- RateAll(raw[1..]);
      assert forall k :: 1 <= k < |raw| ==> raw[k] == raw[1..][k - 1];
      var e := Entity(head.kind, Link(head.linking.resource.value, head.linking.matcher, head.linking.notResource, confidence), ProjectMentions(raw[0]));
      assert RatedFrom(raw[0], e);
      Ok([e] + rest)
  }

  /** The new entity format and the confidence of each entity: an entity
      with no mention raises `IndexError` first, a missing resource raises
      in the confidence pass. */
  function Reshape(raw: seq<seq<RawMention>>): (r: Result<seq<Entity>>)
    ensures r.Err? <==> exists k :: 0 <= k < |raw| && (|raw[k]| == 0 || raw[k][0].linking.resource.None?)
    ensures r.Ok? ==> |r.value| == |raw| && forall k :: 0 <= k < |raw| ==> |r.value[k].mentions| == |raw[k]| > 0
  {
    if exists k :: 0 <= k < |raw| && |raw[k]| == 0 then Err("IndexError: list index out of range")
    else RateAll(raw)
  }

  // ---- Mention bookkeeping ----

  /** Every mention of every entity. */
  function MentionBag(es: seq<Entity>): multiset<Mention> {
    if |es| == 0 then multiset{} else multiset(es[0].mentions) + MentionBag(es[1..])
  }

  /** Replacing one entity changes the bag by exactly its mentions. */
  lemma {:induction false} MentionBagUpdate(es: seq<Entity>, k: nat, e: Entity)
    requires k < |es|
    ensures MentionBag(es[k := e]) + multiset(es[k].mentions) == MentionBag(es) + multiset(e.mentions)
    decreases k
  {
    if k > 0 {
      MentionBagUpdate(es[1..], k - 1, e);
      assert es[k := e][0] == es[0];
      assert es[1..][k - 1] == es[k];
      assert es[k := e][1..] == es[1..][k - 1 := e];
      var head := multiset(es[0].mentions);
      calc {
        MentionBag(es[k := e]) + multiset(es[k].mentions);
        head + MentionBag(es[1..][k - 1 := e]) + multiset(es[1..][k - 1].mentions);
        head + (MentionBag(es[1..]) + multiset(e.mentions));
        MentionBag(es) + multiset(e.mentions);
      }
    } else {
      assert es[0 := e][1..] == es[1..];
    }
  }

  predicate AllRated(es: seq<Entity>) {
    forall k :: 0 <= k < |es| ==> es[k].linking.confidence.Some?
  }

  // ---- Merge ----

  /** Entity `i` absorbs entity `j`: `j`'s mentions move to the end of
      `i`'s, and `j`'s linking record replaces `i`'s when its tier is
      strictly better. Comparing a missing tier raises. */
  function Absorb(es: seq<Entity>, i: nat, j: nat): (r: Result<seq<Entity>>)
    requires i < j < |es|
    ensures r.Err? <==> es[i].linking.confidence.None? || es[j].linking.confidence.None?
    ensures r.Ok? ==>
      && |r.value| == |es|
      && r.value[i].kind == es[i].kind
      && r.value[i].mentions == es[i].mentions + es[j].mentions
      && r.value[j] == es[j].(mentions := [])
      && (forall k :: 0 <= k < |es| && k != i && k != j ==> r.value[k] == es[k])
    ensures r.Ok? ==>
      && (r.value[i].linking == es[i].linking || r.value[i].linking == es[j].linking)
      && (r.value[i].linking != es[i].linking ==> es[j].linking.confidence.value < es[i].linking.confidence.value)
      && r.value[i].linking.confidence.value <= es[i].linking.confidence.value
      && r.value[i].linking.confidence.value <= es[j].linking.confidence.value
  {
    var better :- Finalize.ConfidenceLess(es[j].linking.confidence, es[i].linking.confidence);
    var kept := Entity(es[i].kind, if better then es[j].linking else es[i].linking, es[i].mentions + es[j].mentions);
    Ok(es[i := kept][j := es[j].(mentions := [])])
  }

  /** Absorbing moves mentions between entities and loses none. */
  lemma AbsorbKeepsMentions(es: seq<Entity>, i: nat, j: nat)
    requires i < j < |es| && Absorb(es, i, j).Ok?
    ensures MentionBag(Absorb(es, i, j).value) == MentionBag(es)
  {
    var r := Absorb(es, i, j).value;
    MovedMentions(es, i, j, r[i], r[j]);
    assert r == es[i := r[i]][j := r[j]];
  }

  lemma MovedMentions(es: seq<Entity>, i: nat, j: nat, kept: Entity, emptied: Entity)
    requires i < j < |es|
    requires kept.mentions == es[i].mentions + es[j].mentions && emptied.mentions == []
    ensures MentionBag(es[i := kept][j := emptied]) == MentionBag(es)
  {
    var mi, mj := multiset(es[i].mentions), multiset(es[j].mentions);
    MentionBagUpdate(es, i, kept);
    assert multiset(kept.mentions) == mi + mj;
    Cancel(MentionBag(es[i := kept]), MentionBag(es) + mj, mi);
    MentionBagUpdate(es[i := kept], j, emptied);
    assert es[i := kept][j] == es[j];
    Cancel(MentionBag(es[i := kept][j := emptied]), MentionBag(es), mj);
  }

  lemma Cancel<T>(a: multiset<T>, b: multiset<T>, c: multiset<T>)
    requires a + c == b + c
    ensures a == b
  {
    forall x
      ensures a[x] == b[x]
    {
      assert (a + c)[x] == (b + c)[x];
    }
  }

  /** The inner loop for entity `i`, from entity `j` on: every entity with
      `i`'s resource is absorbed into `i`. Returns the entities and the
      redirections made, in order. */
  function MergeFrom(es: seq<Entity>, i: nat, j: nat): (r: Result<(seq<Entity>, seq<Redirect>)>)
    requires i < j <= |es|
    ensures AllRated(es) ==> r.Ok? && AllRated(r.value.0)
    ensures r.Ok? ==>
      && |r.value.0| == |es|
    decreases |es| - j
  {
    if j == |es| then Ok((es, []))
    else if es[j].linking.resource == es[i].linking.resource then
      var absorbed :- Absorb(es, i, j);
      var rest :- MergeFrom(absorbed, i, j + 1);
      Ok((rest.0, [Redirect(j, i)] + rest.1))
    else MergeFrom(es, i, j + 1)
  }

  /** The inner loop keeps every entity's resource. */
  lemma {:induction false} MergeFromKeepsResources(es: seq<Entity>, i: nat, j: nat)
    requires i < j <= |es| && MergeFrom(es, i, j).Ok?
    ensures forall k :: 0 <= k < |es| ==> MergeFrom(es, i, j).value.0[k].linking.resource == es[k].linking.resource
    decreases |es| - j
  {
    if j < |es| {
      if es[j].linking.resource == es[i].linking.resource {
        MergeFromAbsorbs(es, i, j);
        MergeFromKeepsResources(Absorb(es, i, j).value, i, j + 1);
      } else {
        MergeFromSkips(es, i, j);
        MergeFromKeepsResources(es, i, j + 1);
      }
    }
  }

  /** The inner loop loses no mention. */
  lemma {:induction false} MergeFromKeepsMentions(es: seq<Entity>, i: nat, j: nat)
    requires i < j <= |es| && MergeFrom(es, i, j).Ok?
    ensures MentionBag(MergeFrom(es, i, j).value.0) == MentionBag(es)
    decreases |es| - j
  {
    if j < |es| {
      if es[j].linking.resource == es[i].linking.resource {
        MergeFromAbsorbs(es, i, j);
        AbsorbKeepsMentions(es, i, j);
        MergeFromKeepsMentions(Absorb(es, i, j).value, i, j + 1);
      } else {
        MergeFromSkips(es, i, j);
        MergeFromKeepsMentions(es, i, j + 1);
      }
    }
  }

  /** The inner loop touches only entity `i` and the entities it empties,
      and afterwards no entity from `j` on shares `i`'s resource unless it is
      empty. */
  lemma {:induction false} MergeFromFrame(es: seq<Entity>, i: nat, j: nat)
    requires i < j <= |es| && MergeFrom(es, i, j).Ok?
    ensures var es2 := MergeFrom(es, i, j).value.0;
      && (forall k :: 0 <= k < |es| && k != i ==> es2[k].mentions == es[k].mentions || es2[k].mentions == [])
      && (forall k :: 0 <= k < j && k != i ==> es2[k] == es[k])
      && |es2[i].mentions| >= |es[i].mentions|
    ensures var es2 := MergeFrom(es, i, j).value.0;
      forall b :: j <= b < |es| && es[b].linking.resource == es[i].linking.resource ==> IsEmpty(es2[b])
    decreases |es| - j
  {
    if j < |es| {
      if es[j].linking.resource == es[i].linking.resource {
        MergeFromAbsorbs(es, i, j);
        MergeFromFrame(Absorb(es, i, j).value, i, j + 1);
      } else {
        MergeFromSkips(es, i, j);
        MergeFromFrame(es, i, j + 1);
      }
    }
  }

  /** The outer loop from entity `i` on: a non-empty entity whose resource
      does not start with `#ignored#` absorbs the later entities sharing its
      resource. */
  function MergeAll(es: seq<Entity>, i: nat): (r: Result<(seq<Entity>, seq<Redirect>)>)
    requires i <= |es|
    ensures AllRated(es) ==> r.Ok?
    ensures r.Ok? ==>
      && |r.value.0| == |es|
    decreases |es| - i
  {
    if i == |es| then Ok((es, []))
    else if !Ignored(es[i]) && !IsEmpty(es[i]) then
      var inner :- MergeFrom(es, i, i + 1);
      var rest :- MergeAll(inner.0, i + 1);
      Ok((rest.0, inner.1 + rest.1))
    else MergeAll(es, i + 1)
  }

  /** The outer loop keeps every entity's resource. */
  lemma {:induction false} MergeAllKeepsResources(es: seq<Entity>, i: nat)
    requires i <= |es| && MergeAll(es, i).Ok?
    ensures forall k :: 0 <= k < |es| ==> MergeAll(es, i).value.0[k].linking.resource == es[k].linking.resource
    decreases |es| - i
  {
    if i < |es| {
      if !Ignored(es[i]) && !IsEmpty(es[i]) {
        var inner := MergeFrom(es, i, i + 1).value;
        MergeFromKeepsResources(es, i, i + 1);
        MergeAllKeepsResources(inner.0, i + 1);
      } else {
        MergeAllKeepsResources(es, i + 1);
      }
    }
  }

  /** The outer loop loses no mention. */
  lemma {:induction false} MergeAllKeepsMentions(es: seq<Entity>, i: nat)
    requires i <= |es| && MergeAll(es, i).Ok?
    ensures MentionBag(MergeAll(es, i).value.0) == MentionBag(es)
    decreases |es| - i
  {
    if i < |es| {
      if !Ignored(es[i]) && !IsEmpty(es[i]) {
        var inner := MergeFrom(es, i, i + 1).value;
        MergeFromKeepsMentions(es, i, i + 1);
        MergeAllKeepsMentions(inner.0, i + 1);
      } else {
        MergeAllKeepsMentions(es, i + 1);
      }
    }
  }

  /** Entities before `i` are settled: none of them, when non-empty and not
      ignored, shares its resource with a later non-empty entity. */
  predicate Settled(es: seq<Entity>, i: nat) {
    forall a, b ::
      && 0 <= a < i && a < b < |es| && !IsEmpty(es[a]) && !Ignored(es[a])
      && es[b].linking.resource == es[a].linking.resource
      ==> IsEmpty(es[b])
  }

  /** No two non-empty entities share a resource other than an ignored
      one. */
  predicate Distinct(es: seq<Entity>) {
    forall a, b :: 0 <= a < b < |es| && !IsEmpty(es[a]) && !IsEmpty(es[b]) && !Ignored(es[a]) ==>
      es[a].linking.resource != es[b].linking.resource
  }

  /** After the merge, no two non-empty entities share a non-ignored
      resource. */
  lemma {:induction false} MergeAllSeparates(es: seq<Entity>, i: nat)
    requires i <= |es| && Settled(es, i) && MergeAll(es, i).Ok?
    ensures Distinct(MergeAll(es, i).value.0)
    decreases |es| - i
  {
    if i == |es| {
    } else if !Ignored(es[i]) && !IsEmpty(es[i]) {
      MergeAllMerges(es, i);
      var inner := MergeFrom(es, i, i + 1).value;
      MergeFromFrame(es, i, i + 1);
      MergeFromKeepsResources(es, i, i + 1);
      assert Settled(inner.0, i + 1) by {
        forall a, b | 0 <= a < i + 1 && a < b < |es| && !IsEmpty(inner.0[a]) && !Ignored(inner.0[a])
          && inner.0[b].linking.resource == inner.0[a].linking.resource
          ensures IsEmpty(inner.0[b])
        {
          if a < i {
            assert inner.0[a] == es[a];
          }
        }
      }
      MergeAllSeparates(inner.0, i + 1);
    } else {
      MergeAllSkips(es, i);
      MergeAllSeparates(es, i + 1);
    }
  }

  // ---- Following the redirections ----

  /** Where an entity index ends up after the redirections, in order. */
  function Follow(log: seq<Redirect>, x: int): int {
    if |log| == 0 then x
    else Follow(log[1..], if x == log[0].from then log[0].to else x)
  }

  lemma {:induction false} FollowAppend(l1: seq<Redirect>, l2: seq<Redirect>, x: int)
    ensures Follow(l1 + l2, x) == Follow(l2, Follow(l1, x))
    decreases |l1|
  {
    if |l1| == 0 {
      assert l1 + l2 == l2;
    } else {
      assert (l1 + l2)[0] == l1[0];
      assert (l1 + l2)[1..] == l1[1..] + l2;
      FollowAppend(l1[1..], l2, if x == l1[0].from then l1[0].to else x);
    }
  }

  /** Every original entity's mentions are found, with its resource, at the
      index its redirections lead to. */
  predicate Tracks(es: seq<Entity>, es2: seq<Entity>, log: seq<Redirect>) {
    |es2| == |es| && forall x :: 0 <= x < |es| ==> TracksAt(es, es2, log, x)
  }

  /** Entity `x`'s mentions and resource are at the index its redirections
      lead to. */
  predicate TracksAt(es: seq<Entity>, es2: seq<Entity>, log: seq<Redirect>, x: nat)
    requires x < |es| == |es2|
  {
    && 0 <= Follow(log, x) < |es|
    && multiset(es[x].mentions) <= multiset(es2[Follow(log, x)].mentions)
    && es2[Follow(log, x)].linking.resource == es[x].linking.resource
  }

  lemma {:induction false} TracksCompose(es: seq<Entity>, es1: seq<Entity>, es2: seq<Entity>, l1: seq<Redirect>, l2: seq<Redirect>)
    requires Tracks(es, es1, l1) && Tracks(es1, es2, l2)
    ensures Tracks(es, es2, l1 + l2)
  {
    forall x | 0 <= x < |es|
      ensures TracksAt(es, es2, l1 + l2, x)
    {
      FollowAppend(l1, l2, x);
      assert TracksAt(es, es1, l1, x);
      assert TracksAt(es1, es2, l2, Follow(l1, x));
    }
  }

  lemma {:induction false} MergeFromTracks(es: seq<Entity>, i: nat, j: nat)
    requires i < j <= |es| && MergeFrom(es, i, j).Ok?
    ensures Tracks(es, MergeFrom(es, i, j).value.0, MergeFrom(es, i, j).value.1)
    decreases |es| - j
  {
    if j == |es| {
    } else if es[j].linking.resource == es[i].linking.resource {
      MergeFromAbsorbs(es, i, j);
      var absorbed := Absorb(es, i, j).value;
      AbsorbTracks(es, i, j);
      MergeFromTracks(absorbed, i, j + 1);
      var rest := MergeFrom(absorbed, i, j + 1).value;
      TracksCompose(es, absorbed, rest.0, [Redirect(j, i)], rest.1);
    } else {
      MergeFromSkips(es, i, j);
      MergeFromTracks(es, i, j + 1);
    }
  }

  lemma MergeFromAbsorbs(es: seq<Entity>, i: nat, j: nat)
    requires i < j < |es| && MergeFrom(es, i, j).Ok? && es[j].linking.resource == es[i].linking.resource
    ensures Absorb(es, i, j).Ok? && MergeFrom(Absorb(es, i, j).value, i, j + 1).Ok?
    ensures var rest := MergeFrom(Absorb(es, i, j).value, i, j + 1).value;
      MergeFrom(es, i, j).value == (rest.0, [Redirect(j, i)] + rest.1)
  {
  }

  lemma MergeAllMerges(es: seq<Entity>, i: nat)
    requires i < |es| && MergeAll(es, i).Ok? && !Ignored(es[i]) && !IsEmpty(es[i])
    ensures MergeFrom(es, i, i + 1).Ok? && MergeAll(MergeFrom(es, i, i + 1).value.0, i + 1).Ok?
    ensures var inner := MergeFrom(es, i, i + 1).value;
      var rest := MergeAll(inner.0, i + 1).value;
      MergeAll(es, i).value == (rest.0, inner.1 + rest.1)
  {
  }

  lemma MergeAllSkips(es: seq<Entity>, i: nat)
    requires i < |es| && (Ignored(es[i]) || IsEmpty(es[i]))
    ensures MergeAll(es, i) == MergeAll(es, i + 1)
  {
  }

  lemma MergeFromSkips(es: seq<Entity>, i: nat, j: nat)
    requires i < j < |es| && es[j].linking.resource != es[i].linking.resource
    ensures MergeFrom(es, i, j) == MergeFrom(es, i, j + 1)
  {
  }

  lemma AbsorbTracks(es: seq<Entity>, i: nat, j: nat)
    requires i < j < |es| && Absorb(es, i, j).Ok? && es[j].linking.resource == es[i].linking.resource
    ensures Tracks(es, Absorb(es, i, j).value, [Redirect(j, i)])
  {
    var absorbed := Absorb(es, i, j).value;
    var step := [Redirect(j, i)];
    forall x | 0 <= x < |es|
      ensures TracksAt(es, absorbed, step, x)
    {
      assert step[1..] == [];
      assert Follow(step, x) == if x == j then i else x;
    }
  }

  lemma {:induction false} MergeAllTracks(es: seq<Entity>, i: nat)
    requires i <= |es| && MergeAll(es, i).Ok?
    ensures Tracks(es, MergeAll(es, i).value.0, MergeAll(es, i).value.1)
    decreases |es| - i
  {
    if i == |es| {
      assert forall x :: Follow([], x) == x;
    } else if !Ignored(es[i]) && !IsEmpty(es[i]) {
      var inner := MergeFrom(es, i, i + 1).value;
      MergeFromTracks(es, i, i + 1);
      MergeAllTracks(inner.0, i + 1);
      TracksCompose(es, inner.0, MergeAll(inner.0, i + 1).value.0, inner.1, MergeAll(inner.0, i + 1).value.1);
    } else {
      MergeAllTracks(es, i + 1);
    }
  }

  // ---- Shifting indices past removed entities ----

  /** The number of empty entities among the first `k`. */
  function EmptyBelow(es: seq<Entity>, k: nat): (r: nat)
    requires k <= |es|
    ensures r <= k
  {
    if k == 0 then 0 else EmptyBelow(es, k - 1) + (if IsEmpty(es[k - 1]) then 1 else 0)
  }

  /** The decrement loop over slots `i - 1` down to `0`: each empty slot
      below the index moves it down by one. */
  function Shift(es: seq<Entity>, i: nat, x: int): int
    requires i <= |es|
    decreases i
  {
    if i == 0 then x
    else Shift(es, i - 1, if IsEmpty(es[i - 1]) && x >= i then x - 1 else x)
  }

  function Min(a: nat, b: nat): nat {
    if a <= b then a else b
  }

  /** Walking the slots downwards moves an index down once per empty slot
      below it. */
  lemma {:induction false} ShiftCountsEmptyBelow(es: seq<Entity>, i: nat, x: int)
    requires i <= |es| && x >= 0
    ensures Shift(es, i, x) == x - EmptyBelow(es, Min(x, i))
    decreases i
  {
    if i > 0 {
      if IsEmpty(es[i - 1]) && x >= i {
        ShiftCountsEmptyBelow(es, i - 1, x - 1);
      } else {
        ShiftCountsEmptyBelow(es, i - 1, x);
      }
    }
  }

  /** A negative index is never shifted. */
  lemma {:induction false} ShiftKeepsNegative(es: seq<Entity>, i: nat, x: int)
    requires i <= |es| && x < 0
    ensures Shift(es, i, x) == x
    decreases i
  {
    if i > 0 {
      ShiftKeepsNegative(es, i - 1, x);
    }
  }

  /** The entities that still have mentions, in order. */
  function Compact(es: seq<Entity>): (r: seq<Entity>)
    ensures forall k :: 0 <= k < |r| ==> !IsEmpty(r[k])
    ensures forall e :: e in r ==> e in es
  {
    if |es| == 0 then []
    else
      var rest := Compact(es[..|es| - 1]);
      assert forall e :: e in es[..|es| - 1] ==> e in es;
      if IsEmpty(es[|es| - 1]) then rest else rest + [es[|es| - 1]]
  }

  /** Compaction removes exactly the empty entities and keeps every
      mention. */
  lemma {:induction false} CompactCounts(es: seq<Entity>)
    ensures |Compact(es)| == |es| - EmptyBelow(es, |es|)
    decreases |es|
  {
    if |es| > 0 {
      CompactCounts(es[..|es| - 1]);
      EmptyBelowPrefixAt(es, |es| - 1, |es| - 1);
    }
  }

  lemma {:induction false} CompactKeepsMentions(es: seq<Entity>)
    ensures MentionBag(Compact(es)) == MentionBag(es)
    decreases |es|
  {
    if |es| > 0 {
      var init, last := es[..|es| - 1], es[|es| - 1];
      CompactKeepsMentions(init);
      MentionBagSnoc(init, last);
      assert init + [last] == es;
      MentionBagSnoc(Compact(init), last);
    }
  }

  lemma {:induction false} EmptyBelowPrefix(es: seq<Entity>, n: nat)
    requires n <= |es|
    ensures forall k :: 0 <= k <= n ==> EmptyBelow(es[..n], k) == EmptyBelow(es, k)
  {
    forall k | 0 <= k <= n
      ensures EmptyBelow(es[..n], k) == EmptyBelow(es, k)
    {
      EmptyBelowPrefixAt(es, n, k);
    }
  }

  lemma {:induction false} EmptyBelowPrefixAt(es: seq<Entity>, n: nat, k: nat)
    requires k <= n <= |es|
    ensures EmptyBelow(es[..n], k) == EmptyBelow(es, k)
    decreases k
  {
    if k > 0 {
      EmptyBelowPrefixAt(es, n, k - 1);
    }
  }

  lemma {:induction false} MentionBagSnoc(es: seq<Entity>, e: Entity)
    ensures MentionBag(es + [e]) == MentionBag(es) + multiset(e.mentions)
    decreases |es|
  {
    if |es| > 0 {
      assert (es + [e])[1..] == es[1..] + [e];
      MentionBagSnoc(es[1..], e);
    }
  }

  /** A non-empty entity at `x` sits in the compacted list at `x` minus the
      number of empty entities below it. */
  lemma {:induction false} CompactIndex(es: seq<Entity>, x: nat)
    requires x < |es| && !IsEmpty(es[x])
    ensures x - EmptyBelow(es, x) < |Compact(es)|
    ensures Compact(es)[x - EmptyBelow(es, x)] == es[x]
    decreases |es|
  {
    var init := es[..|es| - 1];
    EmptyBelowPrefix(es, |es| - 1);
    CompactCounts(init);
    if x < |es| - 1 {
      CompactIndex(init, x);
      assert init[x] == es[x];
    }
  }

  /** Dropping empty entities keeps non-empty ones apart. */
  lemma {:induction false} CompactDistinct(es: seq<Entity>)
    requires Distinct(es)
    ensures Distinct(Compact(es))
    decreases |es|
  {
    if |es| > 0 {
      var init := es[..|es| - 1];
      var last := es[|es| - 1];
      assert Distinct(init);
      CompactDistinct(init);
      var rest := Compact(init);
      if !IsEmpty(last) {
        forall a | 0 <= a < |rest| && !Ignored(rest[a])
          ensures rest[a].linking.resource != last.linking.resource
        {
          assert rest[a] in init;
          var k :| 0 <= k < |init| && init[k] == rest[a];
          assert es[k] == rest[a];
        }
      }
    }
  }

  // ---- Numbering and relation clean-up ----

  /** `entity['id'] = i` over the kept entities. */
  function Number(es: seq<Entity>): (r: seq<FinalEntity>)
    ensures |r| == |es|
    ensures forall k :: 0 <= k < |es| ==> r[k] == FinalEntity(k, es[k].kind, es[k].linking, es[k].mentions)
  {
    seq(|es|, k requires 0 <= k < |es| => FinalEntity(k, es[k].kind, es[k].linking, es[k].mentions))
  }

  /** A relation after the redirections and the shift. */
  function Relocate(es: seq<Entity>, log: seq<Redirect>, rel: Relation): Relation {
    rel.(h := Shift(es, |es|, Follow(log, rel.h)), t := Shift(es, |es|, Follow(log, rel.t)))
  }

  function RelocateAll(es: seq<Entity>, log: seq<Redirect>, rels: seq<Relation>): (r: seq<Relation>)
    ensures |r| == |rels|
    ensures forall k :: 0 <= k < |rels| ==> r[k] == Relocate(es, log, rels[k])
  {
    seq(|rels|, k requires 0 <= k < |rels| => Relocate(es, log, rels[k]))
  }

  /** Relations from an entity to itself are dropped; the others keep their
      order. */
  function DropSelfRelations(rels: seq<Relation>): (r: seq<Relation>)
    ensures forall k :: 0 <= k < |r| ==> r[k].h != r[k].t
    ensures forall rel :: rel in r <==> rel in rels && rel.h != rel.t
    ensures |r| <= |rels|
  {
    if |rels| == 0 then []
    else if rels[0].h == rels[0].t then DropSelfRelations(rels[1..])
    else [rels[0]] + DropSelfRelations(rels[1..])
  }

  // ---- The instance ----

  /** `handle_instance`, without the text and title copied back from the
      DocRED instance. */
  function HandleInstance(inst: Instance): (r: Result<LinkedInstance>)
    ensures r.Err? <==> Reshape(inst.entities).Err? || MergeAll(Reshape(inst.entities).value, 0).Err?
    ensures r.Ok? ==> (r.value.relations.None? <==> inst.labels.None?)
    ensures r.Ok? ==> (r.value.oldEntities.Some? <==> inst.labels.None?)
    ensures r.Ok? && r.value.oldEntities.Some? ==> r.value.oldEntities.value == Reshape(inst.entities).value
    ensures r.Ok? ==> forall k :: 0 <= k < |r.value.entities| ==> r.value.entities[k].id == k && |r.value.entities[k].mentions| > 0
    ensures r.Ok? && r.value.relations.Some? ==> forall k :: 0 <= k < |r.value.relations.value| ==>
      r.value.relations.value[k].h != r.value.relations.value[k].t
  {
    var es :- Reshape(inst.entities);
    var merged :- MergeAll(es, 0);
    var kept := Compact(merged.0);
    Ok(LinkedInstance(
      Number(kept),
      match inst.labels
      case None => None
      case Some(rels) => Some(DropSelfRelations(RelocateAll(merged.0, merged.1, rels))),
      if inst.labels.None? then Some(es) else None))
  }

  function Mentions(es: seq<FinalEntity>): multiset<Mention> {
    if |es| == 0 then multiset{} else multiset(es[0].mentions) + Mentions(es[1..])
  }

  lemma {:induction false} SameMentions(fs: seq<FinalEntity>, es: seq<Entity>)
    requires |fs| == |es| && forall k :: 0 <= k < |es| ==> fs[k].mentions == es[k].mentions
    ensures Mentions(fs) == MentionBag(es)
    decreases |es|
  {
    if |es| > 0 {
      SameMentions(fs[1..], es[1..]);
    }
  }

  /** The merge keeps every mention, and no two output entities share a
      resource unless it is an ignored one. */
  lemma MergeKeepsMentionsApart(inst: Instance)
    requires HandleInstance(inst).Ok?
    ensures Mentions(HandleInstance(inst).value.entities) == MentionBag(Reshape(inst.entities).value)
    ensures var out := HandleInstance(inst).value.entities;
      forall a, b ::
        && 0 <= a < b < |out|
        && !StartsWith(out[a].linking.resource, IgnoredPrefix)
        ==> out[a].linking.resource != out[b].linking.resource
  {
    var es := Reshape(inst.entities).value;
    var merged := MergeAll(es, 0).value;
    SameMentions(Number(Compact(merged.0)), Compact(merged.0));
    CompactKeepsMentions(merged.0);
    MergeAllKeepsMentions(es, 0);
    MergeAllSeparates(es, 0);
    CompactDistinct(merged.0);
  }

  /** A relation between two original entities ends up between the entities
      that absorbed them: its indices are valid after removal, each
      surviving entity holds the original entity's mentions and resource,
      and the relation is kept exactly when the two differ. */
  lemma RelationsFollowTheirEntities(inst: Instance, rel: Relation)
    requires HandleInstance(inst).Ok? && inst.labels.Some? && rel in inst.labels.value
    requires 0 <= rel.h < |inst.entities| && 0 <= rel.t < |inst.entities|
    ensures var out := HandleInstance(inst).value;
      var es := Reshape(inst.entities).value;
      var moved := Relocate(MergeAll(es, 0).value.0, MergeAll(es, 0).value.1, rel);
      && 0 <= moved.h < |out.entities| && 0 <= moved.t < |out.entities|
      && multiset(es[rel.h].mentions) <= multiset(out.entities[moved.h].mentions)
      && multiset(es[rel.t].mentions) <= multiset(out.entities[moved.t].mentions)
      && out.entities[moved.h].linking.resource == es[rel.h].linking.resource
      && out.entities[moved.t].linking.resource == es[rel.t].linking.resource
      && (moved in out.relations.value <==> moved.h != moved.t)
  {
    var es := Reshape(inst.entities).value;
    var merged := MergeAll(es, 0).value;
    HandleInstanceParts(inst);
    assert |es| == |inst.entities|;
    assert !IsEmpty(es[rel.h]) && !IsEmpty(es[rel.t]);
    MergeAllTracks(es, 0);
    RelocatedRelation(es, merged.0, merged.1, inst.labels.value, rel);
  }

  lemma RelocatedRelation(es: seq<Entity>, merged: seq<Entity>, log: seq<Redirect>, rels: seq<Relation>, rel: Relation)
    requires Tracks(es, merged, log) && rel in rels
    requires 0 <= rel.h < |es| && 0 <= rel.t < |es| && !IsEmpty(es[rel.h]) && !IsEmpty(es[rel.t])
    ensures var out := Number(Compact(merged));
      var moved := Relocate(merged, log, rel);
      && 0 <= moved.h < |out| && 0 <= moved.t < |out|
      && multiset(es[rel.h].mentions) <= multiset(out[moved.h].mentions)
      && multiset(es[rel.t].mentions) <= multiset(out[moved.t].mentions)
      && out[moved.h].linking.resource == es[rel.h].linking.resource
      && out[moved.t].linking.resource == es[rel.t].linking.resource
      && (moved in DropSelfRelations(RelocateAll(merged, log, rels)) <==> moved.h != moved.t)
  {
    EndpointSurvives(es, merged, log, rel.h);
    EndpointSurvives(es, merged, log, rel.t);
    var k :| 0 <= k < |rels| && rels[k] == rel;
    assert RelocateAll(merged, log, rels)[k] == Relocate(merged, log, rel);
  }

  lemma HandleInstanceParts(inst: Instance)
    requires HandleInstance(inst).Ok?
    ensures var out := HandleInstance(inst).value;
      var es := Reshape(inst.entities).value;
      var merged := MergeAll(es, 0).value;
      && out.entities == Number(Compact(merged.0))
      && (inst.labels.Some? ==> out.relations == Some(DropSelfRelations(RelocateAll(merged.0, merged.1, inst.labels.value))))
  {
  }

  /** One endpoint: the entity its redirections lead to is non-empty, so
      the shift sends it to that entity's place in the compacted list. */
  lemma EndpointSurvives(es: seq<Entity>, merged: seq<Entity>, log: seq<Redirect>, x: int)
    requires Tracks(es, merged, log) && 0 <= x < |es| && !IsEmpty(es[x])
    ensures 0 <= Follow(log, x) < |merged|
    ensures var y := Shift(merged, |merged|, Follow(log, x));
      && 0 <= y < |Compact(merged)|
      && Compact(merged)[y] == merged[Follow(log, x)]
      && multiset(es[x].mentions) <= multiset(Number(Compact(merged))[y].mentions)
      && Number(Compact(merged))[y].linking.resource == es[x].linking.resource
  {
    var f := Follow(log, x);
    assert TracksAt(es, merged, log, x);
    assert es[x].mentions[0] in multiset(merged[f].mentions);
    ShiftCountsEmptyBelow(merged, |merged|, f);
    CompactIndex(merged, f);
  }
}
