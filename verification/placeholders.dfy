/** Placeholder resolution in the final Linked-DocRED assembly (the loop
    body of `main` in `6__generate_linked_docred.py`).

    Manual annotation leaves placeholders starting with `---` in place of a
    resource. One pass over a document resolves them in entity order:
    `---ignored` becomes `#ignored#`, `---new` a freshly minted
    `#DocRED-<n>#` id, any other `---new…` string one id shared by every
    entity carrying the same string, `---title` the resource of the
    document's own article (or a fresh id when there is none), and
    `---coref<n>` a copy of entity `n`'s record once that entity is
    resolved. Ids are minted from a counter that only grows.

    The source looks the coreferent entity up in `processed_docred`
    indexed by the dataset name and reads a key `wiki_resource` that no
    record has; the evident intent, modelled here, is entity `n` of the same
    document and its `wikipedia_resource`. */
module Placeholders {
  import opened Wrappers
  import opened Strings
  import Finalize

  datatype Link = Link(resource: Option<string>, matcher: Option<string>, notResource: seq<string>)

  /** The counter behind minted ids and the ids shared by `---new…`
      strings, both kept across documents. */
  datatype State = State(counter: nat, shared: map<string, string>)

  const PlaceholderPrefix := "---"
  const MintPrefix := "#DocRED-"

  /** The id minted for counter value `c`. */
  function Mint(c: nat): string {
    MintPrefix + NatToString(c) + "#"
  }

  /** The counter value a minted id was made from. */
  function MintNumber(s: string): (r: Option<nat>)
    ensures r.Some? ==> s == Mint(r.value)
  {
    if |s| >= |MintPrefix| + 2 && StartsWith(s, MintPrefix) && s[|s| - 1] == '#' then
      var digits := s[|MintPrefix|..|s| - 1];
      match ParseNat(digits)
      case Ok(n) =>
        if NatToString(n) == digits then
          assert s == s[..|MintPrefix|] + digits + [s[|s| - 1]];
          Some(n)
        else None
      case Err(_) => None
    else None
  }

  /** Every minted id reads back as the counter value it was made from. */
  lemma MintNumberOfMint(c: nat)
    ensures MintNumber(Mint(c)) == Some(c)
  {
    var s := Mint(c);
    var digits := NatToString(c);
    assert s[..|MintPrefix|] == MintPrefix;
    assert s[|MintPrefix|..|s| - 1] == digits;
  }

  /** Different counter values give different ids. */
  lemma MintInjective(a: nat, b: nat)
    requires Mint(a) == Mint(b)
    ensures a == b
  {
    MintNumberOfMint(a);
    MintNumberOfMint(b);
  }

  /** A minted id falls in confidence tier C. */
  lemma MintIsTierC(c: nat, matcher: Option<string>)
    ensures Finalize.Confidence(Some(Mint(c)), matcher) == Ok(Some('C'))
  {
    assert Mint(c)[..7] == "#DocRED";
  }

  /** `wikipedia_not_resource` defaults to the empty list in the first
      loop of `main`, after the resource is normalised. */
  function PrepareLink(resource: Option<string>, matcher: Option<string>, notResource: Option<seq<string>>): (r: Result<Link>)
    ensures r.Err? <==> Finalize.NormaliseResource(resource).Err?
    ensures r.Ok? ==> Finalize.NormaliseResource(resource) == Ok(r.value.resource) && r.value.matcher == matcher
    ensures r.Ok? ==> (notResource.None? ==> r.value.notResource == []) && (notResource.Some? ==> r.value.notResource == notResource.value)
  {
    var normalised :- Finalize.NormaliseResource(resource);
    Ok(Link(normalised, matcher, if notResource.Some? then notResource.value else []))
  }

  /** The entity `---coref<n>` refers to, when the suffix is a number within
      the document. */
  function CorefTarget(links: seq<Link>, w: string): (r: Result<nat>)
    requires |w| >= 8
    ensures r.Ok? ==> r.value < |links| && IsDigits(w[8..]) && DigitsValue(w[8..]) == r.value
    ensures r.Err? <==> !IsDigits(w[8..]) || DigitsValue(w[8..]) >= |links|
  {
    var n :- ParseNat(w[8..]);
    if n < |links| then Ok(n) else Err("IndexError: list index out of range")
  }

  /** The `---coref<n>` lookup as written: the suffix is parsed, then the
      list of documents is indexed by the dataset name, which raises. Past
      that, the record read would raise as well, since no record has a
      `wiki_resource` key. */
  function AsWrittenCorefTarget(w: string): (r: Result<nat>)
    requires |w| >= 8
    ensures r.Err?
  {
    if IsDigits(w[8..]) then Err("TypeError: list indices must be integers or slices, not str")
    else Err("ValueError: invalid literal for int()")
  }

  /** A placeholder naming an entity of the document never resolves as
      written, while the intended lookup finds that entity. */
  lemma AsWrittenCorefNeverResolves(links: seq<Link>, n: nat)
    requires n < |links|
    ensures AsWrittenCorefTarget("---coref" + NatToString(n)).Err?
    ensures CorefTarget(links, "---coref" + NatToString(n)) == Ok(n)
  {
    assert ("---coref" + NatToString(n))[8..] == NatToString(n);
  }

  /** Whether entity `a` of the document receives a freshly minted id in
      this pass: `---new`, or `---title` when the article has no
      resource. */
  predicate FreshAt(links: seq<Link>, a: nat, title: Option<Option<string>>)
    requires a < |links|
  {
    links[a].resource == Some("---new") || (links[a].resource == Some("---title") && title == Some(None))
  }

  /** A `---new…` string other than `---new` itself. */
  predicate SharedKey(w: string) {
    StartsWith(w, "---new") && w != "---new"
  }

  /** The branch of the resolution a resource string takes, checked in the
      source's order. */
  datatype Mark = Plain | IgnoredMark | NewMark | SharedMark | TitleMark | CorefMark | OtherMark

  function Classify(w: string): (r: Mark)
    ensures r.Plain? <==> !StartsWith(w, PlaceholderPrefix)
    ensures r.IgnoredMark? <==> w == "---ignored"
    ensures r.NewMark? <==> w == "---new"
    ensures r.SharedMark? <==> SharedKey(w)
    ensures r.TitleMark? <==> w == "---title"
    ensures r.CorefMark? <==> StartsWith(w, "---coref")
    ensures r.CorefMark? ==> |w| >= 8
  {
    MarksDiffer(w);
    if !StartsWith(w, PlaceholderPrefix) then Plain
    else if w == "---ignored" then IgnoredMark
    else if w == "---new" then NewMark
    else if StartsWith(w, "---new") then SharedMark
    else if w == "---title" then TitleMark
    else if StartsWith(w, "---coref") then CorefMark
    else OtherMark
  }

  /** The fixed placeholders start with `---` and exclude each other. */
  lemma MarksDiffer(w: string)
    ensures StartsWith(w, "---new") ==> StartsWith(w, PlaceholderPrefix) && !StartsWith(w, "---coref") && w != "---ignored" && w != "---title"
    ensures StartsWith(w, "---coref") ==> StartsWith(w, PlaceholderPrefix) && |w| >= 8 && w != "---ignored" && w != "---title"
    ensures w == "---ignored" || w == "---title" ==> StartsWith(w, PlaceholderPrefix)
  {
    if StartsWith(w, "---new") {
      assert w[..3] == w[..6][..3];
      assert w[3] == 'n';
    }
    if StartsWith(w, "---coref") {
      assert w[..3] == w[..8][..3];
      assert w[3] == 'c';
    }
    if w == "---ignored" || w == "---title" {
      assert w[..3] == "---";
    }
  }

  /** The next id, and the counter it uses up. */
  function Fresh(st: State): (r: (State, string))
    ensures r.0.counter == st.counter + 1 && r.0.shared == st.shared
    ensures MintNumber(r.1) == Some(r.0.counter)
  {
    MintNumberOfMint(st.counter + 1);
    (State(st.counter + 1, st.shared), Mint(st.counter + 1))
  }

  /** One entity of the pass. `title` is the lookup of the document's
      article resource (absent when the document has no row, which
      raises). A missing resource raises on `startswith`; a `---coref`
      suffix that is not a number, or names no entity, raises; so does a
      coreferent entity with no resource. */
  function ResolveLink(st: State, links: seq<Link>, k: nat, title: Option<Option<string>>): (r: Result<(State, Link)>)
    requires k < |links|
    ensures r.Ok? ==> st.counter <= r.value.0.counter <= st.counter + 1
    ensures r.Ok? ==> forall key :: key in st.shared ==> key in r.value.0.shared && r.value.0.shared[key] == st.shared[key]
    ensures r.Err? <==>
      || links[k].resource.None?
      || (links[k].resource == Some("---title") && title.None?)
      || (&& links[k].resource.Some? && StartsWith(links[k].resource.value, "---coref")
          && (|| CorefTarget(links, links[k].resource.value).Err?
              || links[CorefTarget(links, links[k].resource.value).value].resource.None?))
    ensures r.Ok? && !StartsWith(links[k].resource.value, PlaceholderPrefix) ==> r.value == (st, links[k])
    ensures r.Ok? && links[k].resource == Some("---ignored") ==> r.value.1.resource == Some("#ignored#")
    ensures r.Ok? && links[k].resource == Some("---title") && title.Some? && title.value.Some? ==>
      r.value == (st, links[k].(resource := title.value))
    ensures r.Ok? && links[k].resource.Some? && StartsWith(links[k].resource.value, "---coref") ==>
      var target := links[CorefTarget(links, links[k].resource.value).value];
      && r.value.0 == st
      && (StartsWith(target.resource.value, PlaceholderPrefix) ==> r.value.1 == links[k])
      && (!StartsWith(target.resource.value, PlaceholderPrefix) ==>
            r.value.1 == links[k].(resource := target.resource, notResource := target.notResource))
    ensures r.Ok? ==> r.value.1.matcher == links[k].matcher
  {
    var link := links[k];
    match link.resource
    case None => Err("AttributeError: 'NoneType' object has no attribute 'startswith'")
    case Some(w) =>
      match Classify(w)
      case Plain => Ok((st, link))
      case IgnoredMark => Ok((st, link.(resource := Some("#ignored#"))))
      case NewMark =>
        var (st2, id) := Fresh(st);
        Ok((st2, link.(resource := Some(id))))
      case SharedMark =>
        if w in st.shared then Ok((st, link.(resource := Some(st.shared[w]))))
        else
          var (st2, id) := Fresh(st);
          Ok((st2.(shared := st.shared[w := id]), link.(resource := Some(id))))
      case TitleMark =>
        (match title
         case None => Err("KeyError: no article row for the document")
         case Some(None) =>
           var (st2, id) := Fresh(st);
           Ok((st2, link.(resource := Some(id))))
         case Some(Some(v)) => Ok((st, link.(resource := Some(v)))))
      case CorefMark =>
        var n :- CorefTarget(links, w);
        (match links[n].resource
         case None => Err("AttributeError: 'NoneType' object has no attribute 'startswith'")
         case Some(c) =>
           if StartsWith(c, PlaceholderPrefix) then Ok((st, link))
           else Ok((st, link.(resource := links[n].resource, notResource := links[n].notResource))))
      case OtherMark => Ok((st, link))
  }

  /** What one entity mints: a key new to the shared map is the entity's
      own `---new…` string and gets the id of the counter value just used;
      a counter that moved minted the entity's new resource, which happens
      exactly for a fresh entity or a shared string seen for the first
      time. */
  lemma ResolveLinkMints(st: State, links: seq<Link>, k: nat, title: Option<Option<string>>)
    requires k < |links| && ResolveLink(st, links, k, title).Ok?
    ensures var r := ResolveLink(st, links, k, title).value;
      forall key :: key in r.0.shared && key !in st.shared ==>
        && links[k].resource == Some(key) && SharedKey(key)
        && r.0.counter == st.counter + 1
        && MintNumber(r.0.shared[key]) == Some(r.0.counter)
    ensures var r := ResolveLink(st, links, k, title).value;
      r.0.counter > st.counter ==>
        && r.1.resource.Some? && MintNumber(r.1.resource.value) == Some(r.0.counter)
        && (FreshAt(links, k, title) || (links[k].resource.Some? && SharedKey(links[k].resource.value)))
    ensures var r := ResolveLink(st, links, k, title).value;
      FreshAt(links, k, title) ==> r.0.counter == st.counter + 1
    ensures var r := ResolveLink(st, links, k, title).value;
      links[k].resource.Some? && SharedKey(links[k].resource.value) ==>
        && links[k].resource.value in r.0.shared
        && r.1.resource == Some(r.0.shared[links[k].resource.value])
        && (links[k].resource.value in st.shared ==> r.0.counter == st.counter)
  {
  }

  /** One pass over a document from entity `k` on. Each entity sees the
      records of earlier entities as this pass left them. */
  function ResolveFrom(st: State, links: seq<Link>, k: nat, title: Option<Option<string>>): (r: Result<(State, seq<Link>)>)
    requires k <= |links|
    ensures r.Ok? ==> |r.value.1| == |links| && forall a :: 0 <= a < k ==> r.value.1[a] == links[a]
    ensures r.Ok? ==> st.counter <= r.value.0.counter
    ensures r.Ok? ==> forall key :: key in st.shared ==> key in r.value.0.shared && r.value.0.shared[key] == st.shared[key]
    ensures r.Ok? ==> forall a :: k <= a < |links| && links[a].resource.Some? && !StartsWith(links[a].resource.value, PlaceholderPrefix) ==>
      r.value.1[a] == links[a]
    ensures r.Ok? ==> forall a :: k <= a < |links| && links[a].resource == Some("---ignored") ==>
      r.value.1[a].resource == Some("#ignored#")
    ensures (exists a :: k <= a < |links| && links[a].resource.None?) ==> r.Err?
    decreases |links| - k
  {
    if k == |links| then Ok((st, links))
    else
      var step :- ResolveLink(st, links, k, title);
      var next := links[k := step.1];
      assert forall a :: k < a < |links| ==> next[a] == links[a];
      ResolveFrom(step.0, next, k + 1, title)
  }

  /** `resolve` for a whole document, given the lookup of its article. */
  function ResolveDocument(st: State, links: seq<Link>, title: Option<Option<string>>): Result<(State, seq<Link>)> {
    ResolveFrom(st, links, 0, title)
  }

  /** One step of the pass: entity `k` resolves, and the rest of the pass
      runs on the updated records. */
  lemma ResolveFromStep(st: State, links: seq<Link>, k: nat, title: Option<Option<string>>)
    requires k < |links| && ResolveFrom(st, links, k, title).Ok?
    ensures ResolveLink(st, links, k, title).Ok?
    ensures var step := ResolveLink(st, links, k, title).value;
      && ResolveFrom(step.0, links[k := step.1], k + 1, title).Ok?
      && ResolveFrom(st, links, k, title) == ResolveFrom(step.0, links[k := step.1], k + 1, title)
      && ResolveFrom(st, links, k, title).value.1[k] == step.1
  {
  }

  /** Every entity carrying the same `---new…` string ends up with the one
      id the final map holds for it. */
  lemma {:induction false} SharedKeysResolveToMap(st: State, links: seq<Link>, k: nat, title: Option<Option<string>>)
    requires k <= |links| && ResolveFrom(st, links, k, title).Ok?
    ensures var r := ResolveFrom(st, links, k, title).value;
      forall a :: k <= a < |links| && links[a].resource.Some? && SharedKey(links[a].resource.value) ==>
        links[a].resource.value in r.0.shared && r.1[a].resource == Some(r.0.shared[links[a].resource.value])
    decreases |links| - k
  {
    if k < |links| {
      ResolveFromStep(st, links, k, title);
      var step := ResolveLink(st, links, k, title).value;
      ResolveLinkMints(st, links, k, title);
      var next := links[k := step.1];
      SharedKeysResolveToMap(step.0, next, k + 1, title);
      var r := ResolveFrom(st, links, k, title).value;
      forall a | k <= a < |links| && links[a].resource.Some? && SharedKey(links[a].resource.value)
        ensures links[a].resource.value in r.0.shared && r.1[a].resource == Some(r.0.shared[links[a].resource.value])
      {
        if a > k {
          assert next[a] == links[a];
        }
      }
    }
  }

  /** Fresh ids of one pass use counter values above the starting counter,
      strictly increasing in entity order, so no two are equal. */
  lemma {:induction false} FreshIdsIncrease(st: State, links: seq<Link>, k: nat, title: Option<Option<string>>)
    requires k <= |links| && ResolveFrom(st, links, k, title).Ok?
    ensures var r := ResolveFrom(st, links, k, title).value;
      forall a :: k <= a < |links| && FreshAt(links, a, title) ==>
        && r.1[a].resource.Some? && MintNumber(r.1[a].resource.value).Some?
        && st.counter < MintNumber(r.1[a].resource.value).value <= r.0.counter
    ensures var r := ResolveFrom(st, links, k, title).value;
      forall a, b :: k <= a < b < |links| && FreshAt(links, a, title) && FreshAt(links, b, title) ==>
        MintNumber(r.1[a].resource.value).value < MintNumber(r.1[b].resource.value).value
    decreases |links| - k
  {
    if k < |links| {
      ResolveFromStep(st, links, k, title);
      var step := ResolveLink(st, links, k, title).value;
      ResolveLinkMints(st, links, k, title);
      var next := links[k := step.1];
      FreshIdsIncrease(step.0, next, k + 1, title);
      var r := ResolveFrom(st, links, k, title).value;
      forall a | k < a < |links|
        ensures FreshAt(next, a, title) == FreshAt(links, a, title)
      {
        assert next[a] == links[a];
      }
      forall a | k <= a < |links| && FreshAt(links, a, title)
        ensures && r.1[a].resource.Some? && MintNumber(r.1[a].resource.value).Some?
                && st.counter < MintNumber(r.1[a].resource.value).value <= r.0.counter
      {
      }
    }
  }

  /** Keys added to the shared map during a pass get counter values above
      the starting counter. */
  lemma {:induction false} NewKeysAreFresh(st: State, links: seq<Link>, k: nat, title: Option<Option<string>>)
    requires k <= |links| && ResolveFrom(st, links, k, title).Ok?
    ensures var r := ResolveFrom(st, links, k, title).value;
      forall key :: key in r.0.shared && key !in st.shared ==>
        MintNumber(r.0.shared[key]).Some? && st.counter < MintNumber(r.0.shared[key]).value <= r.0.counter
    decreases |links| - k
  {
    if k < |links| {
      var step := ResolveLink(st, links, k, title).value;
      ResolveLinkMints(st, links, k, title);
      NewKeysAreFresh(step.0, links[k := step.1], k + 1, title);
    }
  }

  /** The shared map holds minted ids, none above the counter, and no id
      for two different strings. */
  predicate SharedOk(st: State) {
    && (forall key :: key in st.shared ==> MintNumber(st.shared[key]).Some? && MintNumber(st.shared[key]).value <= st.counter)
    && (forall k1, k2 :: k1 in st.shared && k2 in st.shared && k1 != k2 ==> st.shared[k1] != st.shared[k2])
  }

  lemma ResolveLinkKeepsSharedOk(st: State, links: seq<Link>, k: nat, title: Option<Option<string>>)
    requires k < |links| && SharedOk(st) && ResolveLink(st, links, k, title).Ok?
    ensures SharedOk(ResolveLink(st, links, k, title).value.0)
  {
    ResolveLinkMints(st, links, k, title);
    var r := ResolveLink(st, links, k, title).value;
    forall key | key in r.0.shared
      ensures MintNumber(r.0.shared[key]).Some? && MintNumber(r.0.shared[key]).value <= r.0.counter
    {
      if key in st.shared {
        assert r.0.shared[key] == st.shared[key];
      }
    }
    forall k1, k2 | k1 in r.0.shared && k2 in r.0.shared && k1 != k2
      ensures r.0.shared[k1] != r.0.shared[k2]
    {
      if k1 !in st.shared {
        assert MintNumber(r.0.shared[k1]).value > st.counter;
        assert k2 in st.shared;
      } else if k2 !in st.shared {
        assert MintNumber(r.0.shared[k2]).value > st.counter;
      }
    }
  }

  lemma {:induction false} ResolveKeepsSharedOk(st: State, links: seq<Link>, k: nat, title: Option<Option<string>>)
    requires k <= |links| && SharedOk(st) && ResolveFrom(st, links, k, title).Ok?
    ensures SharedOk(ResolveFrom(st, links, k, title).value.0)
    decreases |links| - k
  {
    if k < |links| {
      var step := ResolveLink(st, links, k, title).value;
      ResolveLinkMints(st, links, k, title);
      ResolveLinkKeepsSharedOk(st, links, k, title);
      ResolveKeepsSharedOk(step.0, links[k := step.1], k + 1, title);
    }
  }

  /** A fresh id of the pass is never the id of a shared `---new…` string,
      whether that string was seen before or during the pass. */
  lemma {:induction false} FreshIdsAvoidShared(st: State, links: seq<Link>, k: nat, title: Option<Option<string>>)
    requires k <= |links| && SharedOk(st) && ResolveFrom(st, links, k, title).Ok?
    ensures var r := ResolveFrom(st, links, k, title).value;
      forall a, key :: k <= a < |links| && FreshAt(links, a, title) && key in r.0.shared ==>
        r.1[a].resource != Some(r.0.shared[key])
    decreases |links| - k
  {
    if k < |links| {
      ResolveFromStep(st, links, k, title);
      var step := ResolveLink(st, links, k, title).value;
      var next := links[k := step.1];
      ResolveLinkKeepsSharedOk(st, links, k, title);
      FreshIdsAvoidShared(step.0, next, k + 1, title);
      if FreshAt(links, k, title) {
        FirstFreshAvoidsShared(st, links, k, title);
      }
      var r := ResolveFrom(st, links, k, title).value;
      forall a, key | k < a < |links| && FreshAt(links, a, title) && key in r.0.shared
        ensures r.1[a].resource != Some(r.0.shared[key])
      {
        assert next[a] == links[a];
        assert FreshAt(next, a, title);
      }
    }
  }

  lemma FirstFreshAvoidsShared(st: State, links: seq<Link>, k: nat, title: Option<Option<string>>)
    requires k < |links| && SharedOk(st) && ResolveFrom(st, links, k, title).Ok? && FreshAt(links, k, title)
    ensures var r := ResolveFrom(st, links, k, title).value;
      forall key :: key in r.0.shared ==> r.1[k].resource != Some(r.0.shared[key])
  {
    var step := ResolveLink(st, links, k, title).value;
    ResolveLinkMints(st, links, k, title);
    var next := links[k := step.1];
    var r := ResolveFrom(st, links, k, title).value;
    assert r == ResolveFrom(step.0, next, k + 1, title).value;
    assert r.1[k] == step.1;
    NotSharedKeys();
    assert step.0.shared == st.shared;
    NewKeysAreFresh(step.0, next, k + 1, title);
    forall key | key in r.0.shared
      ensures r.1[k].resource != Some(r.0.shared[key])
    {
      if key in st.shared {
        assert MintNumber(r.0.shared[key]).value <= st.counter;
      } else {
        assert MintNumber(r.0.shared[key]).value > step.0.counter;
      }
    }
  }

  lemma NotSharedKeys()
    ensures !SharedKey("---new") && !SharedKey("---title")
  {
    assert "---title"[3] != "---new"[3];
  }
}
