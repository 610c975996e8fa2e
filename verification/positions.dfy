/** Token and mention positions in the flat text of a DocRED document.

    A document is a sequence of sentences, each a sequence of tokens. Its
    flat text joins the tokens of each sentence with single spaces and then
    the sentences with single spaces. `compute_word_positions` gives every
    token a character range `[start, end)` by advancing a cursor by the
    token's length plus one; a mention covering tokens `[pos0, pos1)` of a
    sentence gets the character range from the start of token `pos0` to the
    end of token `pos1 - 1`. When no sentence is empty the ranges slice the
    flat text exactly. */
module Positions {
  import opened Wrappers
  import opened Strings
  import opened Normalize

  /** A DocRED mention: its text, its sentence and its token range
      `[posStart, posEnd)` within that sentence. */
  datatype Mention = Mention(name: string, sentId: nat, posStart: nat, posEnd: nat, kind: string)

  datatype TokenSpan = TokenSpan(text: string, start: nat, end: nat)

  /** A mention together with its character range in the flat text. */
  datatype PlacedMention = PlacedMention(mention: Mention, charStart: nat, charEnd: nat)

  /** The characters a run of tokens occupies when each is followed by one
      space. */
  function Width(tokens: seq<string>): nat {
    if |tokens| == 0 then 0 else |tokens[0]| + 1 + Width(tokens[1..])
  }

  function Flatten(sents: seq<seq<string>>): seq<string> {
    if |sents| == 0 then [] else sents[0] + Flatten(sents[1..])
  }

  /** `' '.join([' '.join(sent) for sent in sents])`. */
  function DocText(sents: seq<seq<string>>): string {
    JoinSpaces(seq(|sents|, i requires 0 <= i < |sents| => JoinSpaces(sents[i])))
  }

  /** `text_clean` of a document. */
  function DocTextClean(nz: Normalizer, sents: seq<seq<string>>): string {
    PreprocessAbstract(nz, DocText(sents))
  }

  /** The spans of one sentence's tokens, the cursor starting at `pos`. */
  function SentencePositions(sent: seq<string>, pos: nat): (r: seq<TokenSpan>)
    ensures |r| == |sent|
  {
    if |sent| == 0 then []
    else [TokenSpan(sent[0], pos, pos + |sent[0]|)] + SentencePositions(sent[1..], pos + |sent[0]| + 1)
  }

  function PositionsFrom(sents: seq<seq<string>>, pos: nat): (r: seq<seq<TokenSpan>>)
    ensures |r| == |sents|
    ensures forall s :: 0 <= s < |sents| ==> |r[s]| == |sents[s]|
  {
    if |sents| == 0 then []
    else [SentencePositions(sents[0], pos)] + PositionsFrom(sents[1..], pos + Width(sents[0]))
  }

  /** `compute_word_positions`. */
  function WordPositions(sents: seq<seq<string>>): (r: seq<seq<TokenSpan>>)
    ensures |r| == |sents|
    ensures forall s :: 0 <= s < |sents| ==> |r[s]| == |sents[s]|
  {
    PositionsFrom(sents, 0)
  }

  /** The character range of a mention, `[start(pos0), end(pos1 - 1)]`; an
      index outside its sentence fails. */
  function CharPos(positions: seq<seq<TokenSpan>>, m: Mention): (r: Result<(nat, nat)>)
    ensures r.Ok? <==> m.sentId < |positions| && m.posStart < |positions[m.sentId]| && 0 < m.posEnd <= |positions[m.sentId]|
    ensures r.Ok? ==> r.value == (positions[m.sentId][m.posStart].start, positions[m.sentId][m.posEnd - 1].end)
  {
    if m.sentId < |positions| && m.posStart < |positions[m.sentId]| && 0 < m.posEnd <= |positions[m.sentId]| then
      Ok((positions[m.sentId][m.posStart].start, positions[m.sentId][m.posEnd - 1].end))
    else Err("IndexError: list index out of range")
  }

  function PlaceMentions(positions: seq<seq<TokenSpan>>, ms: seq<Mention>): (r: Result<seq<PlacedMention>>)
    ensures r.Ok? <==> forall k :: 0 <= k < |ms| ==> CharPos(positions, ms[k]).Ok?
    ensures r.Ok? ==> |r.value| == |ms| && forall k :: 0 <= k < |ms| ==>
      r.value[k] == PlacedMention(ms[k], CharPos(positions, ms[k]).value.0, CharPos(positions, ms[k]).value.1)
  {
    if |ms| == 0 then Ok([])
    else
      match CharPos(positions, ms[0])
      case Err(e) => Err(e)
      case Ok(span) =>
        match PlaceMentions(positions, ms[1..])
        case Err(e) => Err(e)
        case Ok(rest) => Ok([PlacedMention(ms[0], span.0, span.1)] + rest)
  }

  /** `word_to_tokens_entities`: places every mention of every entity. */
  function PlaceEntities(positions: seq<seq<TokenSpan>>, vertexSet: seq<seq<Mention>>): (r: Result<seq<seq<PlacedMention>>>)
    ensures r.Ok? <==> forall e :: 0 <= e < |vertexSet| ==> PlaceMentions(positions, vertexSet[e]).Ok?
    ensures r.Ok? ==> |r.value| == |vertexSet| && forall e :: 0 <= e < |vertexSet| ==>
      r.value[e] == PlaceMentions(positions, vertexSet[e]).value
  {
    if |vertexSet| == 0 then Ok([])
    else
      match PlaceMentions(positions, vertexSet[0])
      case Err(e) => Err(e)
      case Ok(first) =>
        match PlaceEntities(positions, vertexSet[1..])
        case Err(e) => Err(e)
        case Ok(rest) => Ok([first] + rest)
  }

  /** The text of a document and its entities with character ranges. */
  datatype PreparedDoc = PreparedDoc(text: string, vertexSet: seq<seq<PlacedMention>>)

  /** `preprocess_instance`. */
  function PreprocessInstance(sents: seq<seq<string>>, vertexSet: seq<seq<Mention>>): Result<PreparedDoc> {
    var placed :- PlaceEntities(WordPositions(sents), vertexSet);
    Ok(PreparedDoc(DocText(sents), placed))
  }

  // ---- Facts about widths, flattening and joins ----

  lemma {:induction false} WidthAppend(a: seq<string>, b: seq<string>)
    ensures Width(a + b) == Width(a) + Width(b)
    decreases |a|
  {
    if |a| == 0 {
      assert a + b == b;
    } else {
      assert (a + b)[1..] == a[1..] + b;
      WidthAppend(a[1..], b);
    }
  }

  lemma {:induction false} JoinLength(p: seq<string>)
    requires |p| > 0
    ensures |JoinSpaces(p)| + 1 == Width(p)
    decreases |p|
  {
    if |p| > 1 {
      JoinLength(p[1..]);
    }
  }

  lemma {:induction false} JoinAppend(p: seq<string>, q: seq<string>)
    requires |p| > 0 && |q| > 0
    ensures JoinSpaces(p + q) == JoinSpaces(p) + " " + JoinSpaces(q)
    decreases |p|
  {
    assert (p + q)[0] == p[0];
    assert (p + q)[1..] == p[1..] + q;
    if |p| > 1 {
      JoinAppend(p[1..], q);
    }
  }

  lemma {:induction false} FlattenAppend(a: seq<seq<string>>, b: seq<seq<string>>)
    ensures Flatten(a + b) == Flatten(a) + Flatten(b)
    decreases |a|
  {
    if |a| == 0 {
      assert a + b == b;
    } else {
      assert (a + b)[1..] == a[1..] + b;
      FlattenAppend(a[1..], b);
    }
  }

  /** With no empty sentence, the flat text is all tokens joined by single
      spaces. */
  lemma {:induction false} DocTextJoinsAllTokens(sents: seq<seq<string>>)
    requires forall s :: 0 <= s < |sents| ==> |sents[s]| > 0
    ensures DocText(sents) == JoinSpaces(Flatten(sents))
    decreases |sents|
  {
    if |sents| > 0 {
      var joined := seq(|sents|, i requires 0 <= i < |sents| => JoinSpaces(sents[i]));
      var rest := sents[1..];
      DocTextJoinsAllTokens(rest);
      assert joined[1..] == seq(|rest|, i requires 0 <= i < |rest| => JoinSpaces(rest[i]));
      assert DocText(sents) == JoinSpaces(joined);
      if |sents| > 1 {
        FlattenNonEmpty(rest);
        JoinAppend(sents[0], Flatten(rest));
      } else {
        assert Flatten(rest) == [];
        assert Flatten(sents) == sents[0];
        assert joined == [JoinSpaces(sents[0])];
      }
    }
  }

  lemma {:induction false} FlattenNonEmpty(sents: seq<seq<string>>)
    requires |sents| > 0 && |sents[0]| > 0
    ensures |Flatten(sents)| > 0
  {
  }

  /** The tokens `k..l-1` occupy the characters `Width(toks[..k])` up to
      `Width(toks[..l]) - 1` of the joined text, and the space-joined slice
      is exactly what is there. */
  lemma JoinSlice(toks: seq<string>, k: nat, l: nat)
    requires k < l <= |toks|
    ensures Width(toks[..k]) + |JoinSpaces(toks[k..l])| + 1 == Width(toks[..l])
    ensures Width(toks[..l]) <= |JoinSpaces(toks)| + 1
    ensures JoinSpaces(toks)[Width(toks[..k])..Width(toks[..l]) - 1] == JoinSpaces(toks[k..l])
  {
    var A, B, C := toks[..k], toks[k..l], toks[l..];
    assert toks[..l] == A + B;
    WidthAppend(A, B);
    JoinLength(B);
    var BC := JoinSpaces(B + C);
    if l < |toks| {
      JoinAppend(B, C);
      assert BC == JoinSpaces(B) + " " + JoinSpaces(C);
    } else {
      assert B + C == B;
    }
    assert BC[..|JoinSpaces(B)|] == JoinSpaces(B);
    if k > 0 {
      assert toks == A + (B + C);
      JoinAppend(A, B + C);
      JoinLength(A);
      assert JoinSpaces(toks) == JoinSpaces(A) + " " + BC;
    } else {
      assert toks == B + C;
    }
    JoinLength(toks);
    WidthAppend(toks[..l], toks[l..]);
    assert toks == toks[..l] + toks[l..];
  }

  /** Where `SentencePositions` puts token `k`. */
  lemma {:induction false} SentencePositionsAt(sent: seq<string>, pos: nat, k: nat)
    requires k < |sent|
    ensures SentencePositions(sent, pos)[k] ==
      TokenSpan(sent[k], pos + Width(sent[..k]), pos + Width(sent[..k]) + |sent[k]|)
    decreases k
  {
    if k > 0 {
      SentencePositionsAt(sent[1..], pos + |sent[0]| + 1, k - 1);
      assert sent[1..][..k - 1] == sent[..k][1..];
    }
  }

  /** Where `PositionsFrom` puts sentence `s`: the cursor has moved past all
      earlier tokens. */
  lemma {:induction false} PositionsFromAt(sents: seq<seq<string>>, pos: nat, s: nat)
    requires s < |sents|
    ensures PositionsFrom(sents, pos)[s] == SentencePositions(sents[s], pos + Width(Flatten(sents[..s])))
    decreases s
  {
    if s > 0 {
      PositionsFromAt(sents[1..], pos + Width(sents[0]), s - 1);
      assert sents[..s] == [sents[0]] + sents[1..][..s - 1];
      FlattenAppend([sents[0]], sents[1..][..s - 1]);
      assert Flatten([sents[0]]) == sents[0] + [];
      WidthAppend(sents[0], Flatten(sents[1..][..s - 1]));
    }
  }

  /** The positions of sentence `s` start after all earlier tokens. */
  lemma WordPositionsAt(sents: seq<seq<string>>, s: nat)
    requires s < |sents|
    ensures WordPositions(sents)[s] == SentencePositions(sents[s], Width(Flatten(sents[..s])))
  {
    var x := Width(Flatten(sents[..s]));
    PositionsFromAt(sents, 0, s);
    assert 0 + x == x;
  }

  /** Token `k` of sentence `s` is token `|Flatten(sents[..s])| + k` of the
      whole document, and everything before it is the earlier sentences plus
      the first `k` tokens of its own. */
  lemma FlatPrefix(sents: seq<seq<string>>, s: nat, k: nat)
    requires s < |sents| && k <= |sents[s]|
    ensures |Flatten(sents[..s])| + |sents[s]| <= |Flatten(sents)|
    ensures Flatten(sents)[..|Flatten(sents[..s])| + k] == Flatten(sents[..s]) + sents[s][..k]
    ensures k < |sents[s]| ==> Flatten(sents)[|Flatten(sents[..s])| + k] == sents[s][k]
  {
    assert sents == sents[..s] + ([sents[s]] + sents[s + 1..]);
    FlattenAppend(sents[..s], [sents[s]] + sents[s + 1..]);
    FlattenAppend([sents[s]], sents[s + 1..]);
    assert Flatten([sents[s]]) == sents[s] + [];
    assert sents[s] == sents[s][..k] + sents[s][k..];
  }

  /** Where token `k` of sentence `s` starts and ends, in terms of the flat
      token list. */
  lemma TokenRange(sents: seq<seq<string>>, s: nat, k: nat)
    requires s < |sents| && k < |sents[s]|
    ensures |Flatten(sents[..s])| + k < |Flatten(sents)|
    ensures WordPositions(sents)[s][k].start == Width(Flatten(sents)[..|Flatten(sents[..s])| + k])
    ensures WordPositions(sents)[s][k].end + 1 == Width(Flatten(sents)[..|Flatten(sents[..s])| + k + 1])
  {
    var base := Flatten(sents[..s]);
    var sent := sents[s];
    var w := Width(base);
    WordPositionsAt(sents, s);
    SentencePositionsAt(sent, w, k);
    PrefixWidth(sents, s, k);
    PrefixWidth(sents, s, k + 1);
    WidthOfOneMore(sent, k);
  }

  /** The width of the flat tokens before token `k` of sentence `s`. */
  lemma PrefixWidth(sents: seq<seq<string>>, s: nat, k: nat)
    requires s < |sents| && k <= |sents[s]|
    ensures |Flatten(sents[..s])| + k <= |Flatten(sents)|
    ensures Width(Flatten(sents)[..|Flatten(sents[..s])| + k]) == Width(Flatten(sents[..s])) + Width(sents[s][..k])
  {
    FlatPrefix(sents, s, k);
    WidthAppend(Flatten(sents[..s]), sents[s][..k]);
  }

  lemma WidthOfOneMore(sent: seq<string>, k: nat)
    requires k < |sent|
    ensures Width(sent[..k + 1]) == Width(sent[..k]) + |sent[k]| + 1
  {
    assert sent[..k + 1] == sent[..k] + [sent[k]];
    WidthAppend(sent[..k], [sent[k]]);
  }

  /** The character range of a mention, in terms of the flat token list:
      from the width of the tokens before its first token to the width of
      the tokens up to its last one, less the trailing space. */
  lemma MentionCharRange(sents: seq<seq<string>>, m: Mention)
    requires m.sentId < |sents| && m.posStart < m.posEnd <= |sents[m.sentId]|
    ensures |Flatten(sents[..m.sentId])| + m.posEnd <= |Flatten(sents)|
    ensures CharPos(WordPositions(sents), m) ==
      Ok((Width(Flatten(sents)[..|Flatten(sents[..m.sentId])| + m.posStart]),
          Width(Flatten(sents)[..|Flatten(sents[..m.sentId])| + m.posEnd]) - 1))
  {
    TokenRange(sents, m.sentId, m.posStart);
    TokenRange(sents, m.sentId, m.posEnd - 1);
  }

  /** The tokens of a mention, read off the flat token list. */
  lemma MentionTokens(sents: seq<seq<string>>, m: Mention)
    requires m.sentId < |sents| && m.posStart < m.posEnd <= |sents[m.sentId]|
    ensures |Flatten(sents[..m.sentId])| + m.posEnd <= |Flatten(sents)|
    ensures Flatten(sents)[|Flatten(sents[..m.sentId])| + m.posStart..|Flatten(sents[..m.sentId])| + m.posEnd]
         == sents[m.sentId][m.posStart..m.posEnd]
  {
    var s, k, l := m.sentId, m.posStart, m.posEnd;
    var flat := Flatten(sents);
    var base := Flatten(sents[..s]);
    FlatPrefix(sents, s, l);
    assert flat[..|base| + l] == base + sents[s][..l];
    assert flat[|base| + k..|base| + l] == (base + sents[s][..l])[|base| + k..];
    assert sents[s][..l][k..] == sents[s][k..l];
  }

  /** For a document without empty sentences, the character range of a
      mention slices its tokens, joined by single spaces, out of the flat
      text. */
  lemma MentionSpanSlicesText(sents: seq<seq<string>>, m: Mention)
    requires forall i :: 0 <= i < |sents| ==> |sents[i]| > 0
    requires m.sentId < |sents| && m.posStart < m.posEnd <= |sents[m.sentId]|
    ensures CharPos(WordPositions(sents), m).Ok?
    ensures CharPos(WordPositions(sents), m).value.0 <= CharPos(WordPositions(sents), m).value.1 <= |DocText(sents)|
    ensures DocText(sents)[CharPos(WordPositions(sents), m).value.0..CharPos(WordPositions(sents), m).value.1]
         == JoinSpaces(sents[m.sentId][m.posStart..m.posEnd])
  {
    var flat := Flatten(sents);
    var f := |Flatten(sents[..m.sentId])| + m.posStart;
    var g := |Flatten(sents[..m.sentId])| + m.posEnd;
    MentionCharRange(sents, m);
    MentionTokens(sents, m);
    JoinSlice(flat, f, g);
    DocTextJoinsAllTokens(sents);
  }

  /** For a document without empty sentences, the range of every token
      slices exactly that token out of the flat text. */
  lemma TokenSpanSlicesText(sents: seq<seq<string>>, s: nat, k: nat)
    requires forall i :: 0 <= i < |sents| ==> |sents[i]| > 0
    requires s < |sents| && k < |sents[s]|
    ensures WordPositions(sents)[s][k].text == sents[s][k]
    ensures WordPositions(sents)[s][k].start <= WordPositions(sents)[s][k].end <= |DocText(sents)|
    ensures DocText(sents)[WordPositions(sents)[s][k].start..WordPositions(sents)[s][k].end] == sents[s][k]
  {
    var m := Mention(sents[s][k], s, k, k + 1, "");
    MentionSpanSlicesText(sents, m);
    PositionsFromAt(sents, 0, s);
    SentencePositionsAt(sents[s], Width(Flatten(sents[..s])), k);
    assert sents[s][k..k + 1] == [sents[s][k]];
  }
}
