/** Text normalisation shared by the matching stages: lower-case, drop
    escapes (and digits, for entity names), split into word tokens, drop
    stop words, stem, and join the stems with single spaces.

    The word-character class of the tokenizer, the stop-word set and the
    stemmer are not part of the model: they are carried by a `Normalizer`
    value, and every property below holds whatever they are. */
module Normalize {
  import opened Strings

  /** The tokenizer's `\w` class, the stop-word set and the stemmer. */
  datatype Normalizer = Normalizer(isWord: char -> bool, stopwords: set<string>, stem: string -> string)

  predicate AllWord(s: string, isWord: char -> bool) {
    forall k :: 0 <= k < |s| ==> isWord(s[k])
  }

  /** The characters of `s` that satisfy `keep`, in order. */
  function Keep(s: string, keep: char -> bool): (r: string)
    ensures |r| <= |s|
    ensures forall c :: c in r <==> c in s && keep(c)
    ensures (forall k :: 0 <= k < |s| ==> keep(s[k])) ==> r == s
  {
    if |s| == 0 then ""
    else (if keep(s[0]) then [s[0]] else "") + Keep(s[1..], keep)
  }

  lemma {:induction false} KeepAppend(a: string, b: string, keep: char -> bool)
    ensures Keep(a + b, keep) == Keep(a, keep) + Keep(b, keep)
    decreases |a|
  {
    if |a| == 0 {
      assert a + b == b;
    } else {
      assert (a + b)[1..] == a[1..] + b;
      KeepAppend(a[1..], b, keep);
    }
  }

  lemma {:induction false} KeepAll(s: string, keep: char -> bool)
    requires forall k :: 0 <= k < |s| ==> keep(s[k])
    ensures Keep(s, keep) == s
    decreases |s|
  {
    if |s| > 0 {
      KeepAll(s[1..], keep);
    }
  }

  /** Length of the run of word characters that starts `s`. */
  function RunLength(s: string, isWord: char -> bool): (n: nat)
    ensures n <= |s|
    ensures AllWord(s[..n], isWord)
    ensures n == |s| || !isWord(s[n])
  {
    if |s| == 0 || !isWord(s[0]) then 0
    else
      var n := 1 + RunLength(s[1..], isWord);
      assert s[..n] == [s[0]] + s[1..][..n - 1];
      n
  }

  /** `RegexpTokenizer(r'\w+').tokenize(s)`: the maximal runs of word
      characters, left to right. A text without word characters has no
      token, and a non-empty run of word characters is one token; with
      `TokensSplitAtNonWord` this fixes the tokens of every text. */
  function Tokens(s: string, isWord: char -> bool): (r: seq<string>)
    ensures forall k :: 0 <= k < |r| ==> |r[k]| > 0 && AllWord(r[k], isWord)
    ensures (forall k :: 0 <= k < |s| ==> !isWord(s[k])) ==> r == []
    ensures |s| > 0 && AllWord(s, isWord) ==> r == [s]
    decreases |s|
  {
    if |s| == 0 then []
    else if !isWord(s[0]) then Tokens(s[1..], isWord)
    else
      var n := RunLength(s, isWord);
      assert AllWord(s, isWord) ==> n == |s| && s[..n] == s && s[n..] == [];
      [s[..n]] + Tokens(s[n..], isWord)
  }

  /** A run of word characters ends at the first non-word character. */
  lemma {:induction false} RunLengthStops(a: string, c: char, b: string, isWord: char -> bool)
    requires !isWord(c)
    ensures RunLength(a + [c] + b, isWord) == RunLength(a, isWord)
    decreases |a|
  {
    if |a| > 0 && isWord(a[0]) {
      assert (a + [c] + b)[1..] == a[1..] + [c] + b;
      RunLengthStops(a[1..], c, b, isWord);
    }
  }

  /** Tokens never span a non-word character: the tokens of `a + [c] + b`
      are those of `a` followed by those of `b`. */
  lemma {:induction false} TokensSplitAtNonWord(a: string, c: char, b: string, isWord: char -> bool)
    requires !isWord(c)
    ensures Tokens(a + [c] + b, isWord) == Tokens(a, isWord) + Tokens(b, isWord)
    decreases |a|
  {
    var s := a + [c] + b;
    if |a| == 0 {
      assert s[1..] == b;
    } else if !isWord(a[0]) {
      assert s[1..] == a[1..] + [c] + b;
      TokensSplitAtNonWord(a[1..], c, b, isWord);
    } else {
      var n := RunLength(a, isWord);
      RunLengthStops(a, c, b, isWord);
      assert s[..n] == a[..n];
      assert s[n..] == a[n..] + [c] + b;
      TokensSplitAtNonWord(a[n..], c, b, isWord);
    }
  }

  function Concat(parts: seq<string>): string {
    if |parts| == 0 then "" else parts[0] + Concat(parts[1..])
  }

  /** Tokenizing loses exactly the non-word characters: the tokens,
      concatenated, are the word characters of the input in order. */
  lemma {:induction false} TokensKeepWordCharacters(s: string, isWord: char -> bool)
    ensures Concat(Tokens(s, isWord)) == Keep(s, isWord)
    decreases |s|
  {
    if |s| == 0 {
    } else if !isWord(s[0]) {
      TokensKeepWordCharacters(s[1..], isWord);
    } else {
      var n := RunLength(s, isWord);
      TokensKeepWordCharacters(s[n..], isWord);
      assert s == s[..n] + s[n..];
      KeepAppend(s[..n], s[n..], isWord);
      KeepAll(s[..n], isWord);
    }
  }

  /** `[w for w in words if not w.lower() in stop_words]`: the words
      without a stop word are kept whole, and with `DropStopwordsAppend` the
      filter keeps the order of the words it keeps. */
  function DropStopwords(words: seq<string>, stopwords: set<string>): (r: seq<string>)
    ensures |r| <= |words|
    ensures forall w :: w in r <==> w in words && Lower(w) !in stopwords
    ensures (forall k :: 0 <= k < |words| ==> Lower(words[k]) !in stopwords) ==> r == words
    decreases |words|
  {
    if |words| == 0 then []
    else
      assert forall k :: 1 <= k < |words| ==> words[1..][k - 1] == words[k];
      (if Lower(words[0]) in stopwords then [] else [words[0]]) + DropStopwords(words[1..], stopwords)
  }

  /** The filter works word by word. */
  lemma {:induction false} DropStopwordsAppend(a: seq<string>, b: seq<string>, stopwords: set<string>)
    ensures DropStopwords(a + b, stopwords) == DropStopwords(a, stopwords) + DropStopwords(b, stopwords)
    decreases |a|
  {
    if |a| == 0 {
      assert a + b == b;
    } else {
      assert (a + b)[1..] == a[1..] + b;
      DropStopwordsAppend(a[1..], b, stopwords);
    }
  }

  function StemAll(words: seq<string>, stem: string -> string): (r: seq<string>)
    ensures |r| == |words|
    ensures forall k :: 0 <= k < |words| ==> r[k] == stem(words[k])
  {
    seq(|words|, k requires 0 <= k < |words| => stem(words[k]))
  }

  lemma StemAllAppend(a: seq<string>, b: seq<string>, stem: string -> string)
    ensures StemAll(a + b, stem) == StemAll(a, stem) + StemAll(b, stem)
  {
    var l, r := StemAll(a + b, stem), StemAll(a, stem) + StemAll(b, stem);
    assert |l| == |r|;
    forall k | 0 <= k < |l|
      ensures l[k] == r[k]
    {
      if k < |a| {
        assert (a + b)[k] == a[k];
      } else {
        assert (a + b)[k] == b[k - |a|];
      }
    }
  }

  /** The stems of the non-stop-word tokens of an already cleaned text. */
  function Keywords(nz: Normalizer, cleaned: string): seq<string> {
    StemAll(DropStopwords(Tokens(cleaned, nz.isWord), nz.stopwords), nz.stem)
  }

  predicate IsUpper(c: char) {
    'A' <= c <= 'Z'
  }

  /** The text `preprocess_abstract` tokenizes: lower-cased, backslashes
      removed. Every remaining character is the lower-case form of an input
      character; a text already lower-case and free of backslashes is kept
      as it is, and with `CleanAbstractAppend` the cleaning works character
      by character. */
  function CleanAbstract(text: string): (r: string)
    ensures |r| <= |text|
    ensures '\\' !in r
    ensures forall k :: 0 <= k < |r| ==> !IsUpper(r[k])
    ensures forall c :: c in r ==> exists k :: 0 <= k < |text| && LowerChar(text[k]) == c
    ensures (forall k :: 0 <= k < |text| ==> text[k] != '\\' && !IsUpper(text[k])) ==> r == text
  {
    var lowered := Lower(text);
    var r := RemoveChar(lowered, '\\');
    assert forall c :: c in lowered ==> exists k :: 0 <= k < |text| && LowerChar(text[k]) == c by {
      forall c | c in lowered
        ensures exists k :: 0 <= k < |text| && LowerChar(text[k]) == c
      {
        var k :| 0 <= k < |lowered| && lowered[k] == c;
        assert LowerChar(text[k]) == c;
      }
    }
    assert forall k :: 0 <= k < |r| ==> !IsUpper(r[k]) by {
      forall k | 0 <= k < |r|
        ensures !IsUpper(r[k])
      {
        assert r[k] in lowered;
      }
    }
    assert (forall k :: 0 <= k < |text| ==> text[k] != '\\' && !IsUpper(text[k])) ==> lowered == text;
    r
  }

  lemma CleanAbstractAppend(a: string, b: string)
    ensures CleanAbstract(a + b) == CleanAbstract(a) + CleanAbstract(b)
  {
    assert Lower(a + b) == Lower(a) + Lower(b);
    RemoveCharAppend(Lower(a), Lower(b), '\\');
  }

  /** `preprocess_abstract`. */
  function PreprocessAbstract(nz: Normalizer, text: string): string {
    JoinSpaces(Keywords(nz, CleanAbstract(text)))
  }

  /** `CHAR_REGEX.sub('', s)` with `CHAR_REGEX = \\.`: every backslash
      together with the character after it, unless that is a newline (`.`
      does not match one), scanning left to right without overlaps. Nothing
      else is removed: a text without backslash is kept, and
      `EscapeRemoved` states what happens at the first backslash. */
  function RemoveEscapes(s: string): (r: string)
    ensures |r| <= |s|
    ensures forall c :: c in r ==> c in s
    ensures '\\' !in s ==> r == s
    ensures forall k :: 0 <= k < |r| && r[k] == '\\' ==> k == |r| - 1 || r[k + 1] == '\n'
    decreases |s|
  {
    if |s| >= 2 && s[0] == '\\' && s[1] != '\n' then RemoveEscapes(s[2..])
    else if |s| == 0 then ""
    else
      var rest := RemoveEscapes(s[1..]);
      assert s[0] == '\\' ==> |s| == 1 || s[1] == '\n';
      assert s[0] == '\\' && |s| > 1 ==> |rest| > 0 && rest[0] == '\n' by {
        if s[0] == '\\' && |s| > 1 {
          assert rest == [s[1]] + RemoveEscapes(s[2..]);
        }
      }
      [s[0]] + rest
  }

  /** Text before the first backslash passes through untouched. */
  lemma {:induction false} RemoveEscapesAppend(a: string, b: string)
    requires '\\' !in a
    ensures RemoveEscapes(a + b) == a + RemoveEscapes(b)
    decreases |a|
  {
    if |a| > 0 {
      assert a[0] != '\\';
      assert (a + b)[1..] == a[1..] + b;
      RemoveEscapesAppend(a[1..], b);
    } else {
      assert a + b == b;
    }
  }

  /** The first backslash is removed together with the character after it,
      unless that is a newline, and the rest is scanned afresh. */
  lemma EscapeRemoved(a: string, x: char, b: string)
    requires '\\' !in a && x != '\n'
    ensures RemoveEscapes(a + ['\\', x] + b) == a + RemoveEscapes(b)
  {
    assert a + ['\\', x] + b == a + (['\\', x] + b);
    RemoveEscapesAppend(a, ['\\', x] + b);
    assert (['\\', x] + b)[2..] == b;
  }

  /** `NUMBER_REGEX.sub('', s)` with `NUMBER_REGEX = [0-9]+`. */
  function RemoveDigits(s: string): (r: string)
    ensures |r| <= |s|
    ensures forall c :: c in r <==> c in s && !IsDigitChar(c)
    ensures (forall k :: 0 <= k < |s| ==> !IsDigitChar(s[k])) ==> r == s
  {
    Keep(s, c => !IsDigitChar(c))
  }

  /** The text `preprocess_entity` tokenizes: lower-cased, escapes and
      digits removed. What remains holds no digit and no upper-case letter,
      and a text with neither and without backslash is kept as it is. */
  function CleanEntity(text: string): (r: string)
    ensures |r| <= |text|
    ensures forall k :: 0 <= k < |r| ==> !IsDigitChar(r[k]) && !IsUpper(r[k])
    ensures (forall k :: 0 <= k < |text| ==> text[k] != '\\' && !IsDigitChar(text[k]) && !IsUpper(text[k])) ==> r == text
  {
    var lowered := Lower(text);
    var unescaped := RemoveEscapes(lowered);
    var r := RemoveDigits(unescaped);
    assert forall k :: 0 <= k < |r| ==> !IsUpper(r[k]) by {
      forall k | 0 <= k < |r|
        ensures !IsUpper(r[k])
      {
        assert r[k] in unescaped;
        assert r[k] in lowered;
      }
    }
    assert (forall k :: 0 <= k < |text| ==> text[k] != '\\' && !IsDigitChar(text[k]) && !IsUpper(text[k])) ==> lowered == text;
    r
  }

  /** `preprocess_entity`. */
  function PreprocessEntity(nz: Normalizer, text: string): string {
    JoinSpaces(Keywords(nz, CleanEntity(text)))
  }

  /** Keywords do not span a non-word character. */
  lemma KeywordsSplit(nz: Normalizer, a: string, c: char, b: string)
    requires !nz.isWord(c)
    ensures Keywords(nz, a + [c] + b) == Keywords(nz, a) + Keywords(nz, b)
  {
    TokensSplitAtNonWord(a, c, b, nz.isWord);
    DropStopwordsAppend(Tokens(a, nz.isWord), Tokens(b, nz.isWord), nz.stopwords);
    StemAllAppend(DropStopwords(Tokens(a, nz.isWord), nz.stopwords), DropStopwords(Tokens(b, nz.isWord), nz.stopwords), nz.stem);
  }

  /** The pipeline of `preprocess_abstract` splits at a separator: the
      keywords of a text whose parts are separated by a lower-case non-word
      character other than a backslash are those of the parts, joined. */
  lemma PreprocessAbstractSplit(nz: Normalizer, a: string, c: char, b: string)
    requires !nz.isWord(c) && c != '\\' && !IsUpper(c)
    ensures PreprocessAbstract(nz, a + [c] + b) == JoinSpaces(Keywords(nz, CleanAbstract(a)) + Keywords(nz, CleanAbstract(b)))
  {
    CleanAbstractAppend(a + [c], b);
    CleanAbstractAppend(a, [c]);
    assert CleanAbstract([c]) == [c];
    KeywordsSplit(nz, CleanAbstract(a), c, CleanAbstract(b));
  }

  /** A single lower-case word that is not a stop word normalises to its
      stem. */
  lemma PreprocessAbstractWord(nz: Normalizer, w: string)
    requires |w| > 0 && AllWord(w, nz.isWord)
    requires forall k :: 0 <= k < |w| ==> w[k] != '\\' && !IsUpper(w[k])
    requires Lower(w) !in nz.stopwords
    ensures PreprocessAbstract(nz, w) == nz.stem(w)
  {
    assert CleanAbstract(w) == w;
    assert Tokens(w, nz.isWord) == [w];
    assert DropStopwords([w], nz.stopwords) == [w];
  }

  /** A text made only of stop words (and non-word characters) normalises to
      the empty string. */
  lemma AllStopwordsNormaliseToEmpty(nz: Normalizer, text: string)
    requires forall w :: w in Tokens(CleanAbstract(text), nz.isWord) ==> Lower(w) in nz.stopwords
    ensures PreprocessAbstract(nz, text) == ""
  {
    DropAllStopwords(Tokens(CleanAbstract(text), nz.isWord), nz.stopwords);
  }

  lemma {:induction false} DropAllStopwords(words: seq<string>, stopwords: set<string>)
    requires forall w :: w in words ==> Lower(w) in stopwords
    ensures DropStopwords(words, stopwords) == []
    decreases |words|
  {
    if |words| > 0 {
      assert words[0] in words;
      DropAllStopwords(words[1..], stopwords);
    }
  }

  /** Every keyword is the stem of a token of the text that is not a stop
      word, and every such token contributes one. */
  lemma KeywordsAreStemmedContentWords(nz: Normalizer, cleaned: string, w: string)
    ensures w in Keywords(nz, cleaned) <==>
      exists t :: t in Tokens(cleaned, nz.isWord) && Lower(t) !in nz.stopwords && w == nz.stem(t)
  {
    var kept := DropStopwords(Tokens(cleaned, nz.isWord), nz.stopwords);
    var ks := Keywords(nz, cleaned);
    if w in ks {
      var k :| 0 <= k < |ks| && ks[k] == w;
      assert kept[k] in kept;
    }
    if exists t :: t in Tokens(cleaned, nz.isWord) && Lower(t) !in nz.stopwords && w == nz.stem(t) {
      var t :| t in Tokens(cleaned, nz.isWord) && Lower(t) !in nz.stopwords && w == nz.stem(t);
      assert t in kept;
      var k :| 0 <= k < |kept| && kept[k] == t;
      assert ks[k] == w;
    }
  }
}
