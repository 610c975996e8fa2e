/** Edit-distance similarities between texts, with exact rational values.

    `Levenshtein` is the textbook recursive edit distance (insertion,
    deletion and substitution each cost one); the similarities divide it by
    a length and fail, as Python's division does, when that length is 0. */
module Similarity {
  import opened Wrappers
  import opened Strings

  function Min3(x: nat, y: nat, z: nat): (r: nat)
    ensures r <= x && r <= y && r <= z
    ensures r == x || r == y || r == z
  {
    if x <= y && x <= z then x else if y <= z then y else z
  }

  function Levenshtein(a: string, b: string): nat
    decreases |a| + |b|
  {
    if |a| == 0 then |b|
    else if |b| == 0 then |a|
    else Min3(Levenshtein(a[1..], b) + 1,
              Levenshtein(a, b[1..]) + 1,
              Levenshtein(a[1..], b[1..]) + (if a[0] == b[0] then 0 else 1))
  }

  function Max(x: nat, y: nat): nat {
    if x >= y then x else y
  }

  /** Deleting all of `a` and inserting all of `b` never beats the
      distance, and the distance never exceeds the longer length. */
  lemma {:induction false} LevenshteinBounds(a: string, b: string)
    ensures Levenshtein(a, b) <= Max(|a|, |b|)
    ensures Levenshtein(a, b) >= |a| - |b| && Levenshtein(a, b) >= |b| - |a|
    decreases |a| + |b|
  {
    if |a| > 0 && |b| > 0 {
      LevenshteinBounds(a[1..], b[1..]);
      LevenshteinBounds(a[1..], b);
      LevenshteinBounds(a, b[1..]);
    }
  }

  lemma {:induction false} LevenshteinSymmetric(a: string, b: string)
    ensures Levenshtein(a, b) == Levenshtein(b, a)
    decreases |a| + |b|
  {
    if |a| > 0 && |b| > 0 {
      LevenshteinSymmetric(a[1..], b);
      LevenshteinSymmetric(a, b[1..]);
      LevenshteinSymmetric(a[1..], b[1..]);
    }
  }

  /** The distance is zero exactly between equal texts. */
  lemma {:induction false} LevenshteinZeroIffEqual(a: string, b: string)
    ensures Levenshtein(a, b) == 0 <==> a == b
    decreases |a| + |b|
  {
    if |a| > 0 && |b| > 0 {
      LevenshteinBounds(a[1..], b);
      LevenshteinBounds(a, b[1..]);
      LevenshteinZeroIffEqual(a[1..], b[1..]);
      if a == b {
        assert a[1..] == b[1..];
      }
      if Levenshtein(a, b) == 0 {
        assert a == [a[0]] + a[1..] && b == [b[0]] + b[1..];
      }
    }
  }

  /** One minus a ratio `d / n` with `d <= n` lies in [0, 1], and is 1 only
      for `d == 0`. */
  function OneMinusRatio(d: nat, n: nat): (r: real)
    requires 0 < n && d <= n
    ensures 0.0 <= r <= 1.0
    ensures r == 1.0 <==> d == 0
  {
    var q := (d as real) / (n as real);
    assert q * (n as real) == d as real;
    assert q <= 1.0 by {
      if q > 1.0 {
        ScaleStrict(1.0, q, n as real);
      }
    }
    1.0 - q
  }

  /** Scaling by a positive factor keeps a strict order. */
  lemma ScaleStrict(x: real, y: real, z: real)
    requires x < y && z > 0.0
    ensures x * z < y * z
  {
    assert y * z - x * z == (y - x) * z;
  }

  /** `text_similarity`: one minus the distance over the longer length;
      two empty texts divide by zero. */
  function TextSimilarity(text1: string, text2: string): (r: Result<real>)
    ensures r.Err? <==> |text1| == 0 && |text2| == 0
    ensures r.Ok? ==> 0.0 <= r.value <= 1.0
    ensures r.Ok? ==> (r.value == 1.0 <==> text1 == text2)
  {
    var longest := Max(|text1|, |text2|);
    if longest == 0 then Err("ZeroDivisionError: division by zero")
    else
      LevenshteinBounds(text1, text2);
      LevenshteinZeroIffEqual(text1, text2);
      Ok(OneMinusRatio(Levenshtein(text1, text2), longest))
  }

  lemma TextSimilaritySymmetric(text1: string, text2: string)
    ensures TextSimilarity(text1, text2) == TextSimilarity(text2, text1)
  {
    LevenshteinSymmetric(text1, text2);
  }

  /** `text_similarity_docred`: compares a document text with the beginning
      of a Wikipedia text of the same length; an empty document text divides
      by zero. The similarity is 1 exactly when the Wikipedia text starts
      with the document text. */
  function TextSimilarityDocred(docredText: string, wikipediaText: string): (r: Result<real>)
    ensures r.Err? <==> |docredText| == 0
    ensures r.Ok? ==> 0.0 <= r.value <= 1.0
    ensures r.Ok? && StartsWith(wikipediaText, docredText) ==> r.value == 1.0
    ensures r.Ok? ==> (r.value == 1.0 <==> StartsWith(wikipediaText, docredText))
  {
    if |docredText| == 0 then Err("ZeroDivisionError: division by zero")
    else
      var truncated := wikipediaText[..if |wikipediaText| < |docredText| then |wikipediaText| else |docredText|];
      LevenshteinBounds(docredText, truncated);
      LevenshteinZeroIffEqual(docredText, truncated);
      Ok(OneMinusRatio(Levenshtein(docredText, truncated), |docredText|))
  }
}
