/** Python string operations used throughout the pipeline, restated on
    `seq<char>`: prefix and substring tests, `find`, `split`, `' '.join`,
    `lower`, `strip`, `isdigit`, and decimal conversion of naturals. Case
    mapping and white space are the ASCII ones. */
module Strings {
  import opened Wrappers

  predicate StartsWith(s: string, prefix: string) {
    |prefix| <= |s| && s[..|prefix|] == prefix
  }

  /** `needle in s` for strings. */
  predicate Contains(s: string, needle: string)
    decreases |s|
  {
    StartsWith(s, needle) || (|s| > 0 && Contains(s[1..], needle))
  }

  /** `s.find(needle)`: the first position where `needle` occurs. */
  function Find(s: string, needle: string): (r: Option<nat>)
    ensures r.Some? ==> r.value + |needle| <= |s| && s[r.value..r.value + |needle|] == needle
    ensures r.Some? ==> forall k :: 0 <= k < r.value ==> !StartsWith(s[k..], needle)
    ensures r.None? <==> !Contains(s, needle)
    decreases |s|
  {
    if StartsWith(s, needle) then Some(0)
    else if |s| == 0 then None
    else match Find(s[1..], needle)
      case None => None
      case Some(k) =>
        assert s[1..][k..] == s[k + 1..];
        assert forall q :: 1 <= q <= k ==> s[1..][q - 1..] == s[q..];
        Some(k + 1)
  }

  /** `sep.join(parts)`. */
  function Join(sep: string, parts: seq<string>): string {
    if |parts| == 0 then ""
    else if |parts| == 1 then parts[0]
    else parts[0] + sep + Join(sep, parts[1..])
  }

  /** `' '.join(parts)`. */
  function JoinSpaces(parts: seq<string>): string {
    Join(" ", parts)
  }

  /** `s.split(sep)` for a non-empty separator: leftmost, non-overlapping. */
  function Split(s: string, sep: string): (parts: seq<string>)
    requires |sep| > 0
    ensures |parts| >= 1
    ensures |parts| == 1 <==> !Contains(s, sep)
    ensures |parts| == 1 ==> parts[0] == s
    decreases |s|
  {
    match Find(s, sep)
    case None => [s]
    case Some(i) => [s[..i]] + Split(s[i + |sep|..], sep)
  }

  /** No match starting before `i` means no match inside `s[..i]`. */
  lemma {:induction false} NoMatchBefore(s: string, sep: string, i: nat)
    requires |sep| > 0 && i <= |s|
    requires forall k :: 0 <= k < i ==> !StartsWith(s[k..], sep)
    ensures !Contains(s[..i], sep)
    decreases i
  {
    if i > 0 {
      assert s[0..] == s;
      if |sep| <= i {
        assert s[..i][..|sep|] == s[..|sep|];
      }
      forall k | 0 <= k < i - 1
        ensures !StartsWith(s[1..][k..], sep)
      {
        assert s[1..][k..] == s[k + 1..];
      }
      NoMatchBefore(s[1..], sep, i - 1);
      assert s[..i][1..] == s[1..][..i - 1];
    }
  }

  /** The first piece of a split holds no separator. */
  lemma SplitHeadAvoidsSeparator(s: string, sep: string)
    requires |sep| > 0
    ensures !Contains(Split(s, sep)[0], sep)
  {
    match Find(s, sep)
    case None =>
    case Some(i) => NoMatchBefore(s, sep, i);
  }

  /** The first piece of a split is the text up to the first separator,
      or all of it when there is none. */
  predicate PieceAt(s: string, start: nat, piece: string, sep: string)
    requires start <= |s|
  {
    StartsWith(s[start..], piece) && (start + |piece| == |s| || StartsWith(s[start + |piece|..], sep))
  }

  lemma SplitHeadIsPiece(s: string, sep: string)
    requires |sep| > 0
    ensures PieceAt(s, 0, Split(s, sep)[0], sep)
  {
    assert s[0..] == s;
    match Find(s, sep)
    case None =>
    case Some(i) =>
      assert s[i..][..|sep|] == s[i..i + |sep|];
  }

  /** The second piece of a split is the text after the first separator,
      up to the next one or to the end. */
  lemma SplitSecondIsPiece(s: string, sep: string)
    requires |sep| > 0 && Contains(s, sep)
    ensures Find(s, sep).Some? && Find(s, sep).value + |sep| <= |s|
    ensures |Split(s, sep)| >= 2 && PieceAt(s, Find(s, sep).value + |sep|, Split(s, sep)[1], sep)
  {
    var start := Find(s, sep).value + |sep|;
    var rest := s[start..];
    assert Split(s, sep) == [s[..start - |sep|]] + Split(rest, sep);
    SplitHeadIsPiece(rest, sep);
    var piece := Split(rest, sep)[0];
    assert rest[0..] == rest;
    assert rest[|piece|..] == s[start + |piece|..];
  }

  /** `s.split(c, 1)` when `c in s`: the text before and after the first `c`. */
  function SplitFirst(s: string, c: char): (r: (string, string))
    ensures c in s ==> r.0 + [c] + r.1 == s && c !in r.0
    ensures c !in s ==> r == (s, "")
  {
    if |s| == 0 then ("", "")
    else if s[0] == c then ("", s[1..])
    else
      var rest := SplitFirst(s[1..], c);
      assert c in s ==> c in s[1..] by {
        if c in s {
          var k :| 0 <= k < |s| && s[k] == c;
          assert k > 0 && s[1..][k - 1] == c;
        }
      }
      assert [s[0]] + s[1..] == s;
      ([s[0]] + rest.0, rest.1)
  }

  /** `tail` is what follows the first `c` in `s`, or `""` when `s` has no
      `c`. */
  predicate TailAfterFirst(s: string, c: char, tail: string) {
    if c in s then
      |tail| < |s| && s[|s| - |tail| - 1] == c && c !in s[..|s| - |tail| - 1] && s[|s| - |tail|..] == tail
    else tail == ""
  }

  /** `s` up to the `c` that precedes `tail`; all of `s` when it has no
      `c`. */
  function CutTail(s: string, c: char, tail: string): string {
    if c in s && |tail| < |s| then s[..|s| - |tail| - 1] else s
  }

  /** Every character of a contained needle occurs in the text. */
  lemma {:induction false} ContainsChars(s: string, needle: string, i: nat)
    requires Contains(s, needle) && i < |needle|
    ensures needle[i] in s
    decreases |s|
  {
    if StartsWith(s, needle) {
      assert s[..|needle|][i] == s[i];
    } else {
      ContainsChars(s[1..], needle, i);
      assert needle[i] in s[1..];
      var k :| 0 <= k < |s[1..]| && s[1..][k] == needle[i];
      assert s[k + 1] == needle[i];
    }
  }

  /** A text lacking one of the needle's characters does not contain it. */
  lemma MissingCharNotContained(s: string, needle: string, i: nat)
    requires i < |needle| && needle[i] !in s
    ensures !Contains(s, needle)
  {
    if Contains(s, needle) {
      ContainsChars(s, needle, i);
    }
  }

  /** `SplitFirst` cuts at the first `c`. */
  lemma SplitFirstTail(s: string, c: char)
    ensures TailAfterFirst(s, c, SplitFirst(s, c).1)
    ensures CutTail(s, c, SplitFirst(s, c).1) == SplitFirst(s, c).0
  {
    var (h, t) := SplitFirst(s, c);
    if c in s {
      assert s == h + [c] + t;
      assert |s| - |t| - 1 == |h|;
      assert s[..|h|] == h && s[|h|] == c && s[|h| + 1..] == t;
    }
  }

  /** The head of `SplitFirst` is a prefix without `c`, and a character
      absent from `s` is absent from the tail. */
  lemma SplitFirstParts(s: string, c: char, d: char)
    ensures |SplitFirst(s, c).0| <= |s| && SplitFirst(s, c).0 == s[..|SplitFirst(s, c).0|] && c !in SplitFirst(s, c).0
    ensures d !in s ==> d !in SplitFirst(s, c).1
  {
    var (h, t) := SplitFirst(s, c);
    if c in s {
      assert s == h + [c] + t;
      assert s[..|h|] == h;
      assert forall k :: 0 <= k < |t| ==> t[k] == s[|h| + 1 + k];
    }
  }

  /** A character absent from `s` is absent from every prefix of it. */
  lemma NotInPrefix(s: string, c: char, n: nat)
    requires c !in s && n <= |s|
    ensures c !in s[..n]
  {
    assert forall k :: 0 <= k < n ==> s[..n][k] == s[k];
  }

  /** Cutting at a `c` that does not occur before it. */
  lemma {:induction false} SplitFirstAt(h: string, c: char, t: string)
    requires c !in h
    ensures SplitFirst(h + [c] + t, c) == (h, t)
    decreases |h|
  {
    var s := h + [c] + t;
    if |h| == 0 {
      assert s[0] == c && s[1..] == t;
    } else {
      assert s[0] == h[0] && s[1..] == h[1..] + [c] + t;
      assert c !in h[1..] by {
        assert forall k :: 0 <= k < |h| - 1 ==> h[1..][k] == h[k + 1];
      }
      SplitFirstAt(h[1..], c, t);
      assert [h[0]] + h[1..] == h;
    }
  }

  function LowerChar(c: char): char {
    if 'A' <= c <= 'Z' then (c as int + 32) as char else c
  }

  /** `s.lower()` on the ASCII letters. */
  function Lower(s: string): (r: string)
    ensures |r| == |s|
    ensures forall k :: 0 <= k < |s| ==> r[k] == LowerChar(s[k])
  {
    seq(|s|, k requires 0 <= k < |s| => LowerChar(s[k]))
  }

  /** The characters Python's `str.strip()` removes, restricted to ASCII:
      space, tab, line feed, vertical tab, form feed, carriage return and
      the four separators `\x1c`..`\x1f`. */
  predicate IsSpace(c: char) {
    c == ' ' || c == '\t' || c == '\n' || c == '\r' || c as int == 11 || c as int == 12 || 28 <= c as int <= 31
  }

  function StripLeft(s: string): (r: string)
    ensures |r| <= |s| && r == s[|s| - |r|..]
    ensures |r| > 0 ==> !IsSpace(r[0])
  {
    if |s| > 0 && IsSpace(s[0]) then StripLeft(s[1..]) else s
  }

  function StripRight(s: string): (r: string)
    ensures |r| <= |s| && r == s[..|r|]
    ensures |r| > 0 ==> !IsSpace(r[|r| - 1])
  {
    if |s| > 0 && IsSpace(s[|s| - 1]) then StripRight(s[..|s| - 1]) else s
  }

  /** `s.strip()`. */
  function Strip(s: string): string {
    StripRight(StripLeft(s))
  }

  predicate IsDigitChar(c: char) {
    '0' <= c <= '9'
  }

  /** `s.isdigit()` on ASCII digits: non-empty and all digits. */
  predicate IsDigits(s: string) {
    |s| > 0 && forall k :: 0 <= k < |s| ==> IsDigitChar(s[k])
  }

  function DigitValue(c: char): nat
    requires IsDigitChar(c)
  {
    c as int - '0' as int
  }

  function DigitChar(d: nat): (c: char)
    requires d < 10
    ensures IsDigitChar(c) && DigitValue(c) == d
  {
    ('0' as int + d) as char
  }

  /** The value of a string of decimal digits, most significant first. */
  function DigitsValue(s: string): nat
    requires forall k :: 0 <= k < |s| ==> IsDigitChar(s[k])
  {
    if |s| == 0 then 0 else DigitsValue(s[..|s| - 1]) * 10 + DigitValue(s[|s| - 1])
  }

  /** `int(s)` for a string of ASCII digits; anything else raises. */
  function ParseNat(s: string): (r: Result<nat>)
    ensures r.Ok? <==> IsDigits(s)
  {
    if IsDigits(s) then Ok(DigitsValue(s)) else Err("ValueError: invalid literal for int()")
  }

  /** `str(n)`. */
  function NatToString(n: nat): (s: string)
    ensures IsDigits(s)
    ensures DigitsValue(s) == n
  {
    if n < 10 then [DigitChar(n)]
    else
      var s := NatToString(n / 10) + [DigitChar(n % 10)];
      assert s[..|s| - 1] == NatToString(n / 10);
      s
  }

  /** `str` is injective on naturals, since `int(str(n)) == n`. */
  lemma NatToStringInjective(a: nat, b: nat)
    requires NatToString(a) == NatToString(b)
    ensures a == b
  {
    assert ParseNat(NatToString(a)) == Ok(a);
  }

  /** `s.replace(c, '')` for a single character. */
  function RemoveChar(s: string, c: char): (r: string)
    ensures |r| <= |s|
    ensures c !in r
    ensures forall x :: x != c ==> (x in r <==> x in s)
    ensures c !in s ==> r == s
  {
    if |s| == 0 then ""
    else (if s[0] == c then "" else [s[0]]) + RemoveChar(s[1..], c)
  }

  /** Removing a character works piece by piece, so it keeps the order of
      the characters it does not remove. */
  lemma {:induction false} RemoveCharAppend(a: string, b: string, c: char)
    ensures RemoveChar(a + b, c) == RemoveChar(a, c) + RemoveChar(b, c)
    decreases |a|
  {
    if |a| == 0 {
      assert a + b == b;
    } else {
      assert (a + b)[1..] == a[1..] + b;
      RemoveCharAppend(a[1..], b, c);
    }
  }

  lemma ContainsAt(s: string, needle: string, i: nat)
    requires i + |needle| <= |s| && s[i..i + |needle|] == needle
    ensures Contains(s, needle)
    decreases i
  {
    if i > 0 {
      assert s[1..][i - 1..i - 1 + |needle|] == needle;
      ContainsAt(s[1..], needle, i - 1);
    }
  }

  /** A string holding `needle` is at least as long as it. */
  lemma {:induction false} ContainsLonger(s: string, needle: string)
    requires Contains(s, needle)
    ensures |needle| <= |s|
    decreases |s|
  {
    if !StartsWith(s, needle) {
      ContainsLonger(s[1..], needle);
    }
  }

  lemma ContainsWitness(s: string, needle: string) returns (i: nat)
    requires Contains(s, needle)
    ensures i + |needle| <= |s| && s[i..i + |needle|] == needle
    decreases |s|
  {
    if StartsWith(s, needle) {
      i := 0;
    } else {
      var k := ContainsWitness(s[1..], needle);
      assert s[1..][k..k + |needle|] == s[k + 1..k + 1 + |needle|];
      i := k + 1;
    }
  }
}
