/** The parts of Python's `urllib.parse` the pipeline calls: `urlparse`
    (the generic syntax of section 3 of RFC 3986 as CPython splits it),
    `parse_qs` with its default arguments, and `unquote` (the
    percent-decoding of section 2.1 of RFC 3986). */
module UrlParse {
  import opened Wrappers
  import opened Strings

  /** The result of `urlparse`. */
  datatype ParsedUrl = ParsedUrl(scheme: string, netloc: string, path: string, params: string, query: string, fragment: string)

  /** The characters `urlsplit` strips from the left: C0 controls and the
      space. */
  predicate IsC0OrSpace(c: char) {
    c as int <= 0x20
  }

  function StripC0Left(s: string): (r: string)
    ensures |r| <= |s| && r == s[|s| - |r|..]
    ensures |r| > 0 ==> !IsC0OrSpace(r[0])
  {
    if |s| > 0 && IsC0OrSpace(s[0]) then StripC0Left(s[1..]) else s
  }

  /** Tab, carriage return and line feed are deleted anywhere in the URL. */
  function RemoveUnsafe(s: string): (r: string)
    ensures '\t' !in r && '\r' !in r && '\n' !in r
    ensures forall c :: c != '\t' && c != '\r' && c != '\n' ==> (c in r <==> c in s)
  {
    RemoveChar(RemoveChar(RemoveChar(s, '\t'), '\r'), '\n')
  }

  predicate IsAsciiLetter(c: char) {
    'a' <= c <= 'z' || 'A' <= c <= 'Z'
  }

  /** `scheme_chars`. */
  predicate IsSchemeChar(c: char) {
    IsAsciiLetter(c) || IsDigitChar(c) || c == '+' || c == '-' || c == '.'
  }

  /** The position of the colon ending a scheme, when `url` starts with one:
      the first colon, preceded by at least one scheme character, the first
      of them a letter. */
  function SchemeEnd(url: string): (r: Option<nat>)
    ensures r.Some? ==>
      && 0 < r.value < |url| && url[r.value] == ':' && IsAsciiLetter(url[0])
      && (forall k :: 0 <= k < r.value ==> IsSchemeChar(url[k]) && url[k] != ':')
    ensures r.None? ==>
      || Find(url, ":").None? || Find(url, ":").value == 0 || !IsAsciiLetter(url[0])
      || exists k :: 0 <= k < Find(url, ":").value && !IsSchemeChar(url[k])
  {
    match Find(url, ":")
    case None => None
    case Some(i) =>
      if i > 0 && IsAsciiLetter(url[0]) && forall k :: 0 <= k < i ==> IsSchemeChar(url[k]) then
        assert forall k :: 0 <= k < i ==> url[k] != ':' by {
          forall k | 0 <= k < i ensures url[k] != ':' {
            assert !StartsWith(url[k..], ":");
          }
        }
        Some(i)
      else None
  }

  /** The first position at or after `from` holding one of `/?#`, or the
      end: where the authority stops. */
  function AuthorityEnd(url: string, from: nat): (r: nat)
    requires from <= |url|
    ensures from <= r <= |url|
    ensures forall k :: from <= k < r ==> url[k] !in "/?#"
    ensures r < |url| ==> url[r] in "/?#"
    decreases |url| - from
  {
    if from == |url| || url[from] in "/?#" then from else AuthorityEnd(url, from + 1)
  }

  /** `urlsplit`'s check that square brackets in the authority pair up. */
  predicate BracketsBalanced(netloc: string) {
    ('[' in netloc) == (']' in netloc)
  }

  /** `uses_params`: the schemes whose last path segment may carry
      `;params`. */
  predicate UsesParams(scheme: string) {
    scheme in ["", "ftp", "hdl", "prospero", "http", "imap", "https", "shttp", "rtsp", "rtsps", "rtspu",
               "sip", "sips", "mms", "sftp", "tel"]
  }

  /** The last index of `c` in `s`, if any. */
  function RFind(s: string, c: char): (r: Option<nat>)
    ensures r.Some? ==> r.value < |s| && s[r.value] == c && forall k :: r.value < k < |s| ==> s[k] != c
    ensures r.None? ==> c !in s
  {
    if |s| == 0 then None
    else if s[|s| - 1] == c then Some(|s| - 1)
    else
      var r := RFind(s[..|s| - 1], c);
      assert s == s[..|s| - 1] + [s[|s| - 1]];
      r
  }

  /** `_splitparams`: the parameters start at the first `;` of the last
      path segment. */
  function SplitParams(path: string): (r: (string, string))
    ensures ';' !in path ==> r == (path, "")
    ensures |r.0| <= |path| && r.0 == path[..|r.0|]
  {
    var from := match RFind(path, '/') case Some(i) => i case None => 0;
    match Find(path[from..], ";")
    case None => (path, "")
    case Some(i) =>
      if ';' !in path then
        assert Contains(path[from..], ";") by {
          assert path[from..][i..i + 1] == ";";
          ContainsAt(path[from..], ";", i);
        }
        assert path[from..][i] in path;
        (path, "")
      else (path[..from + i], path[from + i + 1..])
  }

  /** The scheme, lower-cased, and what follows its colon; no scheme when
      `url` does not start with one. */
  function SplitScheme(url: string): (r: (string, string))
    ensures SchemeEnd(url).None? ==> r == ("", url)
    ensures SchemeEnd(url).Some? ==> r.1 == url[SchemeEnd(url).value + 1..]
  {
    match SchemeEnd(url)
    case Some(i) => (Lower(url[..i]), url[i + 1..])
    case None => ("", url)
  }

  /** `_splitnetloc`: after a leading `//`, the authority runs to the first
      of `/?#`. */
  function SplitAuthority(rest: string): (r: (string, string))
    ensures !StartsWith(rest, "//") ==> r == ("", rest)
    ensures StartsWith(rest, "//") ==> "//" + r.0 + r.1 == rest && forall k :: 0 <= k < |r.0| ==> r.0[k] !in "/?#"
  {
    if StartsWith(rest, "//") then
      var e := AuthorityEnd(rest, 2);
      assert rest == rest[..2] + rest[2..e] + rest[e..];
      (rest[2..e], rest[e..])
    else ("", rest)
  }

  /** The path, parameters, query and fragment of what follows the
      authority: the fragment follows the first `#`, the query lies between
      the first `?` and that `#`, and the path is a prefix of what precedes
      both. */
  function SplitTail(scheme: string, rest: string): (r: (string, string, string, string))
    ensures '#' !in rest && '?' !in rest && ';' !in rest ==> r == (rest, "", "", "")
    ensures TailAfterFirst(rest, '#', r.3)
    ensures TailAfterFirst(CutTail(rest, '#', r.3), '?', r.2) && '#' !in r.2
    ensures |r.0| <= |rest| && r.0 == rest[..|r.0|] && '?' !in r.0 && '#' !in r.0
    ensures !UsesParams(scheme) || ';' !in CutTail(CutTail(rest, '#', r.3), '?', r.2) ==>
      r.0 == CutTail(CutTail(rest, '#', r.3), '?', r.2) && r.1 == ""
  {
    var (beforeFragment, fragment) := SplitFirst(rest, '#');
    var (path0, query) := SplitFirst(beforeFragment, '?');
    var (path, params) := if UsesParams(scheme) && ';' in path0 then SplitParams(path0) else (path0, "");
    SplitTailParts(rest, beforeFragment, fragment, path0, query, path);
    (path, params, query, fragment)
  }

  lemma SplitTailParts(rest: string, beforeFragment: string, fragment: string, path0: string, query: string, path: string)
    requires (beforeFragment, fragment) == SplitFirst(rest, '#')
    requires (path0, query) == SplitFirst(beforeFragment, '?')
    requires |path| <= |path0| && path == path0[..|path|]
    ensures TailAfterFirst(rest, '#', fragment) && CutTail(rest, '#', fragment) == beforeFragment
    ensures TailAfterFirst(beforeFragment, '?', query) && CutTail(beforeFragment, '?', query) == path0
    ensures '#' !in query && |path| <= |rest| && path == rest[..|path|] && '?' !in path && '#' !in path
  {
    SplitFirstTail(rest, '#');
    SplitFirstTail(beforeFragment, '?');
    SplitFirstParts(rest, '#', '#');
    SplitFirstParts(beforeFragment, '?', '#');
    NotInPrefix(beforeFragment, '#', |path0|);
    NotInPrefix(path0, '?', |path|);
    NotInPrefix(path0, '#', |path|);
    assert path == rest[..|path|];
  }

  /** `urlparse(url)`, or the `ValueError` it raises for an authority with
      an unpaired square bracket. */
  function Parse(url0: string): (r: Result<ParsedUrl>)
    ensures r.Err? <==> !BracketsBalanced(SplitAuthority(SplitScheme(RemoveUnsafe(StripC0Left(url0))).1).0)
    ensures r.Ok? ==> r.value.scheme == SplitScheme(RemoveUnsafe(StripC0Left(url0))).0
    ensures r.Ok? ==> r.value.netloc == SplitAuthority(SplitScheme(RemoveUnsafe(StripC0Left(url0))).1).0
    ensures r.Ok? ==>
      ((r.value.path, r.value.params, r.value.query, r.value.fragment) ==
       SplitTail(r.value.scheme, SplitAuthority(SplitScheme(RemoveUnsafe(StripC0Left(url0))).1).1))
  {
    var url := RemoveUnsafe(StripC0Left(url0));
    var (scheme, rest) := SplitScheme(url);
    var (netloc, rest2) := SplitAuthority(rest);
    if !BracketsBalanced(netloc) then Err("ValueError: Invalid IPv6 URL")
    else
      var (path, params, query, fragment) := SplitTail(scheme, rest2);
      Ok(ParsedUrl(scheme, netloc, path, params, query, fragment))
  }

  // ---- Percent-decoding ----

  predicate IsHexDigit(c: char) {
    IsDigitChar(c) || 'a' <= c <= 'f' || 'A' <= c <= 'F'
  }

  function HexValue(c: char): (v: nat)
    requires IsHexDigit(c)
    ensures v < 16
  {
    if IsDigitChar(c) then c as int - '0' as int
    else if 'a' <= c <= 'f' then c as int - 'a' as int + 10
    else c as int - 'A' as int + 10
  }

  function HexChar(v: nat): (c: char)
    requires v < 16
    ensures IsHexDigit(c) && HexValue(c) == v
  {
    if v < 10 then ('0' as int + v) as char else ('A' as int + v - 10) as char
  }

  /** `unquote(s)`: every `%XY` with two hexadecimal digits naming an ASCII
      code becomes that character; anything else is kept. */
  function Unquote(s: string): (r: string)
    ensures '%' !in s ==> r == s
    decreases |s|
  {
    if |s| >= 3 && s[0] == '%' && IsHexDigit(s[1]) && IsHexDigit(s[2]) && HexValue(s[1]) * 16 + HexValue(s[2]) < 0x80 then
      [(HexValue(s[1]) * 16 + HexValue(s[2])) as char] + Unquote(s[3..])
    else if |s| == 0 then ""
    else
      assert '%' !in s ==> '%' !in s[1..] by {
        if '%' in s[1..] {
          var k :| 0 <= k < |s[1..]| && s[1..][k] == '%';
          assert s[k + 1] == '%';
        }
      }
      [s[0]] + Unquote(s[1..])
  }

  /** `%XY` for an ASCII character, with upper-case digits. */
  function PercentEncode(c: char): (r: string)
    requires c as int < 0x80
    ensures |r| == 3
  {
    ['%', HexChar(c as int / 16), HexChar(c as int % 16)]
  }

  function PercentEncodeAll(s: string): (r: string)
    requires forall k :: 0 <= k < |s| ==> s[k] as int < 0x80
    ensures |r| == 3 * |s|
  {
    if |s| == 0 then "" else PercentEncode(s[0]) + PercentEncodeAll(s[1..])
  }

  /** Decoding undoes encoding, character by character. */
  lemma {:induction false} UnquotePercentEncodeAll(s: string)
    requires forall k :: 0 <= k < |s| ==> s[k] as int < 0x80
    ensures Unquote(PercentEncodeAll(s)) == s
    decreases |s|
  {
    if |s| > 0 {
      var e := PercentEncodeAll(s);
      assert e[..3] == PercentEncode(s[0]) && e[3..] == PercentEncodeAll(s[1..]);
      assert (s[0] as int / 16) * 16 + s[0] as int % 16 == s[0] as int;
      UnquotePercentEncodeAll(s[1..]);
      assert e[0] == '%';
      assert ((HexValue(e[1]) * 16 + HexValue(e[2])) as char) == s[0];
    }
  }

  // ---- Query strings ----

  /** `s.replace('+', ' ')`. */
  function PlusToSpace(s: string): (r: string)
    ensures |r| == |s|
    ensures forall k :: 0 <= k < |s| ==> r[k] == (if s[k] == '+' then ' ' else s[k])
  {
    seq(|s|, k requires 0 <= k < |s| => if s[k] == '+' then ' ' else s[k])
  }

  /** One `name=value` field of a query, decoded; fields without `=` or
      with an empty value are skipped. */
  function ParseField(field: string): (r: Option<(string, string)>)
    ensures r.Some? <==> '=' in field && |SplitFirst(field, '=').1| > 0
  {
    if '=' !in field then None
    else
      var (name, value) := SplitFirst(field, '=');
      if |value| == 0 then None else Some((Unquote(PlusToSpace(name)), Unquote(PlusToSpace(value))))
  }

  predicate Names(field: string, name: string) {
    ParseField(field).Some? && ParseField(field).value.0 == name
  }

  /** The first of `fields[from..]` that is a field called `name`. */
  function FirstField(fields: seq<string>, name: string, from: nat): (r: Option<nat>)
    requires from <= |fields|
    ensures r.Some? ==> from <= r.value < |fields| && Names(fields[r.value], name)
    ensures forall k :: from <= k < |fields| && (r.None? || k < r.value) ==> !Names(fields[k], name)
    decreases |fields| - from
  {
    if from == |fields| then None
    else if Names(fields[from], name) then Some(from)
    else FirstField(fields, name, from + 1)
  }

  /** Field `k` is the first one called `name`. */
  predicate FirstNamed(fields: seq<string>, name: string, k: int) {
    0 <= k < |fields| && Names(fields[k], name) && forall j :: 0 <= j < k ==> !Names(fields[j], name)
  }

  /** `parse_qs(query)[name][0]`: the value of the first field called
      `name`, if any. */
  function QueryValue(query: string, name: string): (r: Option<string>)
    ensures r.Some? <==> exists k :: 0 <= k < |Split(query, "&")| && Names(Split(query, "&")[k], name)
    ensures r.Some? ==> exists k :: FirstNamed(Split(query, "&"), name, k) && r.value == ParseField(Split(query, "&")[k]).value.1
  {
    var fields := Split(query, "&");
    match FirstField(fields, name, 0)
    case Some(k) => Some(ParseField(fields[k]).value.1)
    case None => None
  }
}
