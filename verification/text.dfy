/** `System.String` helpers the evaluator relies on: `TrimStart`/`TrimEnd`
    with one character, `char.IsWhiteSpace` and `string.IsNullOrWhiteSpace`. */
module Text {
  import opened Wrappers
  import Sequences

  /** `s.TrimStart(c)`: drops every leading `c`, not just one. */
  function TrimStart(s: string, c: char): (r: string)
    ensures |r| <= |s| && r == s[|s| - |r|..]
    ensures |r| > 0 ==> r[0] != c
    ensures forall i :: 0 <= i < |s| - |r| ==> s[i] == c
  {
    if |s| > 0 && s[0] == c then TrimStart(s[1..], c) else s
  }

  /** `s.TrimEnd(c)`: drops every trailing `c`, not just one. */
  function TrimEnd(s: string, c: char): (r: string)
    ensures |r| <= |s| && r == s[..|r|]
    ensures |r| > 0 ==> r[|r| - 1] != c
    ensures forall i :: |r| <= i < |s| ==> s[i] == c
  {
    if |s| > 0 && s[|s| - 1] == c then TrimEnd(s[..|s| - 1], c) else s
  }

  /** Number of leading `c` in `s`. */
  function LeadingCount(s: string, c: char): (k: nat)
    ensures k <= |s|
    ensures forall i :: 0 <= i < k ==> s[i] == c
    ensures k < |s| ==> s[k] != c
  {
    if |s| > 0 && s[0] == c then 1 + LeadingCount(s[1..], c) else 0
  }

  /** `s.TrimStart(c).TrimEnd(c)`, the quote stripping of the string and
      character literal rules: what is left is the infix of `s` that starts
      after the leading `c`s, ends before the trailing ones and neither
      starts nor ends with `c`. */
  function Trim(s: string, c: char): (r: string)
    ensures LeadingCount(s, c) + |r| <= |s|
    ensures r == s[LeadingCount(s, c)..LeadingCount(s, c) + |r|]
    ensures forall i :: LeadingCount(s, c) + |r| <= i < |s| ==> s[i] == c
    ensures |r| > 0 ==> r[0] != c && r[|r| - 1] != c
    ensures |r| == 0 <==> forall i :: 0 <= i < |s| ==> s[i] == c
  {
    TrimStartDropsLeadingCount(s, c);
    TrimEnd(TrimStart(s, c), c)
  }

  /** `TrimStart` removes exactly the leading run of `c`. */
  lemma {:induction false} TrimStartDropsLeadingCount(s: string, c: char)
    ensures TrimStart(s, c) == s[LeadingCount(s, c)..]
  {
    if |s| > 0 && s[0] == c {
      TrimStartDropsLeadingCount(s[1..], c);
      assert s[1..][LeadingCount(s[1..], c)..] == s[LeadingCount(s, c)..];
    }
  }

  /** Wrapping a text in any number of `c` on each side is undone by `Trim`
      as long as the text itself neither starts nor ends with `c`. */
  lemma TrimUnwraps(body: string, c: char, m: nat, n: nat)
    requires |body| > 0 ==> body[0] != c && body[|body| - 1] != c
    ensures Trim(Repeat(c, m) + body + Repeat(c, n), c) == body
  {
    var s := Repeat(c, m) + body + Repeat(c, n);
    if |body| == 0 {
      assert forall i :: 0 <= i < |s| ==> s[i] == c;
    } else {
      assert s == Repeat(c, m) + (body + Repeat(c, n));
      TrimStartRepeat(c, m, body + Repeat(c, n));
      TrimEndRepeat(c, n, body);
    }
  }

  function Repeat(c: char, n: nat): (r: string)
    ensures |r| == n && forall i :: 0 <= i < n ==> r[i] == c
  {
    seq(n, _ => c)
  }

  lemma {:induction false} TrimStartRepeat(c: char, m: nat, rest: string)
    requires |rest| > 0 ==> rest[0] != c
    ensures TrimStart(Repeat(c, m) + rest, c) == rest
    decreases m
  {
    if m > 0 {
      assert (Repeat(c, m) + rest)[1..] == Repeat(c, m - 1) + rest;
      TrimStartRepeat(c, m - 1, rest);
    } else {
      assert Repeat(c, m) + rest == rest;
    }
  }

  lemma {:induction false} TrimEndRepeat(c: char, n: nat, body: string)
    requires |body| > 0 && body[|body| - 1] != c
    ensures TrimEnd(body + Repeat(c, n), c) == body
    decreases n
  {
    var s := body + Repeat(c, n);
    if n > 0 {
      assert s[..|s| - 1] == body + Repeat(c, n - 1);
      TrimEndRepeat(c, n - 1, body);
    } else {
      assert s == body;
    }
  }

  /** `char.IsWhiteSpace`: the Unicode space separators, line and paragraph
      separators, and the control characters U+0009 to U+000D and U+0085. */
  function IsWhiteSpace(c: char): (r: bool)
    ensures c == ' ' || c == '\t' || c == '\n' || c == '\r' ==> r
    ensures ('0' <= c <= '9') || ('a' <= c <= 'z') || ('A' <= c <= 'Z') ==> !r
    ensures c == '\U{200B}' || c == '\U{FEFF}' ==> !r
    ensures r ==> c <= '\U{3000}'
  {
    || ('\U{0009}' <= c <= '\U{000D}')
    || c == '\U{0020}' || c == '\U{0085}' || c == '\U{00A0}' || c == '\U{1680}'
    || ('\U{2000}' <= c <= '\U{200A}')
    || c == '\U{2028}' || c == '\U{2029}' || c == '\U{202F}' || c == '\U{205F}' || c == '\U{3000}'
  }

  /** `string.IsNullOrWhiteSpace`: null, empty, or nothing but white space,
      i.e. a search for a character that is not white space finds none. */
  function IsNullOrWhiteSpace(s: Option<string>): (r: bool)
    ensures s.None? || s == Some("") ==> r
    ensures s.Some? ==> (r <==> Sequences.FirstIndex(s.value, c => !IsWhiteSpace(c)).None?)
  {
    s.None? || forall i :: 0 <= i < |s.value| ==> IsWhiteSpace(s.value[i])
  }
}
