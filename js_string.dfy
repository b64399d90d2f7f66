/**
 The few `String.prototype` operations of ECMAScript that the components
 rely on: `indexOf`, `replace` with a string pattern, `substring` and `trim`.
 Strings are sequences of `char`; every index is a character index.
 */
module JsString {
  import opened Wrappers

  function Min(a: int, b: int): int { if a <= b then a else b }

  function Max(a: int, b: int): int { if a <= b then b else a }

  /** The code points ECMAScript counts as WhiteSpace or LineTerminator. */
  predicate IsWhitespace(c: char) {
    || c == '\t' || c == '\n' || c == '\U{000B}' || c == '\U{000C}' || c == '\r'
    || c == ' ' || c == '\U{00A0}' || c == '\U{1680}'
    || ('\U{2000}' <= c <= '\U{200A}')
    || c == '\U{2028}' || c == '\U{2029}' || c == '\U{202F}' || c == '\U{205F}'
    || c == '\U{3000}' || c == '\U{FEFF}'
  }

  /** `s` with its leading whitespace removed. */
  function TrimStart(s: string): (r: string)
    ensures |r| <= |s| && r == s[|s| - |r|..]
    ensures forall i :: 0 <= i < |s| - |r| ==> IsWhitespace(s[i])
    ensures r == [] || !IsWhitespace(r[0])
  {
    if |s| > 0 && IsWhitespace(s[0]) then TrimStart(s[1..]) else s
  }

  /** `s` with its trailing whitespace removed. */
  function TrimEnd(s: string): (r: string)
    ensures |r| <= |s| && r == s[..|r|]
    ensures forall i :: |r| <= i < |s| ==> IsWhitespace(s[i])
    ensures r == [] || !IsWhitespace(r[|r| - 1])
  {
    if |s| > 0 && IsWhitespace(s[|s| - 1]) then TrimEnd(s[..|s| - 1]) else s
  }

  /** `String.prototype.trim`. */
  function Trim(s: string): (r: string)
    ensures |r| <= |s|
    ensures r == [] || (!IsWhitespace(r[0]) && !IsWhitespace(r[|r| - 1]))
  {
    TrimEnd(TrimStart(s))
  }

  /** A string is falsy after trimming exactly when every character is whitespace. */
  lemma TrimEmptyIffBlank(s: string)
    ensures Trim(s) == [] <==> forall i :: 0 <= i < |s| ==> IsWhitespace(s[i])
  {
    var t := TrimStart(s);
    assert t != [] ==> t[0] == s[|s| - |t|];
    assert t != [] ==> TrimEnd(t) != [];
  }

  /** `pat` occurs in `s` starting at index `p`. */
  predicate OccursAt(s: string, pat: string, p: int) {
    0 <= p && p + |pat| <= |s| && s[p..p + |pat|] == pat
  }

  /** `s.indexOf(pat)`: the first index at which `pat` occurs, `None` for -1. */
  function IndexOf(s: string, pat: string): (r: Option<nat>)
    ensures r.Some? ==> OccursAt(s, pat, r.value)
    ensures forall q :: 0 <= q && (r.None? || q < r.value) ==> !OccursAt(s, pat, q)
    decreases |s|
  {
    if |pat| <= |s| && s[..|pat|] == pat then Some(0)
    else if |s| == 0 then None
    else
      var rest := IndexOf(s[1..], pat);
      OccursShift(s, pat);
      if rest.None? then None else Some(rest.value + 1)
  }

  /** An occurrence at `q` in `s`, past its first character, is one at `q - 1` in `s[1..]`. */
  lemma OccursShift(s: string, pat: string)
    requires |s| > 0
    ensures forall q :: 1 <= q ==> (OccursAt(s, pat, q) <==> OccursAt(s[1..], pat, q - 1))
  {
    forall q | 1 <= q
      ensures OccursAt(s, pat, q) <==> OccursAt(s[1..], pat, q - 1)
    {
      if q + |pat| <= |s| {
        assert s[1..][q - 1..q - 1 + |pat|] == s[q..q + |pat|];
      }
    }
  }

  /** The first occurrence of `pat` is at `p` exactly when `indexOf` says so. */
  lemma IndexOfIsFirst(s: string, pat: string, p: nat)
    requires OccursAt(s, pat, p)
    requires forall q :: 0 <= q < p ==> !OccursAt(s, pat, q)
    ensures IndexOf(s, pat) == Some(p)
  {
  }

  /** `indexOf` finds nothing exactly when `pat` occurs nowhere. */
  lemma IndexOfAbsent(s: string, pat: string)
    requires forall q :: 0 <= q ==> !OccursAt(s, pat, q)
    ensures IndexOf(s, pat) == None
  {
  }

  /**
   ECMAScript GetSubstitution for a string pattern (no capture groups):
   in the replacement template `t`, `$$` stands for `$`, `$&` for the matched
   text, `` $` `` for the text before the match and `$'` for the text after it;
   every other `$` is kept as it is.
   */
  function Substitute(t: string, matched: string, before: string, after: string): string
    decreases |t|
  {
    if |t| >= 2 && t[0] == '$' && t[1] == '$' then "$" + Substitute(t[2..], matched, before, after)
    else if |t| >= 2 && t[0] == '$' && t[1] == '&' then matched + Substitute(t[2..], matched, before, after)
    else if |t| >= 2 && t[0] == '$' && t[1] == '`' then before + Substitute(t[2..], matched, before, after)
    else if |t| >= 2 && t[0] == '$' && t[1] == '\'' then after + Substitute(t[2..], matched, before, after)
    else if |t| == 0 then ""
    else [t[0]] + Substitute(t[1..], matched, before, after)
  }

  /** A template without `$` is inserted verbatim. */
  lemma {:induction false} SubstituteVerbatim(t: string, matched: string, before: string, after: string)
    requires '$' !in t
    ensures Substitute(t, matched, before, after) == t
    decreases |t|
  {
    if |t| > 0 {
      assert t[0] != '$';
      assert '$' !in t[1..];
      SubstituteVerbatim(t[1..], matched, before, after);
    }
  }

  /** A `$`-free prefix of a template is inserted verbatim in front of the rest. */
  lemma {:induction false} SubstituteVerbatimPrefix(u: string, t: string, matched: string, before: string, after: string)
    requires '$' !in u
    ensures Substitute(u + t, matched, before, after) == u + Substitute(t, matched, before, after)
    decreases |u|
  {
    if |u| > 0 {
      assert u[0] != '$' && (u + t)[0] == u[0];
      assert (u + t)[1..] == u[1..] + t;
      SubstitutePlainHead(u + t, matched, before, after);
      assert '$' !in u[1..];
      SubstituteVerbatimPrefix(u[1..], t, matched, before, after);
      calc {
        Substitute(u + t, matched, before, after);
        [u[0]] + Substitute(u[1..] + t, matched, before, after);
        [u[0]] + (u[1..] + Substitute(t, matched, before, after));
        { assert [u[0]] + u[1..] == u; }
        u + Substitute(t, matched, before, after);
      }
    } else {
      assert u + t == t;
    }
  }

  /** A template that does not start with `$` begins with its own first character. */
  lemma SubstitutePlainHead(t: string, matched: string, before: string, after: string)
    requires |t| > 0 && t[0] != '$'
    ensures Substitute(t, matched, before, after) == [t[0]] + Substitute(t[1..], matched, before, after)
  {
  }

  /** `s.replace(pat, replacement)`: only the first occurrence of `pat` is replaced. */
  function Replace(s: string, pat: string, replacement: string): string {
    match IndexOf(s, pat)
    case None => s
    case Some(p) => s[..p] + Substitute(replacement, pat, s[..p], s[p + |pat|..]) + s[p + |pat|..]
  }

  /** Replaces the first occurrence of `pat` by `replacement` taken literally. */
  function ReplaceLiteral(s: string, pat: string, replacement: string): (r: string)
    ensures IndexOf(s, pat).None? ==> r == s
    ensures IndexOf(s, pat).Some? ==> |r| == |s| - |pat| + |replacement|
  {
    match IndexOf(s, pat)
    case None => s
    case Some(p) => s[..p] + replacement + s[p + |pat|..]
  }

  /** With a `$`-free replacement, `replace` is the literal replacement. */
  lemma ReplaceVerbatim(s: string, pat: string, replacement: string)
    requires '$' !in replacement
    ensures Replace(s, pat, replacement) == ReplaceLiteral(s, pat, replacement)
  {
    match IndexOf(s, pat)
    case None =>
    case Some(p) =>
      SubstituteVerbatim(replacement, pat, s[..p], s[p + |pat|..]);
      assert Replace(s, pat, replacement) == s[..p] + replacement + s[p + |pat|..];
  }

  /** The first occurrence, and only it, is rewritten; the text around it is kept. */
  lemma ReplaceFirstOccurrence(s: string, pat: string, replacement: string, p: nat)
    requires '$' !in replacement
    requires OccursAt(s, pat, p)
    requires forall q :: 0 <= q < p ==> !OccursAt(s, pat, q)
    ensures Replace(s, pat, replacement) == s[..p] + replacement + s[p + |pat|..]
  {
    IndexOfIsFirst(s, pat, p);
    ReplaceVerbatim(s, pat, replacement);
  }

  /** Without an occurrence, `replace` returns `s` unchanged. */
  lemma ReplaceAbsent(s: string, pat: string, replacement: string)
    requires forall q :: 0 <= q ==> !OccursAt(s, pat, q)
    ensures Replace(s, pat, replacement) == s
  {
    IndexOfAbsent(s, pat);
  }

  /** ToIntegerOrInfinity followed by clamping into `[0, len]`, as `substring` does. */
  function Clamp(x: int, len: nat): (r: nat)
    ensures r <= len
    ensures 0 <= x <= len ==> r == x
  {
    if x < 0 then 0 else if x > len then len else x
  }

  /**
   `s.substring(start, end)`: both bounds clamped into `[0, |s|]`, then
   swapped when the start exceeds the end.
   */
  function Substring(s: string, start: int, end: int): (r: string)
    ensures |r| <= |s|
    ensures 0 <= start <= end <= |s| ==> r == s[start..end]
    ensures 0 <= end <= start <= |s| ==> r == s[end..start]
    ensures start >= |s| && end >= |s| ==> r == ""
    ensures 0 <= start <= |s| <= end ==> r == s[start..]
  {
    var a, b := Clamp(start, |s|), Clamp(end, |s|);
    if a <= b then s[a..b] else s[b..a]
  }
}
