/** Text helpers used by the car search: JavaScript's `String.prototype.trim`
    and the case-insensitive match that a `$regex` with option "i" performs
    on a pattern without metacharacters. */
module Text {

  /** The characters `trim` removes: ECMAScript WhiteSpace (tab, vertical tab,
      form feed, space, no-break space, byte order mark and the Zs category)
      and LineTerminator (LF, CR, LS, PS). */
  predicate IsJsWhitespace(c: char) {
    c == '\t' || c == '\n' || c == '\U{000B}' || c == '\U{000C}' || c == '\r' || c == ' '
    || c == '\U{00A0}' || c == '\U{1680}' || ('\U{2000}' <= c <= '\U{200A}')
    || c == '\U{2028}' || c == '\U{2029}' || c == '\U{202F}' || c == '\U{205F}'
    || c == '\U{3000}' || c == '\U{FEFF}'
  }

  /** The characters of `s` at positions `lo` up to `hi` are whitespace. */
  predicate BlankBetween(s: string, lo: int, hi: int) {
    forall k :: lo <= k < hi && 0 <= k < |s| ==> IsJsWhitespace(s[k])
  }

  /** Every character of `s` is whitespace (the empty string included). */
  predicate IsBlank(s: string) {
    BlankBetween(s, 0, |s|)
  }

  /** The position of the first non-whitespace character at or after `i`,
      or `|s|` when there is none: where the trimmed string starts. */
  function SkipLeading(s: string, i: nat): (k: nat)
    requires i <= |s|
    ensures i <= k <= |s|
    ensures BlankBetween(s, i, k)
    ensures k < |s| ==> !IsJsWhitespace(s[k])
    decreases |s| - i
  {
    if i < |s| && IsJsWhitespace(s[i]) then SkipLeading(s, i + 1) else i
  }

  /** The position just past the last non-whitespace character before `j`
      and not before `lo`, or `lo` when there is none: where the trimmed
      string ends. */
  function SkipTrailing(s: string, lo: nat, j: nat): (k: nat)
    requires lo <= j <= |s|
    ensures lo <= k <= j
    ensures BlankBetween(s, k, j)
    ensures k > lo ==> !IsJsWhitespace(s[k - 1])
    decreases j
  {
    if j > lo && IsJsWhitespace(s[j - 1]) then SkipTrailing(s, lo, j - 1) else j
  }

  /** `s` is `r` with only whitespace before it (the first `i` characters)
      and only whitespace after it. */
  predicate PaddedAt(s: string, r: string, i: int) {
    0 <= i <= |s| - |r| && s[i..i + |r|] == r && BlankBetween(s, 0, i) && BlankBetween(s, i + |r|, |s|)
  }

  /** JavaScript's `s.trim()`: `s` is the trimmed string with whitespace on
      either side, and the trimmed string neither starts nor ends with
      whitespace. */
  function Trim(s: string): (r: string)
    ensures exists i :: PaddedAt(s, r, i)
    ensures r != [] ==> !IsJsWhitespace(r[0]) && !IsJsWhitespace(r[|r| - 1])
  {
    var i := SkipLeading(s, 0);
    var j := SkipTrailing(s, i, |s|);
    assert PaddedAt(s, s[i..j], i);
    s[i..j]
  }

  /** `s.trim()` is falsy (the empty string) exactly when `s` is blank. */
  lemma TrimEmptyIffBlank(s: string)
    ensures Trim(s) == [] <==> IsBlank(s)
  {
    var i :| PaddedAt(s, Trim(s), i);
    if Trim(s) == [] {
      assert BlankBetween(s, 0, i) && BlankBetween(s, i, |s|);
    }
  }

  /** ASCII upper-case letters folded to lower case; every other character
      is left as it is. */
  function Lower(c: char): (d: char)
    ensures 'A' <= c <= 'Z' ==> d as int == c as int + 32
    ensures !('A' <= c <= 'Z') ==> d == c
    ensures !('A' <= d <= 'Z')
  {
    if 'A' <= c <= 'Z' then (c as int - 'A' as int + 'a' as int) as char else c
  }

  /** `pattern` occurs at the very start of `text`, ignoring case. */
  predicate StartsWithIgnoreCase(text: string, pattern: string) {
    |pattern| <= |text| && forall i :: 0 <= i < |pattern| ==> Lower(text[i]) == Lower(pattern[i])
  }

  /** `pattern` occurs somewhere in `text`, ignoring case: the match that
      `{ $regex: pattern, $options: "i" }` makes for a pattern without
      metacharacters. Scans the text from the left. */
  function ContainsIgnoreCase(text: string, pattern: string): (b: bool)
    ensures b <==> exists k :: 0 <= k <= |text| - |pattern| && StartsWithIgnoreCase(text[k..], pattern)
    decreases |text|
  {
    if StartsWithIgnoreCase(text, pattern) then
      assert text[0..] == text;
      true
    else if |text| <= |pattern| then
      false
    else
      var b := ContainsIgnoreCase(text[1..], pattern);
      assert forall k :: 1 <= k <= |text| ==> text[1..][k - 1..] == text[k..];
      b
  }

  /** Patterns that agree up to case match the same texts. */
  lemma {:induction false} ContainsIgnoresCaseOfPattern(text: string, p: string, q: string)
    requires |p| == |q| && forall i :: 0 <= i < |p| ==> Lower(p[i]) == Lower(q[i])
    ensures ContainsIgnoreCase(text, p) == ContainsIgnoreCase(text, q)
  {
    if ContainsIgnoreCase(text, p) {
      var k :| 0 <= k <= |text| - |p| && StartsWithIgnoreCase(text[k..], p);
      assert StartsWithIgnoreCase(text[k..], q);
    }
    if ContainsIgnoreCase(text, q) {
      var k :| 0 <= k <= |text| - |q| && StartsWithIgnoreCase(text[k..], q);
      assert StartsWithIgnoreCase(text[k..], p);
    }
  }

  /** A text contains every one of its own substrings, whatever their case. */
  lemma SubstringMatches(text: string, i: nat, j: nat)
    requires i <= j <= |text|
    ensures ContainsIgnoreCase(text, text[i..j])
  {
    assert StartsWithIgnoreCase(text[i..], text[i..j]);
  }
}
