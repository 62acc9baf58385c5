/** String primitives with the JavaScript semantics the application relies on:
    `startsWith`, first-occurrence `replace`, `split` on a one-character
    separator, `trim`, ASCII `toLowerCase` and decimal rendering of integers.
    Strings are sequences of Dafny characters. */
module Text {
  import opened Wrappers

  predicate StartsWith(s: string, p: string) {
    |p| <= |s| && s[..|p|] == p
  }

  predicate EndsWith(s: string, p: string) {
    |p| <= |s| && s[|s| - |p|..] == p
  }

  /** `p` occurs in `s` starting at index `i`. */
  predicate OccursAt(s: string, p: string, i: nat) {
    i + |p| <= |s| && s[i..i + |p|] == p
  }

  /** The first index at or after `from` where `p` occurs (`indexOf(p, from)`). */
  function FindFrom(s: string, p: string, from: nat): (r: Option<nat>)
    ensures r.Some? ==> from <= r.value && OccursAt(s, p, r.value)
    ensures r.Some? ==> forall k :: from <= k < r.value ==> !OccursAt(s, p, k)
    ensures r.None? ==> forall k :: from <= k ==> !OccursAt(s, p, k)
    decreases |s| - from
  {
    if from + |p| > |s| then None
    else if OccursAt(s, p, from) then Some(from)
    else FindFrom(s, p, from + 1)
  }

  /** `s.replace(p, t)` with a string pattern: only the first occurrence is replaced. */
  function ReplaceFirst(s: string, p: string, t: string): (r: string)
    ensures StartsWith(s, p) ==> r == t + s[|p|..]
    ensures (forall k :: !OccursAt(s, p, k)) ==> r == s
  {
    match FindFrom(s, p, 0)
    case None => s
    case Some(i) =>
      assert StartsWith(s, p) ==> OccursAt(s, p, 0);
      s[..i] + t + s[i + |p|..]
  }

  /** Number of occurrences of `c` in `s`. */
  function Count(s: string, c: char): nat {
    if |s| == 0 then 0 else (if s[0] == c then 1 else 0) + Count(s[1..], c)
  }

  /** `parts.join(sep)`. */
  function Join(parts: seq<string>, sep: string): string {
    if |parts| == 0 then ""
    else if |parts| == 1 then parts[0]
    else parts[0] + sep + Join(parts[1..], sep)
  }

  /** `s.split(c)` for a one-character separator: the pieces between separators,
      including empty ones; splitting "" gives [""]. */
  function Split(s: string, c: char): (r: seq<string>)
    ensures |r| == Count(s, c) + 1
    ensures forall i :: 0 <= i < |r| ==> c !in r[i]
    ensures Join(r, [c]) == s
  {
    if |s| == 0 then [""]
    else if s[0] == c then
      var rest := Split(s[1..], c);
      assert Join([""] + rest, [c]) == [c] + Join(rest, [c]);
      [""] + rest
    else
      var rest := Split(s[1..], c);
      var r := [[s[0]] + rest[0]] + rest[1..];
      assert |rest| == 1 ==> Join(r, [c]) == [s[0]] + Join(rest, [c]);
      assert |rest| > 1 ==> Join(r, [c]) == [s[0]] + (rest[0] + [c] + Join(rest[1..], [c]));
      assert s == [s[0]] + s[1..];
      r
  }

  /** WhiteSpace and LineTerminator code points of ECMAScript, the set `trim` removes. */
  predicate IsJsWhitespace(ch: char) {
    || ch == '\t' || ch == '\n' || ch == '\U{000B}' || ch == '\U{000C}' || ch == '\r'
    || ch == ' ' || ch == '\U{00A0}' || ch == '\U{1680}'
    || ('\U{2000}' <= ch <= '\U{200A}')
    || ch == '\U{2028}' || ch == '\U{2029}' || ch == '\U{202F}' || ch == '\U{205F}'
    || ch == '\U{3000}' || ch == '\U{FEFF}'
  }

  /** Every character of `s` in `[i, j)` is whitespace. */
  predicate WhitespaceBetween(s: string, i: nat, j: nat)
    requires i <= j <= |s|
  {
    forall k :: i <= k < j ==> IsJsWhitespace(s[k])
  }

  /** Index of the first non-whitespace character at or after `from`. */
  function SkipLeading(s: string, from: nat): (k: nat)
    requires from <= |s|
    ensures from <= k <= |s| && WhitespaceBetween(s, from, k)
    ensures k < |s| ==> !IsJsWhitespace(s[k])
    decreases |s| - from
  {
    if from < |s| && IsJsWhitespace(s[from]) then SkipLeading(s, from + 1) else from
  }

  /** Index just past the last non-whitespace character of `s[lo..hi]`. */
  function SkipTrailing(s: string, lo: nat, hi: nat): (k: nat)
    requires lo <= hi <= |s|
    ensures lo <= k <= hi && WhitespaceBetween(s, k, hi)
    ensures k > lo ==> !IsJsWhitespace(s[k - 1])
    decreases hi - lo
  {
    if lo < hi && IsJsWhitespace(s[hi - 1]) then SkipTrailing(s, lo, hi - 1) else hi
  }

  /** `r` is `s` with some whitespace prefix and some whitespace suffix removed,
      and neither end of `r` is whitespace. */
  ghost predicate IsTrimOf(s: string, r: string) {
    && (|r| > 0 ==> !IsJsWhitespace(r[0]) && !IsJsWhitespace(r[|r| - 1]))
    && exists lead: nat :: lead + |r| <= |s| && s[lead..lead + |r|] == r
         && WhitespaceBetween(s, 0, lead) && WhitespaceBetween(s, lead + |r|, |s|)
  }

  /** `s.trim()`. */
  function Trim(s: string): (r: string)
    ensures IsTrimOf(s, r)
  {
    var a := SkipLeading(s, 0);
    var b := SkipTrailing(s, a, |s|);
    assert WhitespaceBetween(s, a + |s[a..b]|, |s|);
    s[a..b]
  }

  /** `s.trim()` is empty exactly when `s` is all whitespace. */
  lemma TrimEmptyIffBlank(s: string)
    ensures Trim(s) == "" <==> WhitespaceBetween(s, 0, |s|)
  {
    var r := Trim(s);
    var lead: nat :| lead + |r| <= |s| && s[lead..lead + |r|] == r
                     && WhitespaceBetween(s, 0, lead) && WhitespaceBetween(s, lead + |r|, |s|);
    if |r| > 0 {
      assert r[0] == s[lead];
    }
  }

  /** ASCII lower-casing of one character. */
  function LowerChar(ch: char): char {
    if 'A' <= ch <= 'Z' then (ch as int + 32) as char else ch
  }

  /** `s.toLowerCase()` restricted to ASCII letters. */
  function ToLower(s: string): (r: string)
    ensures |r| == |s|
    ensures forall i :: 0 <= i < |s| ==> r[i] == LowerChar(s[i])
  {
    if |s| == 0 then "" else [LowerChar(s[0])] + ToLower(s[1..])
  }

  predicate IsDigit(ch: char) {
    '0' <= ch <= '9'
  }

  predicate AllDigits(s: string) {
    forall i :: 0 <= i < |s| ==> IsDigit(s[i])
  }

  /** The number a string of decimal digits denotes. */
  function DecimalValue(s: string): nat
    requires AllDigits(s)
  {
    if |s| == 0 then 0
    else DecimalValue(s[..|s| - 1]) * 10 + (s[|s| - 1] as int - '0' as int)
  }

  function DigitChar(d: nat): (ch: char)
    requires d < 10
    ensures IsDigit(ch) && ch as int - '0' as int == d
  {
    (d + '0' as int) as char
  }

  /** `String(n)` for a non-negative integer: its decimal digits, without leading zeros. */
  function NatToString(n: nat): (r: string)
    ensures |r| > 0 && AllDigits(r)
    ensures DecimalValue(r) == n
    ensures |r| > 1 ==> r[0] != '0'
    decreases n
  {
    if n < 10 then [DigitChar(n)]
    else
      var prefix := NatToString(n / 10);
      var r := prefix + [DigitChar(n % 10)];
      assert r[..|r| - 1] == prefix;
      r
  }

  /** `String(i)` for any integer. */
  function IntToString(i: int): (r: string)
    ensures |r| > 0
    ensures i < 0 <==> r[0] == '-'
  {
    if i < 0 then "-" + NatToString(-i) else NatToString(i)
  }
}
