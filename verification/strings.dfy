/** Character and string helpers shared by the Rust and JavaScript halves of the model. */
module Strings {

  predicate StartsWith(s: string, prefix: string) {
    |prefix| <= |s| && s[..|prefix|] == prefix
  }

  predicate EndsWith(s: string, suffix: string) {
    |suffix| <= |s| && s[|s| - |suffix|..] == suffix
  }

  /** Rust's `char::is_whitespace`: the Unicode White_Space property. */
  predicate IsRustWhitespace(c: char) {
    || c == ' ' || ('\t' <= c <= '\r')
    || c == '\U{85}' || c == '\U{A0}' || c == '\U{1680}'
    || ('\U{2000}' <= c <= '\U{200A}')
    || c == '\U{2028}' || c == '\U{2029}' || c == '\U{202F}' || c == '\U{205F}' || c == '\U{3000}'
  }

  /** Length of the longest prefix of `s` made of whitespace. */
  function LeadingWhitespace(s: string): (n: nat)
    ensures n <= |s|
    ensures forall i :: 0 <= i < n ==> IsRustWhitespace(s[i])
    ensures n < |s| ==> !IsRustWhitespace(s[n])
  {
    if s == [] || !IsRustWhitespace(s[0]) then 0 else 1 + LeadingWhitespace(s[1..])
  }

  /** Length of the longest suffix of `s` made of whitespace. */
  function TrailingWhitespace(s: string): (n: nat)
    ensures n <= |s|
    ensures forall i :: |s| - n <= i < |s| ==> IsRustWhitespace(s[i])
    ensures n < |s| ==> !IsRustWhitespace(s[|s| - n - 1])
  {
    if s == [] || !IsRustWhitespace(s[|s| - 1]) then 0
    else 1 + TrailingWhitespace(s[..|s| - 1])
  }

  /** Rust's `str::trim`: drops leading and trailing whitespace. */
  function Trim(s: string): (r: string)
    ensures exists i, j :: 0 <= i <= j <= |s| && r == s[i..j]
                           && (forall k :: 0 <= k < i ==> IsRustWhitespace(s[k]))
                           && (forall k :: j <= k < |s| ==> IsRustWhitespace(s[k]))
    ensures r != [] ==> !IsRustWhitespace(r[0]) && !IsRustWhitespace(r[|r| - 1])
  {
    var i := LeadingWhitespace(s);
    if i == |s| then
      assert s[i..i] == [];
      []
    else
      var t := s[i..];
      var n := TrailingWhitespace(t);
      assert !IsRustWhitespace(t[0]);
      assert forall k :: |s| - n <= k < |s| ==> s[k] == t[k - i];
      s[i..|s| - n]
  }

  /** JavaScript's `String.prototype.toUpperCase` restricted to ASCII letters. */
  function AsciiUpper(c: char): char {
    if 'a' <= c <= 'z' then (c as int - 32) as char else c
  }

  function ToUpperCase(s: string): (r: string)
    ensures |r| == |s|
    ensures forall i :: 0 <= i < |s| ==> r[i] == AsciiUpper(s[i])
  {
    seq(|s|, i requires 0 <= i < |s| => AsciiUpper(s[i]))
  }

  /** Equality ignoring the case of ASCII letters. */
  predicate EqualsIgnoreCase(a: string, b: string) {
    ToUpperCase(a) == ToUpperCase(b)
  }

  /** Two characters that are equal, or the lower- and upper-case forms of one
      ASCII letter. */
  predicate SameLetterIgnoringCase(c: char, d: char) {
    || c == d
    || ('a' <= c <= 'z' && d as int == c as int - 32)
    || ('a' <= d <= 'z' && c as int == d as int - 32)
  }

  /** Upper-casing leaves no lower-case ASCII letter, so a second pass changes
      nothing and every string equals its upper-cased form ignoring case. */
  lemma UpperCaseNormalises(s: string)
    ensures forall i :: 0 <= i < |s| ==> !('a' <= ToUpperCase(s)[i] <= 'z')
    ensures ToUpperCase(ToUpperCase(s)) == ToUpperCase(s)
    ensures EqualsIgnoreCase(s, ToUpperCase(s))
  {
    var u := ToUpperCase(s);
    assert forall i :: 0 <= i < |u| ==> AsciiUpper(u[i]) == u[i];
    assert ToUpperCase(u) == u;
  }

  /** Comparing the upper-cased forms is comparing character by character,
      where the two cases of an ASCII letter count as one. */
  lemma EqualsIgnoreCaseLetters(a: string, b: string)
    ensures EqualsIgnoreCase(a, b) <==> |a| == |b| && forall i :: 0 <= i < |a| ==> SameLetterIgnoringCase(a[i], b[i])
  {
    if |a| == |b| {
      assert (forall i :: 0 <= i < |a| ==> SameLetterIgnoringCase(a[i], b[i]))
             <==> (forall i :: 0 <= i < |a| ==> AsciiUpper(a[i]) == AsciiUpper(b[i]));
      if forall i :: 0 <= i < |a| ==> AsciiUpper(a[i]) == AsciiUpper(b[i]) {
        assert ToUpperCase(a) == ToUpperCase(b);
      }
    }
  }
}
