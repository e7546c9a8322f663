/** The ASCII part of the string operations the dictionary code relies on:
    whitespace trimming and case mapping. Rust's `trim`, `to_uppercase` and
    `to_lowercase` follow Unicode; on ASCII text they agree with the
    definitions here. */
module Ascii {

  /** The ASCII characters with the Unicode White_Space property: tab, line
      feed, vertical tab, form feed, carriage return and space. */
  predicate IsWhitespace(c: char)
  {
    c == ' ' || '\t' <= c <= '\r'
  }

  predicate IsLower(c: char) { 'a' <= c <= 'z' }

  predicate IsUpper(c: char) { 'A' <= c <= 'Z' }

  predicate IsDigit(c: char) { '0' <= c <= '9' }

  function ToUpper(c: char): (u: char)
    ensures IsLower(c) ==> IsUpper(u) && u as int == c as int - 32
    ensures !IsLower(c) ==> u == c
  {
    if IsLower(c) then (c as int - 32) as char else c
  }

  function ToLower(c: char): (l: char)
    ensures IsUpper(c) ==> IsLower(l) && l as int == c as int + 32
    ensures !IsUpper(c) ==> l == c
  {
    if IsUpper(c) then (c as int + 32) as char else c
  }

  function Upper(s: string): (u: string)
    ensures |u| == |s| && forall i :: 0 <= i < |s| ==> u[i] == ToUpper(s[i])
  {
    seq(|s|, i requires 0 <= i < |s| => ToUpper(s[i]))
  }

  function Lower(s: string): (l: string)
    ensures |l| == |s| && forall i :: 0 <= i < |s| ==> l[i] == ToLower(s[i])
  {
    seq(|s|, i requires 0 <= i < |s| => ToLower(s[i]))
  }

  /** Case mapping forgets the case it started from. */
  lemma CaseMappingsAbsorb(c: char)
    ensures ToUpper(ToUpper(c)) == ToUpper(c) && ToLower(ToLower(c)) == ToLower(c)
    ensures ToUpper(ToLower(c)) == ToUpper(c) && ToLower(ToUpper(c)) == ToLower(c)
  {
  }

  predicate AllWhitespace(s: string)
  {
    forall i :: 0 <= i < |s| ==> IsWhitespace(s[i])
  }

  /** Where the content starts: the number of leading whitespace
      characters. */
  function ContentStart(s: string): (i: nat)
    ensures i <= |s| && AllWhitespace(s[..i])
    ensures i < |s| ==> !IsWhitespace(s[i])
    decreases |s|
  {
    if |s| > 0 && IsWhitespace(s[0]) then
      var i := ContentStart(s[1..]);
      assert forall k :: 0 < k <= i ==> s[k] == s[1..][k - 1];
      i + 1
    else 0
  }

  /** Where the content ends: the length without trailing whitespace. */
  function ContentEnd(s: string): (j: nat)
    ensures j <= |s| && AllWhitespace(s[j..])
    ensures j > 0 ==> !IsWhitespace(s[j - 1])
    decreases |s|
  {
    if |s| > 0 && IsWhitespace(s[|s| - 1]) then
      var j := ContentEnd(s[..|s| - 1]);
      assert forall k :: j <= k < |s| - 1 ==> s[k] == s[..|s| - 1][k];
      j
    else |s|
  }

  /** Drops whitespace at both ends, as `str::trim` does: what remains is a
      slice of the original with only whitespace cut off on either side,
      and it neither starts nor ends with whitespace. */
  function Trim(s: string): (r: string)
    ensures exists i, j :: 0 <= i <= j <= |s| && r == s[i..j]
                           && AllWhitespace(s[..i]) && AllWhitespace(s[j..])
    ensures |r| > 0 ==> !IsWhitespace(r[0]) && !IsWhitespace(r[|r| - 1])
  {
    var i := ContentStart(s);
    var j := i + ContentEnd(s[i..]);
    assert s[j..] == s[i..][j - i..];
    assert AllWhitespace(s[..i]) && AllWhitespace(s[j..]);
    assert 0 <= i <= j <= |s| && s[i..j] == s[i..j];
    s[i..j]
  }

  /** Trimming twice changes nothing more. */
  lemma TrimIdempotent(s: string)
    ensures Trim(Trim(s)) == Trim(s)
  {
    var r := Trim(s);
    assert ContentStart(r) == 0;
    assert r[0..] == r;
    assert ContentEnd(r) == |r|;
  }
}
