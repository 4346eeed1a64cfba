/** ASCII character classes, case folding and ordinal string comparison. */
module Ascii {
  import opened Numbers

  /** The class [0-9A-Za-z\-\.] that prerelease and build text is drawn from. */
  predicate IsIdentifierChar(c: char) {
    IsDigit(c) || 'A' <= c <= 'Z' || 'a' <= c <= 'z' || c == '-' || c == '.'
  }

  predicate AllIdentifierChars(s: string) {
    forall i :: 0 <= i < |s| ==> IsIdentifierChar(s[i])
  }

  /** The white space that string.IsNullOrWhiteSpace skips, restricted to the
      first 256 code points. */
  predicate IsWhiteSpace(c: char) {
    '\t' <= c <= '\r' || c == ' ' || c == '\U{85}' || c == '\U{A0}'
  }

  /** string.IsNullOrWhiteSpace on a non-null string. */
  predicate IsNullOrWhiteSpace(s: string) {
    forall i :: 0 <= i < |s| ==> IsWhiteSpace(s[i])
  }

  lemma IdentifierTextIsNotBlank(s: string)
    requires AllIdentifierChars(s)
    ensures IsNullOrWhiteSpace(s) <==> s == ""
  {
    if s != "" {
      assert !IsWhiteSpace(s[0]);
    }
  }

  /** Upper-casing of one character, ASCII letters only. */
  function ToUpper(c: char): char {
    if 'a' <= c <= 'z' then (c as int - 32) as char else c
  }

  /** string.ToUpper on ASCII text. */
  function Upper(s: string): string {
    seq(|s|, i requires 0 <= i < |s| => ToUpper(s[i]))
  }

  lemma UpperAppend(a: string, b: string)
    ensures Upper(a + b) == Upper(a) + Upper(b)
  {
  }

  /** Digits are left alone by case folding, and only digits fold to digits. */
  lemma UpperOfDigits(s: string)
    ensures AllDigits(Upper(s)) <==> AllDigits(s)
    ensures AllDigits(s) ==> Upper(s) == s
  {
    if !AllDigits(s) {
      var i :| 0 <= i < |s| && !IsDigit(s[i]);
      assert !IsDigit(Upper(s)[i]);
    }
  }

  /** string.Compare(a, b, StringComparison.Ordinal), reduced to its sign:
      the first differing code unit decides, and a proper prefix is smaller. */
  function CompareOrdinal(a: string, b: string): (r: int)
    ensures -1 <= r <= 1
    decreases |a|
  {
    if a == [] && b == [] then 0
    else if a == [] then -1
    else if b == [] then 1
    else if a[0] < b[0] then -1
    else if a[0] > b[0] then 1
    else CompareOrdinal(a[1..], b[1..])
  }

  /** string.Compare(a, b, StringComparison.OrdinalIgnoreCase) on ASCII text,
      reduced to its sign. */
  function CompareIgnoreCase(a: string, b: string): int {
    CompareOrdinal(Upper(a), Upper(b))
  }

  lemma {:induction false} CompareOrdinalZero(a: string, b: string)
    ensures CompareOrdinal(a, b) == 0 <==> a == b
    decreases |a|
  {
    if a != [] && b != [] && a[0] == b[0] {
      CompareOrdinalZero(a[1..], b[1..]);
      if a[1..] == b[1..] {
        assert a == [a[0]] + a[1..] && b == [b[0]] + b[1..];
      }
    }
  }

  lemma {:induction false} CompareOrdinalAntisymmetric(a: string, b: string)
    ensures CompareOrdinal(a, b) == -CompareOrdinal(b, a)
    decreases |a|
  {
    if a != [] && b != [] && a[0] == b[0] {
      CompareOrdinalAntisymmetric(a[1..], b[1..]);
    }
  }

  lemma {:induction false} CompareOrdinalTransitive(a: string, b: string, c: string)
    requires CompareOrdinal(a, b) <= 0 && CompareOrdinal(b, c) <= 0
    ensures CompareOrdinal(a, c) <= 0
    ensures CompareOrdinal(a, b) < 0 || CompareOrdinal(b, c) < 0 ==> CompareOrdinal(a, c) < 0
    decreases |a|
  {
    if a != [] && b != [] && c != [] && a[0] == b[0] && b[0] == c[0] {
      CompareOrdinalTransitive(a[1..], b[1..], c[1..]);
    }
  }

  lemma CompareIgnoreCaseZero(a: string, b: string)
    ensures CompareIgnoreCase(a, b) == 0 <==> Upper(a) == Upper(b)
  {
    CompareOrdinalZero(Upper(a), Upper(b));
  }
}
