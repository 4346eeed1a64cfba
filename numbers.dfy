/** 32-bit integers and their decimal text, as Int32 parses and prints them. */
module Numbers {
  import opened Wrappers

  const MinInt32: int := -0x8000_0000
  const MaxInt32: int := 0x7fff_ffff

  type Int32 = x: int | MinInt32 <= x <= MaxInt32

  /** Int32.CompareTo: -1, 0 or 1 as a is below, equal to or above b. */
  function CompareInt(a: int, b: int): (r: int)
    ensures r == 0 <==> a == b
    ensures r < 0 <==> a < b
    ensures r > 0 <==> a > b
    ensures -1 <= r <= 1
  {
    if a < b then -1 else if a > b then 1 else 0
  }

  /** Reduces an unbounded result to Int32 the way unchecked C# arithmetic does. */
  function Wrap32(x: int): (r: Int32)
    ensures (r - x) % 0x1_0000_0000 == 0
  {
    (x - MinInt32) % 0x1_0000_0000 + MinInt32
  }

  predicate IsDigit(c: char) {
    '0' <= c <= '9'
  }

  predicate AllDigits(s: string) {
    forall i :: 0 <= i < |s| ==> IsDigit(s[i])
  }

  function DigitValue(c: char): nat
    requires IsDigit(c)
  {
    c as int - '0' as int
  }

  function DigitChar(d: nat): (c: char)
    requires d < 10
    ensures IsDigit(c) && DigitValue(c) == d
  {
    ('0' as int + d) as char
  }

  /** The value of a decimal digit string, most significant digit first. */
  function Value(s: string): nat
    requires AllDigits(s)
  {
    if s == [] then 0 else Value(s[..|s| - 1]) * 10 + DigitValue(s[|s| - 1])
  }

  /** The decimal text of a non-negative integer (Int32.ToString on n >= 0). */
  function NatToString(n: nat): (s: string)
    ensures |s| > 0 && AllDigits(s)
    ensures s[0] == '0' ==> s == "0"
    decreases n
  {
    if n < 10 then [DigitChar(n)] else NatToString(n / 10) + [DigitChar(n % 10)]
  }

  /** A digit string without superfluous leading zeros. */
  predicate IsCanonical(s: string) {
    |s| > 0 && AllDigits(s) && (s[0] == '0' ==> |s| == 1)
  }

  /** int.TryParse(s, NumberStyles.None, CultureInfo.InvariantCulture):
      a non-empty run of ASCII digits whose value fits in Int32; no sign,
      no white space, leading zeros allowed. */
  function TryParseInt32(s: string): Option<Int32> {
    if |s| > 0 && AllDigits(s) && Value(s) <= MaxInt32 then Some(Value(s)) else None
  }

  lemma {:induction false} ValueOfNatToString(n: nat)
    ensures Value(NatToString(n)) == n
    decreases n
  {
    if n >= 10 {
      ValueOfNatToString(n / 10);
      var s := NatToString(n);
      assert s[..|s| - 1] == NatToString(n / 10);
    }
  }

  lemma {:induction false} ValueAtLeastLeadingDigit(s: string)
    requires |s| > 0 && AllDigits(s)
    ensures Value(s) >= DigitValue(s[0])
    ensures |s| > 1 && s[0] != '0' ==> Value(s) >= 10
    decreases |s|
  {
    if |s| > 1 {
      ValueAtLeastLeadingDigit(s[..|s| - 1]);
    }
  }

  /** Printing undoes parsing on canonical digit strings. */
  lemma {:induction false} NatToStringOfValue(s: string)
    requires IsCanonical(s)
    ensures NatToString(Value(s)) == s
    decreases |s|
  {
    if |s| > 1 {
      var init := s[..|s| - 1];
      ValueAtLeastLeadingDigit(s);
      NatToStringOfValue(init);
      var d := DigitValue(s[|s| - 1]);
      assert Value(s) / 10 == Value(init) && Value(s) % 10 == d;
      assert s == init + [s[|s| - 1]];
    }
  }

  /** Parsing the printed text of an Int32 value gives the value back. */
  lemma TryParseNatToString(n: nat)
    requires n <= MaxInt32
    ensures TryParseInt32(NatToString(n)) == Some(n)
  {
    ValueOfNatToString(n);
  }

  /** A digit string is the printed text of its value exactly when it is canonical. */
  lemma CanonicalIffPrinted(s: string)
    requires |s| > 0 && AllDigits(s)
    ensures IsCanonical(s) <==> s == NatToString(Value(s))
  {
    if IsCanonical(s) {
      NatToStringOfValue(s);
    }
  }
}
