/** The .NET string helpers the alias tool leans on: white-space tests, lower-casing of file
    names, prefix tests and replacement, and decimal formatting and parsing of
    unsigned 32-bit numbers. */
module Text {
  import opened Common

  /** char.IsWhiteSpace: the Unicode space, line and paragraph separators plus the
      control characters U+0009..U+000D and U+0085. */
  predicate IsWhiteSpace(c: char) {
    var u := c as int;
    (0x09 <= u <= 0x0D) || u == 0x20 || u == 0x85 || u == 0xA0 || u == 0x1680
    || (0x2000 <= u <= 0x200A) || u == 0x2028 || u == 0x2029 || u == 0x202F
    || u == 0x205F || u == 0x3000
  }

  /** string.IsNullOrWhiteSpace on a non-null string. */
  predicate IsBlank(s: string) {
    forall i :: 0 <= i < |s| ==> IsWhiteSpace(s[i])
  }

  /** string.IsNullOrWhiteSpace on a property value: null, or text made only of white space. */
  predicate IsNullOrWhiteSpace(v: Value) {
    match v
    case Unset => true
    case Text(s) => IsBlank(s)
    case Number(_) => false
  }

  function ToLowerChar(c: char): (r: char)
    ensures 'A' <= c <= 'Z' ==> r as int == c as int + 32
    ensures !('A' <= c <= 'Z') ==> r == c
  {
    if 'A' <= c <= 'Z' then (c as int + 32) as char else c
  }

  /** string.ToLower, for the ASCII letters. */
  function ToLower(s: string): (r: string)
    ensures |r| == |s| && forall i :: 0 <= i < |s| ==> r[i] == ToLowerChar(s[i])
  {
    if s == [] then [] else [ToLowerChar(s[0])] + ToLower(s[1..])
  }

  /** Lower-casing twice is lower-casing once. */
  lemma ToLowerIdempotent(s: string)
    ensures ToLower(ToLower(s)) == ToLower(s)
  {
    assert forall i :: 0 <= i < |s| ==> ToLowerChar(ToLowerChar(s[i])) == ToLowerChar(s[i]);
  }

  /** string.StartsWith, compared character by character. */
  predicate StartsWith(s: string, prefix: string) {
    prefix <= s
  }

  /** string.Replace(pattern, ""): every non-overlapping occurrence of the pattern, scanned
      from the left, is removed. */
  function RemoveAll(s: string, pattern: string): (r: string)
    requires pattern != []
    ensures |r| <= |s|
    decreases |s|
  {
    if |s| < |pattern| then s
    else if s[..|pattern|] == pattern then RemoveAll(s[|pattern|..], pattern)
    else [s[0]] + RemoveAll(s[1..], pattern)
  }

  /** Text that never contains the pattern's first character is left as it is. */
  lemma {:induction false} RemoveAllAbsent(s: string, pattern: string)
    requires pattern != []
    requires forall i :: 0 <= i < |s| ==> s[i] != pattern[0]
    ensures RemoveAll(s, pattern) == s
    decreases |s|
  {
    if |s| >= |pattern| {
      assert s[..|pattern|][0] != pattern[0];
      RemoveAllAbsent(s[1..], pattern);
      assert [s[0]] + s[1..] == s;
    }
  }

  predicate IsDigit(c: char) {
    '0' <= c <= '9'
  }

  predicate AllDigits(s: string) {
    forall i :: 0 <= i < |s| ==> IsDigit(s[i])
  }

  function DigitChar(d: nat): (c: char)
    requires d < 10
    ensures IsDigit(c) && c as int - '0' as int == d
  {
    ('0' as int + d) as char
  }

  /** The number a run of decimal digits denotes, most significant digit first. */
  function DigitsValue(s: string): nat
    requires AllDigits(s)
  {
    if s == [] then 0 else 10 * DigitsValue(s[..|s| - 1]) + (s[|s| - 1] as int - '0' as int)
  }

  /** uint.TryParse, for a string of decimal digits: fails on the empty string, on any other
      character and on a value of 2^32 or more. */
  function ParseUInt32(s: string): (r: Option<u32>)
    ensures r.Some? <==> s != [] && AllDigits(s) && DigitsValue(s) < TwoTo32
    ensures r.Some? ==> r.value == DigitsValue(s)
  {
    if s != [] && AllDigits(s) && DigitsValue(s) < TwoTo32 then Some(DigitsValue(s)) else None
  }

  /** string.Format("{0}", n): n in decimal, without leading zeros. */
  function Decimal(n: nat): (r: string)
    ensures r != [] && AllDigits(r)
    ensures |r| > 1 ==> r[0] != '0'
  {
    if n < 10 then [DigitChar(n)] else Decimal(n / 10) + [DigitChar(n % 10)]
  }

  /** Reading back the decimal form gives the number. */
  lemma {:induction false} DecimalValue(n: nat)
    ensures DigitsValue(Decimal(n)) == n
  {
    if n >= 10 {
      DecimalValue(n / 10);
      var s := Decimal(n);
      assert s[..|s| - 1] == Decimal(n / 10);
    }
  }

  /** uint.TryParse accepts what string.Format wrote for every unsigned 32-bit value. */
  lemma ParseDecimal(n: u32)
    ensures ParseUInt32(Decimal(n)) == Some(n)
  {
    DecimalValue(n);
  }
}
