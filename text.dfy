/** Text helpers: decimal digits, the decimal rendering of integers (Python's
    `str` of an int), its inverse (Python's `int` of a digit string), and an
    ASCII case fold (Python's `lower`). */
module Text {

  predicate IsDigit(c: char) {
    '0' <= c <= '9'
  }

  /** Python's `str.isdigit` restricted to ASCII: non-empty and all digits. */
  predicate IsDigits(s: string) {
    |s| > 0 && AllDigits(s)
  }

  predicate AllDigits(s: string) {
    forall i :: 0 <= i < |s| ==> IsDigit(s[i])
  }

  function DigitChar(d: nat): (c: char)
    requires d < 10
    ensures IsDigit(c)
  {
    ('0' as int + d) as char
  }

  function DigitValue(c: char): (d: nat)
    requires IsDigit(c)
    ensures d < 10
  {
    c as int - '0' as int
  }

  /** The canonical decimal text of a natural number, without leading zeros. */
  function NatToString(n: nat): (s: string)
    ensures IsDigits(s)
    decreases n
  {
    if n < 10 then [DigitChar(n)] else NatToString(n / 10) + [DigitChar(n % 10)]
  }

  /** Python's `str(n)` for an integer. */
  function IntToString(n: int): string {
    if n < 0 then "-" + NatToString(-n) else NatToString(n)
  }

  /** The value of a digit string (Python's `int(s)` when `s.isdigit()`). */
  function DecimalValue(s: string): nat
    requires AllDigits(s)
    decreases |s|
  {
    if s == [] then 0 else DecimalValue(s[..|s| - 1]) * 10 + DigitValue(s[|s| - 1])
  }

  lemma {:induction false} DecimalRoundTrip(n: nat)
    ensures DecimalValue(NatToString(n)) == n
    decreases n
  {
    if n >= 10 {
      var s := NatToString(n);
      assert s[..|s| - 1] == NatToString(n / 10);
      DecimalRoundTrip(n / 10);
    }
  }

  /** Distinct numbers have distinct decimal texts, and the text of a
      non-negative number never looks like the text of a negative one. */
  lemma IntToStringInjective(a: int, b: int)
    requires IntToString(a) == IntToString(b)
    ensures a == b
  {
    assert a < 0 <==> IntToString(a)[0] == '-';
    assert b < 0 <==> IntToString(b)[0] == '-';
    if a < 0 {
      assert NatToString(-a) == IntToString(a)[1..];
      assert NatToString(-b) == IntToString(b)[1..];
      DecimalRoundTrip(-a);
      DecimalRoundTrip(-b);
    } else {
      DecimalRoundTrip(a);
      DecimalRoundTrip(b);
    }
  }

  function LowerChar(c: char): char {
    if 'A' <= c <= 'Z' then (c as int - 'A' as int + 'a' as int) as char else c
  }

  /** Python's `str.lower` restricted to ASCII letters. */
  function Lower(s: string): string {
    seq(|s|, i requires 0 <= i < |s| => LowerChar(s[i]))
  }
}
