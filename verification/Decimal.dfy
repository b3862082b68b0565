/** Printing and parsing of decimal numbers. */
module Decimal {
  import opened Wrappers

  predicate IsDigit(c: char) {
    '0' <= c <= '9'
  }

  predicate AllDigits(s: string) {
    forall i :: 0 <= i < |s| ==> IsDigit(s[i])
  }

  function DigitChar(d: nat): (c: char)
    requires d < 10
    ensures IsDigit(c) && c as nat - '0' as nat == d
  {
    ('0' as nat + d) as char
  }

  /** `str(n)` */
  function Print(n: nat): (s: string)
    ensures s != "" && AllDigits(s)
  {
    if n < 10 then [DigitChar(n)] else Print(n / 10) + [DigitChar(n % 10)]
  }

  function Value(s: string): nat
    requires AllDigits(s)
  {
    if s == "" then 0 else 10 * Value(s[..|s| - 1]) + (s[|s| - 1] as nat - '0' as nat)
  }

  /** `int(s)` on ASCII digits; anything else is an error. */
  function Parse(s: string): Option<nat> {
    if s != "" && AllDigits(s) then Some(Value(s)) else None
  }

  /** Printing is decimal: one digit below ten, and one more digit for ten times as much. */
  lemma PrintTens(a: nat, d: nat)
    requires d < 10
    ensures Print(d) == [('0' as nat + d) as char]
    ensures a > 0 ==> Print(10 * a + d) == Print(a) + [('0' as nat + d) as char]
  {
    assert (10 * a + d) / 10 == a && (10 * a + d) % 10 == d;
  }

  /** Parsing a printed number gives it back. */
  lemma {:induction false} RoundTrip(n: nat)
    ensures Parse(Print(n)) == Some(n)
  {
    var s := Print(n);
    var front := s[..|s| - 1];
    assert s[|s| - 1] == DigitChar(n % 10);
    assert Value(s) == 10 * Value(front) + n % 10;
    if n < 10 {
      assert front == "";
    } else {
      RoundTrip(n / 10);
      assert front == Print(n / 10);
    }
  }

  /** The digits at the front of a string. */
  function LeadingDigits(s: string): (r: string)
    ensures AllDigits(r) && r <= s
    ensures |r| < |s| ==> !IsDigit(s[|r|])
  {
    if s == "" || !IsDigit(s[0]) then "" else [s[0]] + LeadingDigits(s[1..])
  }

  lemma {:induction false} LeadingOfNumber(d: string, rest: string)
    requires AllDigits(d) && (rest == "" || !IsDigit(rest[0]))
    ensures LeadingDigits(d + rest) == d
  {
    if d == "" {
      assert d + rest == rest;
    } else {
      assert (d + rest)[1..] == d[1..] + rest;
      LeadingOfNumber(d[1..], rest);
    }
  }
}
