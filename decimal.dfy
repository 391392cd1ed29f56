/**
 Decimal texts: what `/^[0-9][0-9]*$/` and `/^(-)?[0-9][0-9]*$/` accept, the
 value `Number` gives such a text, and the decimal rendering of an integer
 (the text `String(n)` gives for a safe integer, and the property names
 `"0"`, `"1"`, ... of an array's elements).
 */
module Decimal {

  predicate IsDigit(c: char) {
    '0' <= c <= '9'
  }

  /** One or more ASCII digits: the natural-number pattern. */
  predicate IsDigits(s: string) {
    |s| >= 1 && forall i :: 0 <= i < |s| ==> IsDigit(s[i])
  }

  /** An optional minus sign followed by one or more digits: the integer pattern. */
  predicate IsIntegerText(s: string) {
    IsDigits(s) || (|s| >= 2 && s[0] == '-' && IsDigits(s[1..]))
  }

  function DigitValue(c: char): (d: nat)
    requires IsDigit(c)
    ensures d < 10
  {
    c as int - '0' as int
  }

  function DigitChar(d: nat): (c: char)
    requires d < 10
    ensures IsDigit(c) && DigitValue(c) == d
  {
    ('0' as int + d) as char
  }

  /** The value of a digit string, leading zeros allowed. */
  function DigitsValue(s: string): nat
    requires forall i :: 0 <= i < |s| ==> IsDigit(s[i])
  {
    if s == [] then 0 else DigitsValue(s[..|s| - 1]) * 10 + DigitValue(s[|s| - 1])
  }

  /** The value of an integer text (`Number(s)`; "-0" is 0). */
  function IntegerValue(s: string): int
    requires IsIntegerText(s)
  {
    if s[0] == '-' then -(DigitsValue(s[1..]) as int) else DigitsValue(s)
  }

  /** The decimal rendering of a natural number, without leading zeros. */
  function NatToString(n: nat): (r: string)
    ensures IsDigits(r)
    decreases n
  {
    if n < 10 then [DigitChar(n)] else NatToString(n / 10) + [DigitChar(n % 10)]
  }

  /** The decimal rendering of an integer. */
  function IntToString(n: int): (r: string)
    ensures IsIntegerText(r)
  {
    if n < 0 then "-" + NatToString(-n) else NatToString(n)
  }

  /** A canonical array index: digits with no leading zero, as JS writes
      the property names of array elements. */
  predicate IsIndexKey(s: string) {
    IsDigits(s) && (s[0] != '0' || |s| == 1)
  }

  /** Reading back a rendered natural gives the natural. */
  lemma {:induction false} NatRoundTrip(n: nat)
    ensures DigitsValue(NatToString(n)) == n
  {
    if n >= 10 {
      NatRoundTrip(n / 10);
      var s := NatToString(n);
      assert s[..|s| - 1] == NatToString(n / 10);
    }
  }

  /** Reading back a rendered integer gives the integer. */
  lemma IntRoundTrip(n: int)
    ensures IntegerValue(IntToString(n)) == n
  {
    if n < 0 {
      NatRoundTrip(-n);
      assert IntToString(n)[1..] == NatToString(-n);
    } else {
      NatRoundTrip(n);
    }
  }

  /** A rendered natural is a canonical index. */
  lemma {:induction false} NatToStringIsIndexKey(n: nat)
    ensures IsIndexKey(NatToString(n))
  {
    if n >= 10 {
      NatToStringIsIndexKey(n / 10);
      assert NatToString(n)[0] == NatToString(n / 10)[0];
    }
  }

  /** Distinct naturals render differently (array element keys are distinct). */
  lemma NatToStringInjective(m: nat, n: nat)
    requires m != n
    ensures NatToString(m) != NatToString(n)
  {
    NatRoundTrip(m);
    NatRoundTrip(n);
  }

  /** A canonical index is the rendering of its value. */
  lemma {:induction false} IndexKeyRoundTrip(s: string)
    requires IsIndexKey(s)
    ensures NatToString(DigitsValue(s)) == s
  {
    if |s| > 1 {
      var p := s[..|s| - 1];
      var n := DigitsValue(s);
      assert p[0] == s[0];
      IndexKeyRoundTrip(p);
      assert DigitsValue(p) >= 1 by { LeadingDigitPositive(p); }
      assert n / 10 == DigitsValue(p) && n % 10 == DigitValue(s[|s| - 1]);
      assert s == p + [s[|s| - 1]];
    }
  }

  /** A digit string whose first digit is not zero has a positive value. */
  lemma {:induction false} LeadingDigitPositive(s: string)
    requires IsDigits(s) && s[0] != '0'
    ensures DigitsValue(s) >= 1
  {
    if |s| > 1 {
      var p := s[..|s| - 1];
      assert p[0] == s[0];
      LeadingDigitPositive(p);
    }
  }
}
