/** Integers: their decimal text, as `String(n)` and template literals print it and `BigInt(text)` reads
    it, and BigInt division. */
module Decimal {
  import opened OrderedMap

  predicate IsDigit(c: char) {
    '0' <= c <= '9'
  }

  predicate AllDigits(s: string) {
    forall i :: 0 <= i < |s| ==> IsDigit(s[i])
  }

  function DigitChar(d: nat): (c: char)
    requires d < 10
    ensures IsDigit(c) && c as int == '0' as int + d
  {
    ('0' as int + d) as char
  }

  function DigitOf(c: char): (d: nat)
    requires IsDigit(c)
    ensures d < 10 && DigitChar(d) == c
  {
    c as int - '0' as int
  }

  function NatText(n: nat): (s: string)
    ensures |s| > 0 && AllDigits(s)
  {
    if n < 10 then [DigitChar(n)] else NatText(n / 10) + [DigitChar(n % 10)]
  }

  function NatValue(s: string): nat
    requires AllDigits(s)
  {
    if s == [] then 0 else 10 * NatValue(s[..|s| - 1]) + DigitOf(s[|s| - 1])
  }

  function IntText(n: int): string {
    if n < 0 then "-" + NatText(-n) else NatText(n)
  }

  /** Reading the printed numeral gives the number back. */
  lemma {:induction false} NatTextReads(n: nat)
    ensures NatValue(NatText(n)) == n
  {
    if n >= 10 {
      var s := NatText(n);
      assert s[..|s| - 1] == NatText(n / 10);
      NatTextReads(n / 10);
    }
  }

  lemma NatTextInjective(m: nat, n: nat)
    requires NatText(m) == NatText(n)
    ensures m == n
  {
    NatTextReads(m);
    NatTextReads(n);
  }

  /** The integer a text writes: digits after an optional minus. */
  function ReadInt(s: string): Option<int> {
    if s != [] && s[0] == '-' then
      if |s| > 1 && AllDigits(s[1..]) then Some(-(NatValue(s[1..]) as int)) else None
    else if s != [] && AllDigits(s) then Some(NatValue(s))
    else None
  }

  /** Every integer reads back from its text, sign included. */
  lemma IntTextReads(n: int)
    ensures ReadInt(IntText(n)) == Some(n)
  {
    if n < 0 {
      NatTextReads(-n);
      assert IntText(n)[1..] == NatText(-n);
    } else {
      NatTextReads(n);
      assert IsDigit(NatText(n)[0]);
    }
  }

  lemma IntTextInjective(m: int, n: int)
    requires IntText(m) == IntText(n)
    ensures m == n
  {
    IntTextReads(m);
    IntTextReads(n);
  }

  /** The number of digits grows with the number. */
  lemma {:induction false} NatTextLengthMonotone(m: nat, n: nat)
    requires m <= n
    ensures |NatText(m)| <= |NatText(n)|
  {
    if n >= 10 && m >= 10 {
      NatTextLengthMonotone(m / 10, n / 10);
    }
  }

  /** No numeral but "0" starts with '0'. */
  lemma {:induction false} NatTextNoLeadingZero(n: nat)
    requires n > 0
    ensures NatText(n)[0] != '0'
  {
    if n >= 10 {
      NatTextNoLeadingZero(n / 10);
    }
  }

  lemma {:induction false} NatValueConcat(s: string, t: string)
    requires AllDigits(s) && AllDigits(t)
    ensures AllDigits(s + t)
    ensures NatValue(s + t) == NatValue(s) * Pow10(|t|) + NatValue(t)
  {
    if t == [] {
      assert s + t == s;
    } else {
      var u, d := t[..|t| - 1], t[|t| - 1];
      assert (s + t)[..|s + t| - 1] == s + u && (s + t)[|s + t| - 1] == d;
      NatValueConcat(s, u);
      ShiftDigit(NatValue(s), Pow10(|u|), NatValue(u), DigitOf(d));
      assert Pow10(|t|) == 10 * Pow10(|u|);
    }
  }

  lemma ShiftDigit(n: nat, p: nat, u: nat, d: nat)
    ensures 10 * (n * p + u) + d == n * (10 * p) + (10 * u + d)
  {
    assert n * (10 * p) == 10 * (n * p);
  }

  function Pow10(d: nat): (p: nat)
    ensures p > 0
  {
    if d == 0 then 1 else 10 * Pow10(d - 1)
  }

  lemma {:induction false} Pow10Add(a: nat, b: nat)
    ensures Pow10(a + b) == Pow10(a) * Pow10(b)
  {
    if a > 0 {
      Pow10Add(a - 1, b);
      assert Pow10(a + b) == 10 * Pow10(a - 1 + b);
    }
  }

  lemma {:induction false} NatTextLength(n: nat, d: nat)
    requires d > 0
    ensures |NatText(n)| <= d <==> n < Pow10(d)
  {
    if n < 10 {
      assert Pow10(d) == 10 * Pow10(d - 1);
    } else if d == 1 {
      assert Pow10(1) == 10 * Pow10(0);
    } else {
      NatTextLength(n / 10, d - 1);
      assert Pow10(d) == 10 * Pow10(d - 1);
    }
  }

  /** BigInt division, which truncates toward zero, and its remainder. */
  function TruncDiv(a: int, b: nat): int
    requires b > 0
  {
    if a < 0 then -(-a / b) else a / b
  }

  function TruncRem(a: int, b: nat): int
    requires b > 0
  {
    a - TruncDiv(a, b) * b
  }
}
