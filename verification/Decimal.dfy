/** Strings of decimal digits and the numbers they write. */
module Decimal {

  predicate IsDigit(c: char) { '0' <= c <= '9' }

  predicate Digits(s: string)
  {
    forall i | 0 <= i < |s| :: IsDigit(s[i])
  }

  function DigitValue(c: char): nat
    requires IsDigit(c)
  {
    c as int - '0' as int
  }

  function DigitChar(d: nat): (c: char)
    requires d < 10
    ensures IsDigit(c) && DigitValue(c) == d
  {
    ('0' as int + d) as char
  }

  function Value(s: string): nat
    requires Digits(s)
  {
    if s == "" then 0 else Value(s[..|s| - 1]) * 10 + DigitValue(s[|s| - 1])
  }

  function Pow10(n: nat): (p: nat)
    ensures p > 0
  {
    if n == 0 then 1 else 10 * Pow10(n - 1)
  }

  function Zeros(n: nat): (s: string)
    ensures |s| == n && Digits(s)
  {
    seq(n, _ => '0')
  }

  predicate Canonical(s: string)
  {
    s != "" && Digits(s) && (s[0] == '0' ==> |s| == 1)
  }

  lemma {:induction false} ValueSnoc(s: string, c: char)
    requires Digits(s) && IsDigit(c)
    ensures Value(s + [c]) == Value(s) * 10 + DigitValue(c)
  {}

  lemma {:induction false} ValueAppend(a: string, b: string)
    requires Digits(a) && Digits(b)
    ensures Value(a + b) == Value(a) * Pow10(|b|) + Value(b)
  {
    if b == "" {
      assert a + b == a;
    } else {
      var front, c := b[..|b| - 1], b[|b| - 1];
      ValueAppend(a, front);
      assert a + b == (a + front) + [c];
      ValueSnoc(a + front, c);
      Shift(Value(a), Pow10(|front|), Value(front), DigitValue(c));
    }
  }

  lemma {:induction false} Shift(x: nat, p: nat, y: nat, d: nat)
    ensures (x * p + y) * 10 + d == x * (10 * p) + (y * 10 + d)
  {}

  lemma {:induction false} ZerosAreNothing(s: string)
    requires forall i | 0 <= i < |s| :: s[i] == '0'
    ensures Digits(s) && Value(s) == 0
  {
    if s != "" { ZerosAreNothing(s[..|s| - 1]); }
  }

  lemma {:induction false} ZeroValueMeansZeros(s: string)
    requires Digits(s) && Value(s) == 0
    ensures forall i | 0 <= i < |s| :: s[i] == '0'
  {
    if s != "" { ZeroValueMeansZeros(s[..|s| - 1]); }
  }

  // ----- Writing a number

  function Format(n: nat): (s: string)
    ensures Canonical(s)
  {
    if n < 10 then [DigitChar(n)] else Format(n / 10) + [DigitChar(n % 10)]
  }

  lemma {:induction false} FormatValue(n: nat)
    ensures Value(Format(n)) == n
  {
    if n < 10 {
      ValueSnoc("", DigitChar(n));
      assert "" + [DigitChar(n)] == [DigitChar(n)];
    } else {
      FormatValue(n / 10);
      ValueSnoc(Format(n / 10), DigitChar(n % 10));
    }
  }

}
