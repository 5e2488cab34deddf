/** Decimal numerals, in ASCII digits. */
module Decimal {
  predicate IsDigit(c: char) { '0' <= c <= '9' }

  predicate IsNumeral(s: string) {
    s != "" && forall k :: 0 <= k < |s| ==> IsDigit(s[k])
  }

  /** No leading zero, except in zero itself. */
  predicate IsCanonical(s: string) {
    IsNumeral(s) && (|s| == 1 || s[0] != '0')
  }

  function Digit(d: nat): (c: char)
    requires d < 10
    ensures IsDigit(c) && DigitValue(c) == d
  {
    "0123456789"[d]
  }

  function DigitValue(c: char): (d: nat)
    requires IsDigit(c)
    ensures d < 10
  {
    c as int - '0' as int
  }

  function Show(n: nat): string {
    if n < 10 then [Digit(n)] else Show(n / 10) + [Digit(n % 10)]
  }

  function Value(s: string): nat
    requires IsNumeral(s)
  {
    if |s| == 1 then DigitValue(s[0])
    else 10 * Value(s[..|s| - 1]) + DigitValue(s[|s| - 1])
  }

  lemma {:induction false} ShowIsCanonical(n: nat)
    ensures IsCanonical(Show(n)) && Value(Show(n)) == n
    ensures Show(n)[0] == '0' <==> n == 0
  {
    if n >= 10 {
      ShowIsCanonical(n / 10);
      assert Show(n)[..|Show(n)| - 1] == Show(n / 10);
    }
  }

  lemma {:induction false} DigitOfValue(c: char)
    requires IsDigit(c)
    ensures Digit(DigitValue(c)) == c
  {
  }

  lemma {:induction false} ValueOfCanonical(s: string)
    requires IsCanonical(s)
    ensures Show(Value(s)) == s
    ensures s[0] != '0' ==> Value(s) > 0
    decreases |s|
  {
    var last := s[|s| - 1];
    DigitOfValue(last);
    if |s| > 1 {
      var front := s[..|s| - 1];
      ValueOfCanonical(front);
      assert s == front + [last];
    }
  }

  /** Leading zeros do not change the number. */
  lemma {:induction false} LeadingZero(s: string)
    requires IsNumeral(s)
    ensures Value("0" + s) == Value(s)
    decreases |s|
  {
    var z := "0" + s;
    assert z[..|z| - 1] == if |s| == 1 then "0" else "0" + s[..|s| - 1];
    if |s| > 1 {
      LeadingZero(s[..|s| - 1]);
    }
  }
}
