/** Decimal numerals, as they are printed and read. */
module Decimals {
  function Digit(d: nat): char
    requires d < 10
  {
    "0123456789"[d]
  }

  function Decimal(n: nat): string {
    if n < 10 then [Digit(n)] else Decimal(n / 10) + [Digit(n % 10)]
  }

  lemma {:induction false} DecimalTokens(n: nat)
    ensures Decimal(n) != "" && forall i :: 0 <= i < |Decimal(n)| ==> '0' <= Decimal(n)[i] <= '9'
  {
    if n >= 10 { DecimalTokens(n / 10); }
  }

  predicate IsDigit(c: char) { '0' <= c <= '9' }

  function DigitsValue(s: string): int {
    if s == "" then 0 else 10 * DigitsValue(s[..|s| - 1]) + (s[|s| - 1] as int - '0' as int)
  }

  lemma {:induction false} DecimalValue(n: nat)
    ensures DigitsValue(Decimal(n)) == n
    ensures n > 0 ==> Decimal(n)[0] != '0'
    ensures |Decimal(n)| > 1 ==> n > 0
  {
    if n < 10 {
      assert Decimal(n)[..0] == "";
    } else {
      DecimalValue(n / 10);
      DecimalTokens(n / 10);
      DigitAppended(Decimal(n / 10), n % 10);
    }
  }

  lemma DigitAppended(s: string, d: nat)
    requires d < 10 && s != ""
    ensures DigitsValue(s + [Digit(d)]) == 10 * DigitsValue(s) + d && (s + [Digit(d)])[0] == s[0]
  {
    var t := s + [Digit(d)];
    assert t[..|t| - 1] == s && t[|t| - 1] == Digit(d);
  }
}
