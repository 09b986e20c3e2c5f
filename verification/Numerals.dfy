/** Decimal numerals. */
module Numerals {
  function Decimal(n: nat): string {
    var digit := [('0' as int + n % 10) as char];
    if n < 10 then digit else Decimal(n / 10) + digit
  }

  predicate IsDigits(s: string) {
    s != "" && forall c | c in s :: '0' <= c <= '9'
  }

  function Digit(c: char): nat {
    if '0' <= c <= '9' then c as int - '0' as int else 0
  }

  function Digits(s: string): nat {
    if s == "" then 0 else Digits(s[..|s| - 1]) * 10 + Digit(s[|s| - 1])
  }

  lemma {:induction false} DigitsAreZero(s: string)
    requires forall c | c in s :: '0' <= c <= '9'
    ensures Digits(s) == 0 <==> forall c | c in s :: c == '0'
  {
    if s != "" {
      var n := |s| - 1;
      assert s == s[..n] + [s[n]];
      assert forall c | c in s[..n] :: c in s;
      assert s[n] in s;
      DigitsAreZero(s[..n]);
    }
  }

  /** A numeral digit by digit. */
  lemma DigitByDigit(s: string, k: nat)
    requires k <= 9
    ensures Digits("") == 0
    ensures Digits(s + ["0123456789"[k]]) == 10 * Digits(s) + k
  {
    var t := s + ["0123456789"[k]];
    assert t[..|t| - 1] == s;
  }

  /** A numeral written out reads back, and has no leading zeros. */
  lemma {:induction false} DecimalReadsBack(n: nat)
    ensures IsDigits(Decimal(n)) && Digits(Decimal(n)) == n
    ensures Decimal(n)[0] == '0' <==> n == 0
    decreases n
  {
    var x := Decimal(n);
    if n >= 10 {
      DecimalReadsBack(n / 10);
      assert x[..|x| - 1] == Decimal(n / 10) && x[0] == Decimal(n / 10)[0];
    } else {
      assert x[..0] == "";
    }
  }
}
