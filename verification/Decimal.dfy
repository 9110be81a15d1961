/** Decimal numerals as Rust prints and parses unsigned integers. */
module Decimal {

  predicate IsDigit(c: char) {
    '0' <= c <= '9'
  }

  predicate AllDigits(s: string) {
    forall i :: 0 <= i < |s| ==> IsDigit(s[i])
  }

  function Digit(d: nat): (c: char)
    requires d < 10
    ensures IsDigit(c) && c as int - '0' as int == d
  {
    (d + '0' as int) as char
  }

  function Print(n: nat): (s: string)
    ensures s != "" && AllDigits(s)
  {
    if n < 10 then [Digit(n)] else Print(n / 10) + [Digit(n % 10)]
  }

  function Value(s: string): nat
    requires AllDigits(s)
  {
    if s == "" then 0 else Value(s[..|s| - 1]) * 10 + (s[|s| - 1] as int - '0' as int)
  }

  lemma {:induction false} ValueOfPrint(n: nat)
    ensures Value(Print(n)) == n
  {
    if n >= 10 {
      var s := Print(n);
      ValueOfPrint(n / 10);
      assert s[..|s| - 1] == Print(n / 10);
    }
  }

  function Power10(e: nat): nat {
    if e == 0 then 1 else 10 * Power10(e - 1)
  }

  /** A numeral for a number below 10^e takes at most e digits. */
  lemma {:induction false} PrintLength(n: nat, e: nat)
    requires e > 0 && n < Power10(e)
    ensures |Print(n)| <= e
  {
    if n >= 10 {
      assert e > 1 by {
        assert Power10(1) == 10;
      }
      PrintLength(n / 10, e - 1);
    }
  }

  /** Does not start with a digit, so a numeral in front of it ends there. */
  predicate NoDigitFirst(rest: string) {
    rest == "" || !IsDigit(rest[0])
  }

}
