/** Decimal printing and parsing of integers, as strconv.FormatInt and strconv.Atoi do. */
module Decimal {
  import opened Prelude

  predicate IsDigit(c: char) {
    '0' <= c <= '9'
  }

  predicate AllDigits(s: string) {
    forall i :: 0 <= i < |s| ==> IsDigit(s[i])
  }

  function DigitChar(d: int): (c: char)
    requires 0 <= d < 10
    ensures IsDigit(c) && DigitValue(c) == d
  {
    '0' + d as char
  }

  function DigitValue(c: char): (d: int)
    requires IsDigit(c)
    ensures 0 <= d < 10
  {
    c as int - '0' as int
  }

  function PrintNat(n: nat): (s: string)
    ensures s != [] && AllDigits(s)
  {
    if n < 10 then [DigitChar(n)] else PrintNat(n / 10) + [DigitChar(n % 10)]
  }

  function Print(i: int): string {
    if i < 0 then "-" + PrintNat(-i) else PrintNat(i)
  }

  function ParseNat(s: string): (n: nat)
    requires AllDigits(s)
  {
    if s == [] then 0 else 10 * ParseNat(Front(s)) + DigitValue(Last(s))
  }

  /** Printing a number and parsing the digits gives the number back. */
  lemma {:induction false} ParsePrintNat(n: nat)
    ensures ParseNat(PrintNat(n)) == n
  {
    if n >= 10 {
      ParsePrintNat(n / 10);
      assert Front(PrintNat(n)) == PrintNat(n / 10);
    } else {
      assert Front(PrintNat(n)) == [];
    }
  }

  /** Decimal numerals are unambiguous. */
  lemma PrintNatInjective(m: nat, n: nat)
    requires PrintNat(m) == PrintNat(n)
    ensures m == n
  {
    ParsePrintNat(m);
    ParsePrintNat(n);
  }

  function Pow10(d: nat): nat {
    if d == 0 then 1 else 10 * Pow10(d - 1)
  }

  /** A number below 10^d prints in at most d digits. */
  lemma {:induction false} PrintNatFits(n: nat, d: nat)
    requires d >= 1 && n < Pow10(d)
    ensures |PrintNat(n)| <= d
  {
    if n >= 10 {
      PrintNatFits(n / 10, d - 1);
    }
  }

  lemma PrintInt64Fits(n: nat)
    requires n <= MAX_INT64
    ensures |PrintNat(n)| <= 19
  {
    assert Pow10(4) == 10_000;
    assert Pow10(8) == 100_000_000;
    assert Pow10(12) == 1_000_000_000_000;
    assert Pow10(16) == 10_000_000_000_000_000;
    PrintNatFits(n, 19);
  }
}
