/**
 Decimal numerals: the text of a number and the number of a text.
 Shared by the key tokeniser (an index `[12]`) and the query builder (a placeholder `$12`).
 */
module Decimal {

  predicate IsDigit(c: char) {
    '0' <= c <= '9'
  }

  function DigitChar(d: nat): char
    requires d < 10
  {
    ('0' as int + d) as char
  }

  function DigitValue(c: char): nat
    requires IsDigit(c)
  {
    c as int - '0' as int
  }

  function PrintNat(n: nat): (s: string)
    ensures s != "" && forall i | 0 <= i < |s| :: IsDigit(s[i])
  {
    if n < 10 then [DigitChar(n)] else PrintNat(n / 10) + [DigitChar(n % 10)]
  }

  function ParseNat(s: string): (n: nat)
    requires forall i | 0 <= i < |s| :: IsDigit(s[i])
  {
    if s == "" then 0 else 10 * ParseNat(s[..|s| - 1]) + DigitValue(s[|s| - 1])
  }

  /** The numerals are those of the decimal system. */
  lemma NumeralsAreDecimal(n: nat)
    ensures n < 10 ==> PrintNat(n) == ["0123456789"[n]]
    ensures n >= 10 ==> PrintNat(n) == PrintNat(n / 10) + PrintNat(n % 10)
  {
    assert n < 10 ==> "0123456789"[n] as int == '0' as int + n;
  }

  lemma {:induction false} ParsePrintNat(n: nat)
    ensures ParseNat(PrintNat(n)) == n
  {
    var s := PrintNat(n);
    if n < 10 {
      assert s[..|s| - 1] == "";
    } else {
      assert s[..|s| - 1] == PrintNat(n / 10);
      ParsePrintNat(n / 10);
    }
  }
}
