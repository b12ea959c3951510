/** Python's `str(n)` and `int(s)` on ASCII decimal digits. */
module Decimal {
  import opened Prelude

  predicate IsDigit(c: char) {
    '0' <= c <= '9'
  }

  predicate AllDigits(s: string) {
    forall i | 0 <= i < |s| :: IsDigit(s[i])
  }

  function DigitValue(c: char): nat
    requires IsDigit(c)
  {
    c as int - '0' as int
  }

  function DigitChar(d: nat): (c: char)
    requires d < 10
    ensures IsDigit(c) && DigitValue(c) == d
  {
    ('0' as int + d) as char
  }

  function Print(n: nat): string {
    if n < 10 then [DigitChar(n)] else Print(n / 10) + [DigitChar(n % 10)]
  }

  // The digits may carry leading zeros, as `int` allows; no digits count as 0.
  function Parse(s: string): nat
    requires AllDigits(s)
  {
    if s == [] then 0 else 10 * Parse(s[..|s| - 1]) + DigitValue(s[|s| - 1])
  }

  lemma {:induction false} ParsePrint(n: nat)
    ensures AllDigits(Print(n)) && Print(n) != []
    ensures Parse(Print(n)) == n
  {
    if n < 10 {
      assert Print(n)[..0] == [];
    } else {
      ParsePrint(n / 10);
      assert Print(n)[..|Print(n)| - 1] == Print(n / 10);
    }
  }

  lemma {:induction false} PrintHasNoLeadingZero(n: nat)
    requires n > 0
    ensures Print(n) != [] && Print(n)[0] != '0'
  {
    if n >= 10 {
      PrintHasNoLeadingZero(n / 10);
    }
  }

  lemma {:induction false} ParseIsPositive(s: string)
    requires AllDigits(s) && s != [] && s[0] != '0'
    ensures Parse(s) > 0
  {
    if |s| > 1 {
      ParseIsPositive(s[..|s| - 1]);
    }
  }

  lemma {:induction false} PrintParse(s: string)
    requires AllDigits(s) && s != [] && s[0] != '0'
    ensures Print(Parse(s)) == s
  {
    var front := s[..|s| - 1];
    assert s == front + [s[|s| - 1]];
    if front != [] {
      ParseIsPositive(front);
      PrintParse(front);
    } else {
      assert s[0] == DigitChar(DigitValue(s[0]));
    }
  }

  /** Leading zeros do not count. */
  lemma {:induction false} ParseDropsZero(s: string)
    requires AllDigits(s)
    ensures AllDigits("0" + s) && Parse("0" + s) == Parse(s)
  {
    var t := "0" + s;
    if s == [] {
      assert t[..0] == [];
    } else {
      ParseDropsZero(s[..|s| - 1]);
      assert t[..|t| - 1] == "0" + s[..|s| - 1];
    }
  }

  lemma PrintInjective(m: nat, n: nat)
    requires Print(m) == Print(n)
    ensures m == n
  {
    ParsePrint(m);
    ParsePrint(n);
  }

  function PrintInt(n: int): string {
    if n < 0 then "-" + Print(-n) else Print(n)
  }

  // `int(s)` with an optional sign; None stands for its ValueError.
  function ParseInt(s: string): Option<int> {
    if s != [] && AllDigits(s) then Some(Parse(s))
    else if |s| > 1 && s[0] == '-' && AllDigits(s[1..]) then Some(0 - Parse(s[1..]))
    else if |s| > 1 && s[0] == '+' && AllDigits(s[1..]) then Some(Parse(s[1..]))
    else None
  }

  lemma ParsePrintInt(n: int)
    ensures ParseInt(PrintInt(n)) == Some(n)
  {
    if n < 0 {
      ParsePrint(-n);
      assert PrintInt(n)[0] == '-' && PrintInt(n)[1..] == Print(-n);
    } else {
      ParsePrint(n);
    }
  }
}
