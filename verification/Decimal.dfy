/** Printing natural numbers in base ten, and reading them back. */
module Decimal {

  predicate IsDigit(c: char) {
    '0' <= c <= '9'
  }

  ghost predicate AllDigits(s: string) {
    forall i :: 0 <= i < |s| ==> IsDigit(s[i])
  }

  function DigitValue(c: char): nat
    requires IsDigit(c)
  {
    (c - '0') as nat
  }

  function Print(n: nat): (s: string)
    ensures s != [] && AllDigits(s)
  {
    if n < 10 then [n as char + '0'] else Print(n / 10) + [(n % 10) as char + '0']
  }

  function Value(s: string): nat
    requires AllDigits(s)
  {
    if s == [] then 0 else 10 * Value(s[..|s| - 1]) + DigitValue(s[|s| - 1])
  }

  lemma {:induction false} ValueOfPrint(n: nat)
    ensures Value(Print(n)) == n
  {
    var s := Print(n);
    if n < 10 {
      assert s[..|s| - 1] == [];
    } else {
      ValueOfPrint(n / 10);
      assert s[..|s| - 1] == Print(n / 10);
    }
  }

  lemma PrintIsInjective(m: nat, n: nat)
    requires Print(m) == Print(n)
    ensures m == n
  {
    ValueOfPrint(m);
    ValueOfPrint(n);
  }

  /** Some numbers as they are printed and read. */
  lemma PrintedAre()
    ensures Print(0) == "0" && Print(7) == "7" && Print(19) == "19" && Print(1207) == "1207" && Print(65536) == "65536"
    ensures Value("0") == 0 && Value("19") == 19 && Value("0019") == 19 && Value("1207") == 1207
  {
    PrintsDigits(1207);
    PrintsDigits(65536);
    PrintsDigits(19);
    ReadDigits();
  }

  lemma ReadDigits()
    ensures Value("0") == 0 && Value("19") == 19 && Value("0019") == 19 && Value("1207") == 1207
  {
    assert "19"[..1] == "1" && "1"[..0] == "" && "0"[..0] == "" && "0019"[..3] == "001" && "001"[..2] == "00";
    assert "00"[..1] == "0" && "1207"[..3] == "120" && "120"[..2] == "12" && "12"[..1] == "1";
  }

  /** The last digit printed is the units, and what is before it is the rest. */
  lemma PrintsDigits(n: nat)
    requires n >= 10
    ensures Print(n) == Print(n / 10) + [(n % 10) as char + '0']
  {
  }

  /** Nothing is printed with a leading zero, apart from zero. */
  lemma {:induction false} NoLeadingZero(n: nat)
    ensures Print(n)[0] == '0' <==> n == 0
  {
    if n >= 10 {
      NoLeadingZero(n / 10);
    }
  }
}
