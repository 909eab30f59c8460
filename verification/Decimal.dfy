/** Decimal numerals, as fmt's %d prints them and strconv.Atoi reads them. */
module Decimal {
  import opened Wrappers

  predicate IsDigit(c: char) {
    '0' <= c <= '9'
  }

  function Digit(n: nat): char
    requires n < 10
  {
    '0' + n as char
  }

  function DigitValue(c: char): nat
    requires IsDigit(c)
  {
    c as int - '0' as int
  }

  predicate Digits(s: string) {
    forall i :: 0 <= i < |s| ==> IsDigit(s[i])
  }

  function Value(s: string): nat
    requires Digits(s)
  {
    if s == [] then 0 else Value(s[..|s| - 1]) * 10 + DigitValue(s[|s| - 1])
  }

  function Print(n: nat): (s: string)
    ensures s != [] && Digits(s)
  {
    if n < 10 then [Digit(n)] else Print(n / 10) + [Digit(n % 10)]
  }

  lemma {:induction false} ValueOfPrint(n: nat)
    ensures Value(Print(n)) == n
  {
    if n < 10 {
      assert [Digit(n)][..0] == [];
    } else {
      ValueOfPrint(n / 10);
      assert Print(n)[..|Print(n)| - 1] == Print(n / 10);
    }
  }

  /** No numeral but that of zero begins with a zero. */
  lemma {:induction false} NoLeadingZero(n: nat)
    ensures Print(n)[0] == '0' <==> n == 0
    ensures n == 0 ==> Print(n) == "0"
  {
    if n >= 10 { NoLeadingZero(n / 10); }
  }

  function PrintInt(n: int): (s: string)
    ensures s != []
  {
    if n < 0 then "-" + Print(-n) else Print(n)
  }

  function Unsigned(s: string): Option<int> {
    if s != [] && Digits(s) then Some(Value(s)) else None
  }

  /** Reads an optionally signed numeral. */
  function Atoi(s: string): Option<int> {
    if s != [] && s[0] == '-' then
      match Unsigned(s[1..])
      case None => None
      case Some(n) => Some(0 - n)
    else if s != [] && s[0] == '+' then Unsigned(s[1..])
    else Unsigned(s)
  }

  /** What is read: digits, with or without a sign; everything else is not a number. */
  lemma AtoiIs(s: string)
    ensures Digits(s) && s != "" ==> Atoi(s) == Atoi("+" + s) == Some(Value(s)) && Atoi("-" + s) == Some(0 - Value(s))
    ensures Atoi(s) == None <==>
            forall d: string :: d != "" && Digits(d) ==> s != d && s != "+" + d && s != "-" + d
  {
    hide Value;
    assert ("+" + s)[1..] == s && ("-" + s)[1..] == s;
    if s != "" {
      assert s == [s[0]] + s[1..];
      assert Digits(s) ==> IsDigit(s[0]);
    }
    forall d: string | d != "" && Digits(d) && (s == "+" + d || s == "-" + d)
      ensures s[1..] == d
    {
    }
  }

  /** Printing a number and reading it back gives the number. */
  lemma AtoiOfPrint(n: int)
    ensures Atoi(PrintInt(n)) == Some(n)
  {
    if n < 0 {
      ValueOfPrint(-n);
      assert PrintInt(n)[1..] == Print(-n);
    } else {
      ValueOfPrint(n);
      assert IsDigit(Print(n)[0]);
    }
  }
}
