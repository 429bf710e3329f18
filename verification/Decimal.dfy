/** Decimal numerals, printed and read. */
module Decimal {

  predicate IsDigit(c: char) { '0' <= c <= '9' }

  function DigitChar(d: nat): char
    requires d < 10
  {
    ('0' as int + d) as char
  }

  function Print(n: nat): (s: string)
    ensures s != "" && forall i :: 0 <= i < |s| ==> IsDigit(s[i])
  {
    if n < 10 then [DigitChar(n)] else Print(n / 10) + [DigitChar(n % 10)]
  }

  function Digit(c: char): nat
    requires IsDigit(c)
  {
    c as int - '0' as int
  }

  /** The number a digit string stands for. */
  function Value(s: string): nat
    requires forall i :: 0 <= i < |s| ==> IsDigit(s[i])
  {
    if s == "" then 0 else Value(s[..|s| - 1]) * 10 + Digit(s[|s| - 1])
  }

  function PrintInt(n: int): string {
    if n < 0 then "-" + Print(-n) else Print(n)
  }

  lemma {:induction false} ValueOfPrint(n: nat)
    ensures Value(Print(n)) == n
    decreases n
  {
    var s := Print(n);
    if n < 10 {
      assert s[..0] == "";
    } else {
      ValueOfPrint(n / 10);
      assert s[..|s| - 1] == Print(n / 10);
    }
  }

  /** One more digit at most when a number grows by one. */
  lemma {:induction false} SuccessorLength(n: nat)
    ensures |Print(n)| <= |Print(n + 1)| <= |Print(n)| + 1
    decreases n
  {
    if n >= 9 {
      if n % 10 == 9 {
        assert (n + 1) / 10 == n / 10 + 1;
        SuccessorLength(n / 10);
      } else {
        assert (n + 1) / 10 == n / 10;
      }
    }
  }

  lemma {:induction false} LengthGrowth(a: nat, b: nat)
    requires a <= b
    ensures |Print(a)| <= |Print(b)| <= |Print(a)| + (b - a)
    decreases b
  {
    if a < b {
      LengthGrowth(a, b - 1);
      SuccessorLength(b - 1);
    }
  }
}
