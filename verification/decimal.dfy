/** Decimal printing and reading of integers, as `${n}` and `Number.parseInt(s, 10)` do it. */
module Decimal {
  predicate IsDigit(c: char) {
    '0' <= c <= '9'
  }

  predicate AllDigits(s: string) {
    forall c | c in s :: IsDigit(c)
  }

  function Digit(d: nat): (c: char)
    requires d < 10
    ensures IsDigit(c) && DigitValue(c) == d
  {
    '0' + d as char
  }

  function DigitValue(c: char): (d: nat)
    requires IsDigit(c)
    ensures d < 10
  {
    (c - '0') as nat
  }

  function Print(n: nat): (s: string)
    ensures s != "" && AllDigits(s)
  {
    if n < 10 then [Digit(n)] else Print(n / 10) + [Digit(n % 10)]
  }

  function Value(s: string): nat
    requires AllDigits(s)
  {
    if s == "" then 0 else 10 * Value(s[..|s| - 1]) + DigitValue(s[|s| - 1])
  }

  /** How many digits the text starts with. */
  function DigitPrefix(s: string): (n: nat)
    ensures n <= |s| && AllDigits(s[..n]) && (n < |s| ==> !IsDigit(s[n]))
  {
    if s == "" || !IsDigit(s[0]) then 0 else 1 + DigitPrefix(s[1..])
  }

  function PrintInt(i: int): string {
    if i < 0 then "-" + Print(-i) else Print(i)
  }

  lemma {:induction false} ValueOfPrint(n: nat)
    ensures Value(Print(n)) == n
  {
    var s := Print(n);
    if n < 10 {
      assert s[..|s| - 1] == "";
    } else {
      ValueOfPrint(n / 10);
      assert s[..|s| - 1] == Print(n / 10);
    }
  }

  /** One character for each decimal digit, most significant first. */
  lemma PrintIsDecimal(n: nat, d: nat)
    requires d < 10
    ensures Print(d) == ["0123456789"[d]]
    ensures 0 < n ==> Print(10 * n + d) == Print(n) + ["0123456789"[d]]
    ensures PrintInt(-1 - n) == "-" + Print(n + 1) && PrintInt(n) == Print(n)
  {
    assert (10 * n + d) / 10 == n && (10 * n + d) % 10 == d;
  }

  lemma SignShows(i: int)
    ensures PrintInt(i) != "" && (PrintInt(i)[0] == '-' <==> i < 0)
  {
    if 0 <= i { assert Print(i)[0] in Print(i); }
  }

  /** Different integers print differently. */
  lemma PrintIntInjective(i: int, j: int)
    requires PrintInt(i) == PrintInt(j)
    ensures i == j
  {
    SignShows(i);
    SignShows(j);
    if i < 0 {
      assert PrintInt(i)[1..] == Print(-i) && PrintInt(j)[1..] == Print(-j);
      ValueOfPrint(-i);
      ValueOfPrint(-j);
    } else {
      ValueOfPrint(i);
      ValueOfPrint(j);
    }
  }

  lemma PrintIntHasNoNewline(i: int)
    ensures '\n' !in PrintInt(i)
  {
    if i < 0 { assert PrintInt(i) == ['-'] + Print(-i); }
  }
}
