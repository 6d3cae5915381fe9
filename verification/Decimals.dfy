/** Decimal numerals as JavaScript's `String(n)` and template literals print them. */
module Decimals {

  predicate IsDigit(c: char) {
    '0' <= c <= '9'
  }

  predicate AllDigits(s: string) {
    forall i :: 0 <= i < |s| ==> IsDigit(s[i])
  }

  function Digit(d: nat): (c: char)
    requires d < 10
    ensures IsDigit(c) && DigitValue(c) == d
  {
    ('0' as int + d) as char
  }

  function DigitValue(c: char): (d: nat)
    requires IsDigit(c)
    ensures d < 10
  {
    c as int - '0' as int
  }

  /** The number a string of digits denotes, most significant digit first. */
  function Read(s: string): nat
    requires AllDigits(s)
  {
    if s == [] then 0 else 10 * Read(s[..|s| - 1]) + DigitValue(s[|s| - 1])
  }

  /** The numeral of `n`, without leading zeros. */
  function Print(n: nat): (s: string)
    ensures s != [] && AllDigits(s) && Read(s) == n
    ensures s[0] == '0' ==> n == 0 && |s| == 1
  {
    if n < 10 then [Digit(n)] else Print(n / 10) + [Digit(n % 10)]
  }

  /** Two numbers with the same numeral are equal. */
  lemma PrintInjective(m: nat, n: nat)
    requires Print(m) == Print(n)
    ensures m == n
  {
    assert Read(Print(m)) == m && Read(Print(n)) == n;
  }

  /** `c` does not occur in `s`. */
  predicate Free(c: char, s: string) {
    forall i :: 0 <= i < |s| ==> s[i] != c
  }

  /** Numerals contain no character other than digits. */
  lemma PrintFree(n: nat, c: char)
    requires !IsDigit(c)
    ensures Free(c, Print(n))
  {
  }
}
