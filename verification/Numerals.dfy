/** Decimal digits: reading, writing and powers of ten. */
module Numerals {

  predicate IsDigit(c: char) {
    '0' <= c <= '9'
  }

  predicate Digits(s: string) {
    forall i :: 0 <= i < |s| ==> IsDigit(s[i])
  }

  /** The number a string of digits denotes. */
  function Value(s: string): (n: nat)
    requires Digits(s)
  {
    if s == "" then 0 else 10 * Value(s[..|s| - 1]) + (s[|s| - 1] - '0') as int
  }

  function DigitOf(n: int): (c: char)
    requires 0 <= n < 10
    ensures c == (48 + n) as char
  {
    (48 + n) as char
  }

  lemma DigitReads(n: int)
    requires 0 <= n < 10
    ensures IsDigit(DigitOf(n)) && (DigitOf(n) - '0') as int == n
  {
  }

  function Pow10(n: nat): (p: nat)
    ensures p > 0
  {
    if n == 0 then 1 else 10 * Pow10(n - 1)
  }

  lemma ValueSnoc(s: string, c: char)
    requires Digits(s) && IsDigit(c)
    ensures Digits(s + [c]) && Value(s + [c]) == 10 * Value(s) + (c - '0') as int
  {
    assert (s + [c])[..|s|] == s;
  }
}
