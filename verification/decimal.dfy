// Decimal text of non-negative integers, as produced by a JavaScript
// template literal `${n}` for a small integer Number.
module Decimal {

  import opened Lexical

  function DigitChar(d: nat): (c: char)
    requires d < 10
    ensures IsDigit(c)
  {
    ('0' as int + d) as char
  }

  function DigitValue(c: char): (d: nat)
    requires IsDigit(c)
    ensures d < 10 && DigitChar(d) == c
  {
    (c as int - '0' as int) as nat
  }

  predicate AllDigits(t: string)
  {
    forall i :: 0 <= i < |t| ==> IsDigit(t[i])
  }

  /** `${n}`: the shortest decimal numeral of `n`. */
  function Render(n: nat): (t: string)
    ensures |t| > 0 && AllDigits(t)
    ensures |t| > 1 ==> t[0] != '0'
  {
    if n < 10 then [DigitChar(n)] else Render(n / 10) + [DigitChar(n % 10)]
  }

  /** The value of a numeral of digits. */
  function Parse(t: string): nat
    requires AllDigits(t)
  {
    if |t| == 0 then 0 else Parse(t[..|t| - 1]) * 10 + DigitValue(t[|t| - 1])
  }

  /** Reading the rendered text gives the number back. */
  lemma {:induction false} ParseRender(n: nat)
    ensures Parse(Render(n)) == n
  {
    var t := Render(n);
    if n >= 10 {
      ParseRender(n / 10);
      assert t[..|t| - 1] == Render(n / 10);
    }
  }
}
