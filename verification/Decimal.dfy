/** Decimal text of integers, as printf's %lld and %llu write it. */
module Decimal {

  predicate IsDigit(c: char) {
    '0' <= c <= '9'
  }

  predicate AllDigits(s: string) {
    forall i | 0 <= i < |s| :: IsDigit(s[i])
  }

  function DigitOf(d: nat): (c: char)
    requires d < 10
    ensures IsDigit(c) && c as int == 48 + d
  {
    (48 + d) as char
  }

  function Digits(n: nat): (s: string)
    ensures s != [] && AllDigits(s)
  {
    if n < 10 then [DigitOf(n)] else Digits(n / 10) + [DigitOf(n % 10)]
  }

  /** The number a run of digits denotes. */
  function DigitsValue(s: string): nat
    requires AllDigits(s)
  {
    if s == [] then 0 else 10 * DigitsValue(s[..|s| - 1]) + (s[|s| - 1] as int - 48)
  }

  function IntText(n: int): (s: string)
    ensures s != []
  {
    if n < 0 then "-" + Digits(-n) else Digits(n)
  }

  /** An optional minus sign and at least one digit. */
  predicate IsIntegerLiteral(s: string) {
    s != [] && AllDigits(Magnitude(s)) && Magnitude(s) != []
  }

  function Magnitude(s: string): string
    requires s != []
  {
    if s[0] == '-' then s[1..] else s
  }

  function LiteralValue(s: string): int
    requires IsIntegerLiteral(s)
  {
    var magnitude: int := DigitsValue(Magnitude(s));
    if s[0] == '-' then -magnitude else magnitude
  }

  lemma {:induction false} DigitsDenote(n: nat)
    ensures DigitsValue(Digits(n)) == n
  {
    if n >= 10 {
      DigitsDenote(n / 10);
      assert Digits(n)[..|Digits(n)| - 1] == Digits(n / 10);
    }
  }

  lemma FirstDigit(n: nat)
    ensures Digits(n)[0] != '-'
  {
    hide Digits;
    assert IsDigit(Digits(n)[0]);
  }

  /** Printing an integer and reading the literal gives the integer back. */
  lemma IntTextDenotes(n: int)
    ensures IsIntegerLiteral(IntText(n)) && LiteralValue(IntText(n)) == n
  {
    hide Digits, DigitsValue, AllDigits;
    FirstDigit(if n < 0 then -n else n);
    if n < 0 {
      DigitsDenote(-n);
      assert Magnitude(IntText(n)) == Digits(-n);
    } else {
      DigitsDenote(n);
      assert Magnitude(IntText(n)) == Digits(n);
    }
  }

  function Pow10(k: nat): nat {
    if k == 0 then 1 else 10 * Pow10(k - 1)
  }

  lemma {:induction false} DigitsLength(n: nat, k: nat)
    requires n < Pow10(k) && k > 0
    ensures |Digits(n)| <= k
  {
    if n >= 10 {
      assert k > 1 by {
        assert Pow10(1) == 10;
      }
      DigitsLength(n / 10, k - 1);
    }
  }

  lemma FiveMore(k: nat)
    ensures Pow10(k + 5) == 100000 * Pow10(k)
  {
    assert Pow10(k + 2) == 100 * Pow10(k) && Pow10(k + 4) == 100 * Pow10(k + 2);
  }

  lemma NoZeros()
    ensures Pow10(0) == 1
  {
  }

  /** Every 64-bit integer, signed or unsigned, prints in at most 21 characters. */
  lemma IntTextLength(n: int)
    requires -0x1_0000_0000_0000_0000 < n < 0x1_0000_0000_0000_0000
    ensures |IntText(n)| <= 21
  {
    hide Digits, Pow10;
    FiveMore(0);
    FiveMore(5);
    FiveMore(10);
    FiveMore(15);
    NoZeros();
    DigitsLength(if n < 0 then -n else n, 20);
  }
}
