/** Fixed-width decimal digit strings, shared by the timestamp and the number grammars. */
module Digits {

  predicate IsDigit(c: char) {
    '0' <= c <= '9'
  }

  predicate AllDigits(s: string) {
    forall i :: 0 <= i < |s| ==> IsDigit(s[i])
  }

  function DigitValue(c: char): (d: nat)
    requires IsDigit(c)
    ensures d < 10
  {
    c as int - '0' as int
  }

  function DigitChar(d: nat): (c: char)
    requires d < 10
    ensures IsDigit(c) && DigitValue(c) == d
  {
    ('0' as int + d) as char
  }

  function Pow10(n: nat): (p: nat)
    ensures p >= 1
  {
    if n == 0 then 1 else 10 * Pow10(n - 1)
  }

  /** The value of a string of decimal digits, most significant digit first. */
  function DigitsValue(s: string): (v: nat)
    requires AllDigits(s)
    ensures v < Pow10(|s|)
    decreases |s|
  {
    if s == [] then 0 else 10 * DigitsValue(s[..|s| - 1]) + DigitValue(s[|s| - 1])
  }

  /** `n` written with exactly `width` digits, padded with leading zeros (the low digits of `n`). */
  function Pad(n: nat, width: nat): (s: string)
    ensures |s| == width && AllDigits(s)
  {
    if width == 0 then [] else Pad(n / 10, width - 1) + [DigitChar(n % 10)]
  }

  /** Reading back a padded number gives the number, when it fits the width. */
  lemma {:induction false} DigitsValueOfPad(n: nat, width: nat)
    requires n < Pow10(width)
    ensures DigitsValue(Pad(n, width)) == n
  {
    if width > 0 {
      var s := Pad(n, width);
      var q, d := n / 10, n % 10;
      assert n == 10 * q + d;
      assert q < Pow10(width - 1);
      assert s == Pad(q, width - 1) + [DigitChar(d)];
      assert s[..|s| - 1] == Pad(q, width - 1);
      DigitsValueOfPad(q, width - 1);
      assert DigitsValue(s) == 10 * DigitsValue(s[..|s| - 1]) + DigitValue(s[|s| - 1]);
    }
  }

  lemma DigitStep(a: nat, d: nat)
    requires d < 10
    ensures (10 * a + d) / 10 == a && (10 * a + d) % 10 == d
  {
  }

  /** Padding the value of a digit string to its own length gives the string back. */
  lemma {:induction false} PadOfDigitsValue(s: string)
    requires AllDigits(s)
    ensures Pad(DigitsValue(s), |s|) == s
  {
    if s != [] {
      var init, last := s[..|s| - 1], s[|s| - 1];
      var v := DigitsValue(s);
      assert v == 10 * DigitsValue(init) + DigitValue(last);
      DigitStep(DigitsValue(init), DigitValue(last));
      PadOfDigitsValue(init);
      assert DigitChar(DigitValue(last)) == last;
      assert Pad(v, |s|) == Pad(DigitsValue(init), |init|) + [DigitChar(DigitValue(last))];
      assert s == init + [last];
    }
  }

  /** The number of digits of `n` written without leading zeros. */
  function Width(n: nat): (w: nat)
    ensures 1 <= w && n < Pow10(w)
  {
    if n < 10 then 1 else 1 + Width(n / 10)
  }

  /** `n` in plain decimal notation, without leading zeros. */
  function Decimal(n: nat): (s: string)
    ensures s != [] && AllDigits(s)
  {
    Pad(n, Width(n))
  }

  /** Reading back a number written without leading zeros gives the number. */
  lemma DigitsValueOfDecimal(n: nat)
    ensures DigitsValue(Decimal(n)) == n
  {
    DigitsValueOfPad(n, Width(n));
  }
}
