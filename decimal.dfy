/**
 * Decimal text of natural numbers, as Java prints an `int` or a
 * zero-padded calendar field, and its reading back.
 */
module Decimal {

  predicate IsDigit(c: char) {
    '0' <= c <= '9'
  }

  predicate AllDigits(s: string) {
    forall i :: 0 <= i < |s| ==> IsDigit(s[i])
  }

  function DigitChar(d: nat): (c: char)
    requires d < 10
    ensures IsDigit(c) && c as int - '0' as int == d
  {
    ('0' as int + d) as char
  }

  function DigitValue(c: char): (d: nat)
    requires IsDigit(c)
    ensures d < 10 && DigitChar(d) == c
  {
    c as int - '0' as int
  }

  /** The shortest decimal text of `n` ("0" for zero, no leading zeros otherwise). */
  function Digits(n: nat): (s: string)
    ensures 1 <= |s| && AllDigits(s)
    ensures |s| > 1 ==> s[0] != '0'
    decreases n
  {
    if n < 10 then [DigitChar(n)] else Digits(n / 10) + [DigitChar(n % 10)]
  }

  function Zeros(k: nat): (s: string)
    ensures |s| == k && forall i :: 0 <= i < k ==> s[i] == '0'
  {
    if k == 0 then [] else Zeros(k - 1) + ['0']
  }

  /** `n` left-padded with zeros to at least `width` characters, as a
      `SimpleDateFormat` numeric field of that many pattern letters prints it. */
  function Padded(n: nat, width: nat): (s: string)
    ensures AllDigits(s)
    ensures |s| == if |Digits(n)| >= width then |Digits(n)| else width
  {
    var d := Digits(n);
    if |d| >= width then d else Zeros(width - |d|) + d
  }

  /** The number a text of decimal digits denotes (most significant first). */
  function Value(s: string): nat
    requires AllDigits(s)
  {
    if s == [] then 0 else Value(s[..|s| - 1]) * 10 + DigitValue(s[|s| - 1])
  }

  function Pow10(k: nat): (p: nat)
    ensures p >= 1
  {
    if k == 0 then 1 else 10 * Pow10(k - 1)
  }

  /** Reading back the printed text gives the number. */
  lemma {:induction false} ValueOfDigits(n: nat)
    ensures Value(Digits(n)) == n
    decreases n
  {
    if n >= 10 {
      var d := Digits(n / 10);
      var s := d + [DigitChar(n % 10)];
      assert s[..|s| - 1] == d;
      ValueOfDigits(n / 10);
    }
  }

  /** Leading zeros do not change the value of a digit text. */
  lemma {:induction false} ValueIgnoresZeros(k: nat, s: string)
    requires AllDigits(s)
    ensures AllDigits(Zeros(k) + s) && Value(Zeros(k) + s) == Value(s)
    decreases |s|, k
  {
    var z := Zeros(k) + s;
    if s == [] {
      assert z == Zeros(k);
      if k > 0 {
        assert z[..|z| - 1] == Zeros(k - 1) + [];
        ValueIgnoresZeros(k - 1, []);
      }
    } else {
      assert z[..|z| - 1] == Zeros(k) + s[..|s| - 1];
      ValueIgnoresZeros(k, s[..|s| - 1]);
    }
  }

  lemma {:induction false} PaddedValue(n: nat, width: nat)
    ensures Value(Padded(n, width)) == n
  {
    ValueOfDigits(n);
    var d := Digits(n);
    if |d| < width {
      ValueIgnoresZeros(width - |d|, d);
    }
  }

  /** A number below 10^k prints in at most k digits. */
  lemma {:induction false} DigitsFit(n: nat, k: nat)
    requires 1 <= k && n < Pow10(k)
    ensures |Digits(n)| <= k
    decreases k
  {
    if n >= 10 {
      assert k != 1;
      DigitsFit(n / 10, k - 1);
    }
  }

  /** So a field below 10^width is printed in exactly `width` characters. */
  lemma PaddedWidth(n: nat, width: nat)
    requires 1 <= width && n < Pow10(width)
    ensures |Padded(n, width)| == width
  {
    DigitsFit(n, width);
  }

  /** Java's decimal text of a signed integer: a minus sign, then the digits of |i|. */
  function IntText(i: int): (s: string)
    ensures 1 <= |s|
    ensures i >= 0 ==> AllDigits(s) && Value(s) == i
    ensures i < 0 ==> s[0] == '-' && AllDigits(s[1..]) && Value(s[1..]) == -i
    ensures i >= 0 && |s| > 1 ==> s[0] != '0'
    ensures i < 0 ==> |s| >= 2 && s[1] != '0'
  {
    if i >= 0 then
      ValueOfDigits(i);
      Digits(i)
    else
      var d := Digits(-i);
      ValueOfDigits(-i);
      assert (['-'] + d)[1..] == d;
      ['-'] + d
  }
}
