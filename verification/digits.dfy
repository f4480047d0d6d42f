/** Digit strings: reading them (`parseInt`, `new Date`) and writing them
    (`Number.prototype.toString`, `Date.prototype.toISOString`). */
module Digits {

  /** Value of a character read as a digit in a radix up to 36: '0'..'9' are
      0..9, letters of either case are 10..35, anything else is 36, which is a
      digit in no radix. */
  function CharValue(c: char): (v: nat)
    ensures v <= 36
    ensures v < 10 <==> '0' <= c <= '9'
  {
    if '0' <= c <= '9' then c as int - '0' as int
    else if 'a' <= c <= 'z' then c as int - 'a' as int + 10
    else if 'A' <= c <= 'Z' then c as int - 'A' as int + 10
    else 36
  }

  predicate IsDigitIn(c: char, radix: nat) {
    CharValue(c) < radix
  }

  predicate IsDigit(c: char) {
    IsDigitIn(c, 10)
  }

  predicate AllDigitsIn(s: string, radix: nat) {
    forall i | 0 <= i < |s| :: IsDigitIn(s[i], radix)
  }

  predicate AllDigits(s: string) {
    AllDigitsIn(s, 10)
  }

  /** The value of a digit string, most significant digit first. */
  function ValueIn(s: string, radix: nat): nat
    requires AllDigitsIn(s, radix)
  {
    if s == [] then 0
    else
      assert AllDigitsIn(s[..|s| - 1], radix);
      radix * ValueIn(s[..|s| - 1], radix) + CharValue(s[|s| - 1])
  }

  function Pow10(k: nat): (p: nat)
    ensures p >= 1
  {
    if k == 0 then 1 else 10 * Pow10(k - 1)
  }

  /** The decimal value of a digit string is below ten to the power of its length. */
  function Decimal(s: string): (n: nat)
    requires AllDigits(s)
    ensures n < Pow10(|s|)
    ensures n == ValueIn(s, 10)
  {
    if s == [] then 0
    else
      assert AllDigits(s[..|s| - 1]);
      10 * Decimal(s[..|s| - 1]) + CharValue(s[|s| - 1])
  }

  function DigitChar(d: nat): (c: char)
    requires d < 10
    ensures IsDigit(c) && CharValue(c) == d
  {
    ('0' as int + d) as char
  }

  /** The last `width` decimal digits of `n`, with leading zeros. */
  function Pad(n: nat, width: nat): (s: string)
    ensures |s| == width
    ensures AllDigits(s)
  {
    if width == 0 then []
    else Pad(n / 10, width - 1) + [DigitChar(n % 10)]
  }

  /** Reading back a padded number gives the number, when it fits the width. */
  lemma {:induction false} DecimalOfPad(n: nat, width: nat)
    requires n < Pow10(width)
    ensures Decimal(Pad(n, width)) == n
  {
    if width > 0 {
      var s := Pad(n, width);
      assert s[..|s| - 1] == Pad(n / 10, width - 1);
      DecimalOfPad(n / 10, width - 1);
    }
  }

  /** Padding the value of a digit string to its own length gives the string back. */
  lemma {:induction false} PadOfDecimal(s: string)
    requires AllDigits(s)
    ensures Pad(Decimal(s), |s|) == s
  {
    if s != [] {
      var init := s[..|s| - 1];
      assert AllDigits(init);
      var n := Decimal(s);
      assert n / 10 == Decimal(init);
      assert n % 10 == CharValue(s[|s| - 1]);
      PadOfDecimal(init);
      assert DigitChar(n % 10) == s[|s| - 1];
      assert s == init + [s[|s| - 1]];
    }
  }

  /** Two numbers that fit a width are equal exactly when their padded texts are. */
  lemma PadInjective(a: nat, b: nat, width: nat)
    requires a < Pow10(width) && b < Pow10(width)
    ensures Pad(a, width) == Pad(b, width) <==> a == b
  {
    DecimalOfPad(a, width);
    DecimalOfPad(b, width);
  }

  /** Shortest decimal text of a natural number, as `toString` writes it. */
  function Show(n: nat): (s: string)
    ensures 1 <= |s|
    ensures AllDigits(s)
    ensures s[0] == '0' ==> n == 0
  {
    if n < 10 then [DigitChar(n)]
    else Show(n / 10) + [DigitChar(n % 10)]
  }

  /** `toString` and reading back agree. */
  lemma {:induction false} DecimalOfShow(n: nat)
    ensures Decimal(Show(n)) == n
  {
    if n >= 10 {
      var s := Show(n);
      assert s[..|s| - 1] == Show(n / 10);
      DecimalOfShow(n / 10);
    }
  }

  /** `Number.prototype.toString` on a whole number. */
  function ShowInt(n: int): (s: string)
    ensures n >= 0 ==> s == Show(n)
    ensures n < 0 ==> s == "-" + Show(-n)
  {
    if n < 0 then "-" + Show(-n) else Show(n)
  }
}
