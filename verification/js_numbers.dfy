/** The parts of JavaScript's number handling the dashboard relies on:
    `parseInt` with no radix (the daily-totals parameters), `Number` on the
    text of a number input (the amount filter), and truthiness. */
module JsNumbers {
  import opened Optional
  import opened Digits

  /** WhiteSpace and LineTerminator characters that `parseInt` skips
      (section 12.2 and 12.3 of ECMA-262; the space separators are the
      Unicode category Zs). */
  predicate IsWhiteSpace(c: char) {
    || c == '\t' || c == '\U{B}' || c == '\U{C}' || c == ' ' || c == '\U{A0}'
    || c == '\U{FEFF}' || c == '\n' || c == '\r' || c == '\U{2028}' || c == '\U{2029}'
    || c == '\U{1680}' || ('\U{2000}' <= c <= '\U{200A}') || c == '\U{202F}'
    || c == '\U{205F}' || c == '\U{3000}'
  }

  /** Drops leading white space. */
  function TrimStart(s: string): (r: string)
    ensures |r| <= |s| && r == s[|s| - |r|..]
    ensures forall i | 0 <= i < |s| - |r| :: IsWhiteSpace(s[i])
    ensures r == [] || !IsWhiteSpace(r[0])
  {
    if s != [] && IsWhiteSpace(s[0]) then TrimStart(s[1..]) else s
  }

  /** Length of the longest prefix of `s` made of digits in `radix`. */
  function DigitRun(s: string, radix: nat): (k: nat)
    ensures k <= |s|
    ensures AllDigitsIn(s[..k], radix)
    ensures k < |s| ==> !IsDigitIn(s[k], radix)
  {
    if s == [] || !IsDigitIn(s[0], radix) then 0
    else
      var k := 1 + DigitRun(s[1..], radix);
      assert s[..k] == [s[0]] + s[1..][..k - 1];
      k
  }

  predicate HasHexPrefix(s: string) {
    |s| >= 2 && s[0] == '0' && (s[1] == 'x' || s[1] == 'X')
  }

  /** The unsigned part of `parseInt`: radix 16 after a `0x` or `0X` prefix,
      radix 10 otherwise, then the longest run of digits; `None` when the run
      is empty. */
  function ParseMagnitude(u: string): Option<nat>
  {
    var radix := if HasHexPrefix(u) then 16 else 10;
    var body := if radix == 16 then u[2..] else u;
    var k := DigitRun(body, radix);
    if k == 0 then None else Some(ValueIn(body[..k], radix))
  }

  /** `parseInt(s)` with the radix left undefined (section 21.1.2.13 of
      ECMA-262): skip leading white space, take an optional sign, then read
      the magnitude; no digits at all is NaN, written `None`. */
  function ParseInt(s: string): (r: Option<int>)
  {
    var t := TrimStart(s);
    var negative := t != [] && t[0] == '-';
    var unsigned := if t != [] && (t[0] == '-' || t[0] == '+') then t[1..] else t;
    match ParseMagnitude(unsigned)
    case None => None
    case Some(m) => Some(if negative then 0 - m else m)
  }

  /** `parseInt` reads back what `toString` writes, for every whole number. */
  lemma ParseIntOfShowInt(n: int)
    ensures ParseInt(ShowInt(n)) == Some(n)
  {
    ParseIntReadsLeadingNumber(ShowInt(n), n, []);
    assert ShowInt(n) + [] == ShowInt(n);
  }

  /** A decimal text followed by a non-digit reads as its value, unless it is
      a lone `0` followed by `x` or `X`. */
  lemma ParseMagnitudeOfShow(m: nat, rest: string)
    requires rest == [] || !IsDigit(rest[0])
    requires m == 0 ==> rest == [] || (rest[0] != 'x' && rest[0] != 'X')
    ensures ParseMagnitude(Show(m) + rest) == Some(m)
  {
    var digits := Show(m);
    var u := digits + rest;
    assert !HasHexPrefix(u) by {
      if |digits| == 1 {
        assert digits[0] == '0' ==> m == 0;
      } else {
        assert u[1] == digits[1];
      }
    }
    DigitRunOfDigits(digits, rest, 10);
    assert u[..|digits|] == digits;
    DecimalOfShow(m);
  }

  /** Prefix semantics: after the decimal text of a number, `parseInt` stops
      at the first character that is not a digit, so `"7abc"` reads as 7.
      The one exception is a lone `0` followed by `x`, which is a hex prefix. */
  lemma ParseIntReadsLeadingNumber(text: string, n: int, rest: string)
    requires text == ShowInt(n)
    requires rest == [] || !IsDigit(rest[0])
    requires n == 0 ==> rest == [] || (rest[0] != 'x' && rest[0] != 'X')
    ensures ParseInt(text + rest) == Some(n)
  {
    var m: nat := if n < 0 then -n else n;
    var u := Show(m) + rest;
    ParseMagnitudeOfShow(m, rest);
    assert IsDigit(u[0]);
    if n < 0 {
      assert text + rest == "-" + u;
      ParseIntSigned(u, m);
    } else {
      assert text + rest == u;
      ParseIntSigned(u, m);
    }
  }

  /** Text that starts with a digit has no white space or sign to skip, and
      a leading `-` negates what follows. */
  lemma ParseIntSigned(u: string, m: nat)
    requires u != [] && IsDigit(u[0])
    requires ParseMagnitude(u) == Some(m)
    ensures ParseInt(u) == Some(m)
    ensures ParseInt("-" + u) == Some(-(m as int))
  {
    assert !IsWhiteSpace(u[0]);
    assert TrimStart(u) == u;
    var s := "-" + u;
    assert !IsWhiteSpace(s[0]);
    assert TrimStart(s) == s;
    assert s[1..] == u;
  }

  lemma {:induction false} DigitRunOfDigits(digits: string, rest: string, radix: nat)
    requires AllDigitsIn(digits, radix)
    requires rest == [] || !IsDigitIn(rest[0], radix)
    ensures DigitRun(digits + rest, radix) == |digits|
  {
    if digits != [] {
      assert (digits + rest)[1..] == digits[1..] + rest;
      DigitRunOfDigits(digits[1..], rest, radix);
    } else {
      assert digits + rest == rest;
    }
  }

  /** The day-totals route's literal example: `"7abc"` is accepted as 7. */
  lemma ParseIntSevenAbc()
    ensures ParseInt("7abc") == Some(7)
  {
    SevenAbcText();
    ParseIntReadsLeadingNumber(ShowInt(7), 7, "abc");
  }

  lemma SevenAbcText()
    ensures ShowInt(7) + "abc" == "7abc"
    ensures !IsDigit("abc"[0])
  {
    assert ShowInt(7) == "7";
  }

  /** Text with no digit after the sign and prefix is NaN; in particular the
      empty text that a missing parameter is replaced with. */
  lemma ParseIntWithoutDigits(s: string)
    requires forall i | 0 <= i < |s| :: !IsDigitIn(s[i], 16)
    ensures ParseInt(s) == None
  {
    var t := TrimStart(s);
    var u := if t != [] && (t[0] == '-' || t[0] == '+') then t[1..] else t;
    assert u == s[|s| - |u|..];
    assert u != [] ==> u[0] == s[|s| - |u|];
    assert !HasHexPrefix(u);
    assert DigitRun(u, 10) == 0;
  }

  /** Text an `<input type="number">` can hold once fractions and exponents
      are set aside: an optional minus sign and at least one decimal digit. */
  predicate IsWholeNumberText(s: string) {
    if s != [] && s[0] == '-' then |s| >= 2 && AllDigits(s[1..])
    else |s| >= 1 && AllDigits(s)
  }

  /** The value of a number input: empty, or a whole number. */
  type NumberInputText = s: string | s == [] || IsWholeNumberText(s)

  /** `Number(s)` on non-empty number-input text. */
  function NumberOf(s: string): (n: int)
    requires IsWholeNumberText(s)
  {
    if s[0] == '-' then 0 - Decimal(s[1..]) else Decimal(s)
  }

  /** `Number` reads back what `toString` writes. */
  lemma NumberOfShowInt(n: int)
    ensures IsWholeNumberText(ShowInt(n))
    ensures NumberOf(ShowInt(n)) == n
  {
    if n < 0 {
      assert ShowInt(n)[1..] == Show(-n);
      DecimalOfShow(-n);
    } else {
      DecimalOfShow(n);
    }
  }

  /** Different whole numbers have different decimal text. */
  lemma ShowIntInjective(a: int, b: int)
    requires ShowInt(a) == ShowInt(b)
    ensures a == b
  {
    NumberOfShowInt(a);
    NumberOfShowInt(b);
  }

  /** Decimal text ends in a digit. */
  lemma ShowIntEndsInDigit(n: int)
    ensures |ShowInt(n)| >= 1 && '0' <= ShowInt(n)[|ShowInt(n)| - 1] <= '9'
  {
    var s := ShowInt(n);
    if n < 0 {
      assert s[|s| - 1] == Show(-n)[|Show(-n)| - 1];
    }
  }

  /** Decimal text has no space. */
  lemma NoSpaceInNumber(n: int)
    ensures forall i | 0 <= i < |ShowInt(n)| :: ShowInt(n)[i] != ' '
  {
    var s := ShowInt(n);
    if n < 0 {
      forall i | 1 <= i < |s|
        ensures s[i] != ' '
      {
        assert s[i] == Show(-n)[i - 1];
      }
    }
  }

  /** JavaScript truthiness of an optional number: `undefined` and 0 are falsy. */
  predicate Truthy(x: Option<int>) {
    x.Some? && x.value != 0
  }
}
