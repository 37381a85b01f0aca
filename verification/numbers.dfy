/**
 * The number/string conversions of JavaScript used on `HH:MM` times:
 * `parseInt(s, 10)`, `String(n)`, `padStart(2, "0")` and the remainder
 * operator `%`, which truncates toward zero.
 */
module Numbers {
  import opened Wrappers
  import Text

  predicate IsDigit(c: char) {
    '0' <= c <= '9'
  }

  predicate AllDigits(s: string) {
    forall i :: 0 <= i < |s| ==> IsDigit(s[i])
  }

  function DigitValue(c: char): nat
    requires IsDigit(c)
  {
    c as int - '0' as int
  }

  function DigitChar(d: nat): (c: char)
    requires d < 10
    ensures IsDigit(c) && DigitValue(c) == d
  {
    ('0' as int + d) as char
  }

  /** The value of a string of decimal digits, most significant first. */
  function DigitsValue(ds: string): nat
    requires AllDigits(ds)
  {
    if |ds| == 0 then 0 else DigitsValue(ds[..|ds| - 1]) * 10 + DigitValue(ds[|ds| - 1])
  }

  /** The longest run of decimal digits at the start of `s`. */
  function LeadingDigits(s: string): (r: string)
    ensures r <= s && AllDigits(r)
    ensures |r| < |s| ==> !IsDigit(s[|r|])
  {
    if |s| > 0 && IsDigit(s[0]) then [s[0]] + LeadingDigits(s[1..]) else []
  }

  /**
   * `parseInt(s, 10)`: skips leading whitespace, reads an optional sign and
   * then as many decimal digits as follow; `None` stands for `NaN`, the
   * result when no digit follows.
   */
  function ParseInt(s: string): (n: Option<int>)
  {
    var t := Text.TrimStart(s);
    var negative := |t| > 0 && t[0] == '-';
    var unsigned := if |t| > 0 && (t[0] == '-' || t[0] == '+') then t[1..] else t;
    var ds := LeadingDigits(unsigned);
    if |ds| == 0 then None
    else if negative then Some(0 - DigitsValue(ds))
    else Some(DigitsValue(ds))
  }

  /** Decimal digits of a natural number, without leading zeros. */
  function NatToString(n: nat): (s: string)
    ensures |s| > 0 && AllDigits(s)
    ensures DigitsValue(s) == n
    ensures n >= 10 ==> s[0] != '0'
  {
    if n < 10 then [DigitChar(n)]
    else
      var s := NatToString(n / 10) + [DigitChar(n % 10)];
      assert s[..|s| - 1] == NatToString(n / 10);
      s
  }

  /** `String(n)` for an integer `n`. */
  function IntToString(n: int): (s: string)
    ensures |s| > 0
  {
    if n < 0 then "-" + NatToString(-n) else NatToString(n)
  }

  /** `s.padStart(2, "0")`. */
  function PadStart2(s: string): (r: string)
    ensures |r| == if |s| < 2 then 2 else |s|
    ensures r[|r| - |s|..] == s
    ensures forall i :: 0 <= i < |r| - |s| ==> r[i] == '0'
  {
    if |s| >= 2 then s else seq(2 - |s|, _ => '0') + s
  }

  /** Two decimal digits for a number below 100, zero-padded. */
  function TwoDigits(n: nat): (s: string)
    requires n < 100
    ensures |s| == 2 && AllDigits(s)
  {
    [DigitChar(n / 10), DigitChar(n % 10)]
  }

  /** The quotient `a / b` rounded toward zero, as `Math.trunc(a / b)`. */
  function TruncDiv(a: int, b: int): int
    requires b > 0
  {
    if a >= 0 then a / b else -((-a) / b)
  }

  /**
   * JavaScript's `a % b`: `a - b * q` for the quotient `q` truncated toward
   * zero, so the remainder takes the sign of the dividend.
   */
  function JsRem(a: int, b: int): (r: int)
    requires b > 0
    ensures r == a - b * TruncDiv(a, b)
    ensures a >= 0 ==> r == a % b
    ensures a < 0 ==> -b < r <= 0
  {
    if a >= 0 then a % b else -((-a) % b)
  }

  /** A run of digits is read back whole by `LeadingDigits`. */
  lemma {:induction false} LeadingDigitsOfDigits(ds: string)
    requires AllDigits(ds)
    ensures LeadingDigits(ds) == ds
    decreases |ds|
  {
    if |ds| > 0 {
      LeadingDigitsOfDigits(ds[1..]);
      assert ds == [ds[0]] + ds[1..];
    }
  }

  /**
   * `parseInt` of a blank string is `NaN`; a number needs a sign or a digit
   * right after the leading whitespace, and a negative one a minus sign.
   */
  lemma ParseIntShape(s: string)
    ensures Text.AllWhitespace(s) ==> ParseInt(s).None?
    ensures ParseInt(s).Some? ==> var t := Text.TrimStart(s);
      |t| > 0 && (IsDigit(t[0]) || t[0] == '-' || t[0] == '+')
    ensures ParseInt(s).Some? && ParseInt(s).value < 0 ==> Text.TrimStart(s)[0] == '-'
  {
  }

  /**
   * `String(n)` is a minus sign exactly for negative `n`, followed by
   * decimal digits with no leading zero unless `n` is 0.
   */
  lemma IntToStringShape(n: int)
    ensures var s := IntToString(n);
      && (s[0] == '-' <==> n < 0)
      && (n < 0 ==> |s| >= 2)
      && AllDigits(if n < 0 then s[1..] else s)
      && (n != 0 ==> s[if n < 0 then 1 else 0] != '0')
  {
  }

  /** `parseInt` reads back what `String` writes, for every integer. */
  lemma ParseIntOfIntToString(n: int)
    ensures ParseInt(IntToString(n)) == Some(n)
  {
    var ds := NatToString(if n < 0 then -n else n);
    LeadingDigitsOfDigits(ds);
    var s := IntToString(n);
    assert !Text.IsWhitespace(s[0]);
    assert Text.TrimStart(s) == s;
    if n < 0 {
      assert s[1..] == ds;
    } else {
      assert s == ds;
      assert IsDigit(s[0]);
    }
  }

  /** For 0..99, `String(n).padStart(2, "0")` is the two-digit form of `n`. */
  lemma PadStart2OfIntToString(n: nat)
    requires n < 100
    ensures PadStart2(IntToString(n)) == TwoDigits(n)
  {
    if n < 10 {
      assert IntToString(n) == [DigitChar(n)];
    } else {
      assert NatToString(n / 10) == [DigitChar(n / 10)];
      assert IntToString(n) == [DigitChar(n / 10), DigitChar(n % 10)];
    }
  }

  /** The two-digit form of `n` reads back as `n`. */
  lemma ParseIntOfTwoDigits(n: nat)
    requires n < 100
    ensures ParseInt(TwoDigits(n)) == Some(n)
  {
    var s := TwoDigits(n);
    LeadingDigitsOfDigits(s);
    assert !Text.IsWhitespace(s[0]);
    assert Text.TrimStart(s) == s;
    assert s[..1] == [s[0]];
    assert s[..1][..0] == [];
    assert DigitsValue(s[..1]) == n / 10;
  }

  /** A string that starts with neither whitespace, a sign nor a digit parses to `NaN`. */
  lemma ParseIntOfNonNumeric(s: string)
    requires |s| > 0 && !Text.IsWhitespace(s[0]) && !IsDigit(s[0]) && s[0] != '-' && s[0] != '+'
    ensures ParseInt(s).None?
  {
    assert Text.TrimStart(s) == s;
  }
}
