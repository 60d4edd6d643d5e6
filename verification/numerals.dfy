/**
 * JavaScript's global `parseInt(string)` with no radix argument (section 19.2.5 of
 * ECMA-262): skip leading white space, read an optional sign, switch to radix 16 after a
 * `0x`/`0X` prefix, then read the longest run of digits.  No digits gives `NaN`, here `None`.
 */
module Numerals {
  import opened Options

  /** ECMAScript WhiteSpace and LineTerminator code points. */
  predicate IsWhiteSpace(c: char) {
    c == '\t' || c == '\n' || c == '\U{000B}' || c == '\U{000C}' || c == '\r' || c == ' '
    || c == '\U{00A0}' || c == '\U{1680}' || ('\U{2000}' <= c <= '\U{200A}')
    || c == '\U{2028}' || c == '\U{2029}' || c == '\U{202F}' || c == '\U{205F}'
    || c == '\U{3000}' || c == '\U{FEFF}'
  }

  /** `s` without its leading white space. */
  function TrimStart(s: string): (r: string)
    ensures |r| <= |s| && r == s[|s| - |r|..]
    ensures |r| > 0 ==> !IsWhiteSpace(r[0])
    decreases |s|
  {
    if |s| > 0 && IsWhiteSpace(s[0]) then TrimStart(s[1..]) else s
  }

  /** What `TrimStart` removes is all white space. */
  lemma {:induction false} TrimStartRemovesWhiteSpace(s: string)
    ensures forall i :: 0 <= i < |s| - |TrimStart(s)| ==> IsWhiteSpace(s[i])
    decreases |s|
  {
    if |s| > 0 && IsWhiteSpace(s[0]) {
      TrimStartRemovesWhiteSpace(s[1..]);
      forall i | 1 <= i < |s| - |TrimStart(s)|
        ensures IsWhiteSpace(s[i])
      {
        assert s[i] == s[1..][i - 1];
      }
    }
  }

  /** The value of a digit in radix 36; 36 for a character that is no digit at all. */
  function DigitValue(c: char): nat {
    if '0' <= c <= '9' then c as nat - '0' as nat
    else if 'a' <= c <= 'z' then c as nat - 'a' as nat + 10
    else if 'A' <= c <= 'Z' then c as nat - 'A' as nat + 10
    else 36
  }

  predicate IsDigit(c: char, radix: nat) {
    DigitValue(c) < radix
  }

  /** The length of the longest prefix of `s` made of digits. */
  function LeadingDigits(s: string, radix: nat): (n: nat)
    ensures n <= |s|
    ensures forall i :: 0 <= i < n ==> IsDigit(s[i], radix)
    ensures n < |s| ==> !IsDigit(s[n], radix)
    decreases |s|
  {
    if |s| > 0 && IsDigit(s[0], radix) then 1 + LeadingDigits(s[1..], radix) else 0
  }

  /** The number the digits `ds` denote, most significant first. */
  function DigitsValue(ds: string, radix: nat): nat
    decreases |ds|
  {
    if |ds| == 0 then 0
    else DigitsValue(ds[..|ds| - 1], radix) * radix + DigitValue(ds[|ds| - 1])
  }

  /** `parseInt(s)`: `None` where JavaScript yields `NaN`. */
  function ParseInt(s: string): Option<int> {
    var t := TrimStart(s);
    if |t| > 0 && t[0] == '-' then
      match ParseMagnitude(t[1..])
      case None => None
      case Some(m) => Some(0 - m)
    else if |t| > 0 && t[0] == '+' then ParseMagnitude(t[1..])
    else ParseMagnitude(t)
  }

  /** An unsigned numeral: hexadecimal after a `0x` or `0X` prefix, decimal otherwise. */
  function ParseMagnitude(u: string): Option<nat> {
    if |u| >= 2 && u[0] == '0' && (u[1] == 'x' || u[1] == 'X') then ReadDigits(u[2..], 16)
    else ReadDigits(u, 10)
  }

  /** The value of the leading digits of `v`, or `None` when `v` starts with no digit. */
  function ReadDigits(v: string, radix: nat): Option<nat> {
    var n := LeadingDigits(v, radix);
    if n == 0 then None else Some(DigitsValue(v[..n], radix))
  }

  /** The decimal numeral of `n`, without leading zeros. */
  function DecimalText(n: nat): (r: string)
    ensures |r| > 0
    ensures forall i :: 0 <= i < |r| ==> '0' <= r[i] <= '9'
    ensures n > 0 ==> r[0] != '0'
    decreases n
  {
    var last := ('0' as nat + n % 10) as char;
    if n < 10 then [last] else DecimalText(n / 10) + [last]
  }

  lemma {:induction false} DecimalTextValue(n: nat)
    ensures DigitsValue(DecimalText(n), 10) == n
    decreases n
  {
    var r := DecimalText(n);
    if n >= 10 {
      DecimalTextValue(n / 10);
      assert r[..|r| - 1] == DecimalText(n / 10);
    }
  }

  /** The four decimal digits of `n`, most significant first. */
  function FourDigits(n: nat): string
    requires n < 10000
  {
    [('0' as nat + n / 1000) as char, ('0' as nat + n / 100 % 10) as char,
     ('0' as nat + n / 10 % 10) as char, ('0' as nat + n % 10) as char]
  }

  /** A four-digit number's numeral is its four digits. */
  lemma FourDigitNumeral(n: nat)
    requires 1000 <= n < 10000
    ensures DecimalText(n) == FourDigits(n)
  {
    assert DecimalText(n / 1000) == [('0' as nat + n / 1000) as char];
    assert DecimalText(n / 100) == DecimalText(n / 1000) + [('0' as nat + n / 100 % 10) as char];
    assert DecimalText(n / 10) == DecimalText(n / 100) + [('0' as nat + n / 10 % 10) as char];
  }

  /** Text that starts with a decimal digit other than a `0x` prefix reads as its leading digits. */
  lemma ParseUnsigned(s: string)
    requires |s| > 0 && '0' <= s[0] <= '9'
    requires !(|s| >= 2 && s[0] == '0' && (s[1] == 'x' || s[1] == 'X'))
    ensures ParseInt(s) == ReadDigits(s, 10)
  {
    assert !IsWhiteSpace(s[0]);
    assert TrimStart(s) == s;
    assert ParseMagnitude(s) == ReadDigits(s, 10);
  }

  lemma {:induction false} LeadingDigitsOfNumeral(d: string, rest: string)
    requires forall i :: 0 <= i < |d| ==> '0' <= d[i] <= '9'
    requires |rest| > 0 ==> !IsDigit(rest[0], 10)
    ensures LeadingDigits(d + rest, 10) == |d|
    decreases |d|
  {
    if |d| > 0 {
      assert (d + rest)[1..] == d[1..] + rest;
      LeadingDigitsOfNumeral(d[1..], rest);
    } else {
      assert d + rest == rest;
    }
  }

  /**
   * A decimal numeral reads back as its number, also when followed by text that does not
   * continue it ("1985 (approx.)" reads as 1985).
   */
  lemma ParseDecimal(n: nat, rest: string)
    requires |rest| > 0 ==> !IsDigit(rest[0], 10)
    requires n == 0 && |rest| > 0 ==> rest[0] != 'x' && rest[0] != 'X'
    ensures ParseInt(DecimalText(n) + rest) == Some(n)
  {
    var d := DecimalText(n);
    var s := d + rest;
    assert s[0] == d[0];
    assert |s| >= 2 && s[0] == '0' ==> |d| == 1 && s[1] == rest[0];
    ParseUnsigned(s);
    LeadingDigitsOfNumeral(d, rest);
    assert IsDigit(s[0], 10);
    assert s[..|d|] == d;
    DecimalTextValue(n);
  }

  /** Text without a single decimal digit is `NaN`. */
  lemma NoDigitsNoNumber(s: string)
    requires forall i :: 0 <= i < |s| ==> !IsDigit(s[i], 10)
    ensures ParseInt(s) == None
  {
    var t := TrimStart(s);
    assert forall i :: 0 <= i < |t| ==> t[i] == s[|s| - |t| + i];
    if |t| > 0 && (t[0] == '-' || t[0] == '+') {
      NoDigitsRead(t[1..]);
    } else {
      NoDigitsRead(t);
    }
  }

  lemma NoDigitsRead(u: string)
    requires forall i :: 0 <= i < |u| ==> !IsDigit(u[i], 10)
    ensures ParseMagnitude(u) == None
  {
    assert LeadingDigits(u, 10) == 0 by {
      if |u| > 0 { assert !IsDigit(u[0], 10); }
    }
  }
}
