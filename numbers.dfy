/** Decimal text of integers (`String(n)` / `toString()` on integral numbers),
    JavaScript's `parseInt(text, 10)`, `padStart(2, '0')` and `Math.round`. */
module Numbers {
  import opened Collections
  import opened Strings

  predicate IsDigit(c: char) {
    '0' <= c <= '9'
  }

  predicate AllDigits(s: string) {
    forall i :: 0 <= i < |s| ==> IsDigit(s[i])
  }

  function DigitChar(d: nat): (c: char)
    requires d < 10
    ensures IsDigit(c)
  {
    ('0' as int + d) as char
  }

  /** The value of a string of decimal digits. */
  function DigitsValue(s: string): nat
    requires AllDigits(s)
  {
    if s == [] then 0 else DigitsValue(s[..|s| - 1]) * 10 + (s[|s| - 1] as int - '0' as int)
  }

  /** `String(n)` for a non-negative integer: its shortest decimal digits. */
  function NatToString(n: nat): (r: string)
    ensures r != [] && AllDigits(r)
    ensures r[0] == '0' ==> n == 0
  {
    if n < 10 then [DigitChar(n)] else NatToString(n / 10) + [DigitChar(n % 10)]
  }

  /** Reading back the digits of `n` gives `n`. */
  lemma {:induction false} NatToStringValue(n: nat)
    ensures DigitsValue(NatToString(n)) == n
  {
    if n >= 10 {
      var r := NatToString(n);
      assert r[..|r| - 1] == NatToString(n / 10);
      NatToStringValue(n / 10);
    }
  }

  /** `String(i)` for any integer. */
  function IntToString(i: int): (r: string)
    ensures r != []
    ensures i >= 0 ==> AllDigits(r)
    ensures i < 0 ==> r[0] == '-' && AllDigits(r[1..])
  {
    if i < 0 then "-" + NatToString(-i) else NatToString(i)
  }

  /** `String(s).padStart(2, '0')`. */
  function PadStart2(s: string): (r: string)
    ensures |r| == if |s| < 2 then 2 else |s|
    ensures r[|r| - |s|..] == s
  {
    if |s| == 0 then "00" else if |s| == 1 then "0" + s else s
  }

  /** The longest prefix of `s` made of decimal digits. */
  function LeadingDigits(s: string): (r: string)
    ensures |r| <= |s|
    ensures forall i :: 0 <= i < |r| ==> r[i] == s[i]
    ensures AllDigits(r)
    ensures |r| < |s| ==> !IsDigit(s[|r|])
  {
    if s != [] && IsDigit(s[0]) then [s[0]] + LeadingDigits(s[1..]) else []
  }

  /** The digit prefix of digits followed by a non-digit is exactly those digits. */
  lemma {:induction false} LeadingDigitsOf(d: string, rest: string)
    requires AllDigits(d)
    requires rest == [] || !IsDigit(rest[0])
    ensures LeadingDigits(d + rest) == d
  {
    if d != [] {
      assert (d + rest)[1..] == d[1..] + rest;
      LeadingDigitsOf(d[1..], rest);
    } else {
      assert d + rest == rest;
    }
  }

  /** The text after an optional leading sign. */
  function Unsigned(t: string): string {
    if t != [] && (t[0] == '-' || t[0] == '+') then t[1..] else t
  }

  /** `parseInt(s, 10)`: leading whitespace is skipped, an optional sign is read,
      then the longest run of digits; `None` stands for `NaN` (no digits at all). */
  function ParseInt(s: string): (r: Option<int>)
    ensures r.Some? ==> TrimStart(s) != [] && (r.value < 0 ==> TrimStart(s)[0] == '-')
  {
    var t := TrimStart(s);
    var digits := LeadingDigits(Unsigned(t));
    if digits == [] then None
    else if t[0] == '-' then Some(-(DigitsValue(digits) as int))
    else Some(DigitsValue(digits))
  }

  /** Text that does not open with whitespace, a sign or a digit reads as `NaN`. */
  lemma ParseIntNoNumber(text: string)
    requires text != [] ==> !IsJsWhitespace(text[0]) && !IsDigit(text[0]) && text[0] != '-' && text[0] != '+'
    ensures ParseInt(text) == None
  {
    TrimStartStop(text);
    assert Unsigned(text) == text;
  }

  /** `parseInt` reads back the decimal text of any integer, whatever follows it as
      long as it does not start with a digit (`"2010"`, `"2010-05-01"`, `"-44 BC"`). */
  lemma ParseIntOfIntToString(i: int, rest: string)
    requires rest == [] || !IsDigit(rest[0])
    ensures ParseInt(IntToString(i) + rest) == Some(i)
  {
    if i < 0 {
      ParseIntOfNegative(i, rest);
    } else {
      ParseDigits(NatToString(i), rest);
      NatToStringValue(i);
    }
  }

  lemma ParseIntOfNegative(i: int, rest: string)
    requires i < 0
    requires rest == [] || !IsDigit(rest[0])
    ensures ParseInt(IntToString(i) + rest) == Some(i)
  {
    var n: nat := -i;
    var d := NatToString(n);
    NatToStringValue(n);
    assert IntToString(i) == "-" + d;
    ParseNegative(IntToString(i) + rest, d, rest);
  }

  /** `parseInt` on a text that starts with no whitespace reads the digits after the sign. */
  lemma ParseIntRead(text: string, digits: string)
    requires text != [] && !IsJsWhitespace(text[0])
    requires digits == LeadingDigits(Unsigned(text)) && digits != []
    ensures ParseInt(text) == if text[0] == '-' then Some(-(DigitsValue(digits) as int)) else Some(DigitsValue(digits))
  {
    assert TrimStart(text) == text;
  }

  lemma ParseDigits(d: string, rest: string)
    requires d != [] && AllDigits(d)
    requires rest == [] || !IsDigit(rest[0])
    ensures ParseInt(d + rest) == Some(DigitsValue(d))
  {
    var text := d + rest;
    assert text[0] == d[0];
    assert Unsigned(text) == text;
    LeadingDigitsOf(d, rest);
    ParseIntRead(text, d);
  }

  lemma ParseNegative(text: string, d: string, rest: string)
    requires d != [] && AllDigits(d)
    requires rest == [] || !IsDigit(rest[0])
    requires text == "-" + d + rest
    ensures ParseInt(text) == Some(-(DigitsValue(d) as int))
  {
    var tail := d + rest;
    assert text == ['-'] + tail;
    assert text[1..] == tail;
    assert Unsigned(text) == tail;
    LeadingDigitsOf(d, rest);
    ParseIntRead(text, d);
  }

  /** `Math.round`: the nearest integer, halves rounded up. */
  function Round(x: real): (r: int)
    ensures r as real - 0.5 <= x < r as real + 0.5
  {
    (x + 0.5).Floor
  }
}
