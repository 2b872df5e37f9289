/** Decimal text for integers: JavaScript's `String(n)` on integer values and
    `parseInt(s, 10)`. */
module Decimal {
  import opened Wrappers

  predicate IsDigit(c: char) {
    '0' <= c <= '9'
  }

  predicate AllDigits(s: string) {
    forall k :: 0 <= k < |s| ==> IsDigit(s[k])
  }

  function DigitChar(d: int): (c: char)
    requires 0 <= d < 10
    ensures IsDigit(c) && c as int - '0' as int == d
  {
    ('0' as int + d) as char
  }

  /** `String(n)` for a non-negative integer. */
  function NatToString(n: nat): (s: string)
    ensures |s| > 0 && AllDigits(s)
    decreases n
  {
    if n < 10 then [DigitChar(n)] else NatToString(n / 10) + [DigitChar(n % 10)]
  }

  /** `String(n)` for an integer. */
  function IntToString(n: int): (s: string)
    ensures |s| > 0
    ensures n >= 0 ==> AllDigits(s)
    ensures n < 0 ==> s[0] == '-' && |s| > 1 && AllDigits(s[1..])
  {
    if n < 0 then "-" + NatToString(-n) else NatToString(n)
  }

  /** The value of a string of decimal digits. */
  function DigitsValue(s: string): nat
    requires AllDigits(s)
    decreases |s|
  {
    if s == [] then 0 else DigitsValue(s[..|s| - 1]) * 10 + (s[|s| - 1] as int - '0' as int)
  }

  /** The value of an exact decimal numeral, optionally with a leading
      minus sign; None for any other text. */
  function ParseInt(s: string): Option<int> {
    if |s| > 0 && AllDigits(s) then Some(DigitsValue(s) as int)
    else if |s| > 1 && s[0] == '-' && AllDigits(s[1..]) then Some(-(DigitsValue(s[1..]) as int))
    else None
  }

  lemma {:induction false} NatToStringValue(n: nat)
    ensures DigitsValue(NatToString(n)) == n
    decreases n
  {
    if n >= 10 {
      NatToStringValue(n / 10);
      var s := NatToString(n);
      assert s[..|s| - 1] == NatToString(n / 10);
    }
  }

  /** Parsing the decimal text of an integer gives the integer back. */
  lemma ParseIntRoundTrip(n: int)
    ensures ParseInt(IntToString(n)) == Some(n)
  {
    if n < 0 {
      NatToStringValue(-n);
      assert IntToString(n)[1..] == NatToString(-n);
    } else {
      NatToStringValue(n);
    }
  }

  /** JavaScript's white space and line terminators, which `trim` and
      `parseInt` skip. */
  predicate IsJsSpace(c: char) {
    || c == '\t' || c == '\n' || c == '\U{000B}' || c == '\U{000C}' || c == '\r' || c == ' '
    || c == '\U{00A0}' || c == '\U{1680}' || ('\U{2000}' <= c <= '\U{200A}')
    || c == '\U{2028}' || c == '\U{2029}' || c == '\U{202F}' || c == '\U{205F}' || c == '\U{3000}'
    || c == '\U{FEFF}'
  }

  /** The text after its leading white space (`trimStart`). */
  function TrimStart(s: string): string
    decreases |s|
  {
    if s != [] && IsJsSpace(s[0]) then TrimStart(s[1..]) else s
  }

  /** What `TrimStart` removes is white space, and what it keeps is a
      suffix that does not start with white space. */
  lemma {:induction false} TrimStartSpec(s: string)
    ensures var t := TrimStart(s);
      && |t| <= |s| && t == s[|s| - |t|..]
      && (t != [] ==> !IsJsSpace(t[0]))
      && forall k :: 0 <= k < |s| - |t| ==> IsJsSpace(s[k])
    decreases |s|
  {
    if s != [] && IsJsSpace(s[0]) {
      TrimStartSpec(s[1..]);
      var t := TrimStart(s);
      forall k | 0 <= k < |s| - |t|
        ensures IsJsSpace(s[k])
      {
        if k > 0 {
          assert s[k] == s[1..][k - 1];
        }
      }
    }
  }

  /** The longest run of digits at the start of s. */
  function LeadingDigits(s: string): string
    decreases |s|
  {
    if s != [] && IsDigit(s[0]) then [s[0]] + LeadingDigits(s[1..]) else []
  }

  /** `LeadingDigits` is a prefix of digits that no digit follows. */
  lemma {:induction false} LeadingDigitsSpec(s: string)
    ensures var d := LeadingDigits(s);
      && AllDigits(d) && d <= s
      && (|d| < |s| ==> !IsDigit(s[|d|]))
    decreases |s|
  {
    if s != [] && IsDigit(s[0]) {
      LeadingDigitsSpec(s[1..]);
      var d := LeadingDigits(s);
      assert d == [s[0]] + LeadingDigits(s[1..]);
      forall k | 0 <= k < |d|
        ensures IsDigit(d[k])
      {
        if k > 0 {
          assert d[k] == LeadingDigits(s[1..])[k - 1];
        }
      }
      if |d| < |s| {
        assert s[|d|] == s[1..][|d| - 1];
      }
    }
  }

  /** `parseInt(s, 10)`: skip leading white space, read an optional sign and
      the digits that follow it, ignore the rest; without digits the result
      is `NaN`, modelled as None. */
  function JsParseInt(s: string): Option<int> {
    var t := TrimStart(s);
    var digits := LeadingDigits(SignedBody(t));
    LeadingDigitsSpec(SignedBody(t));
    if digits == [] then None
    else if t != [] && t[0] == '-' then Some(-(DigitsValue(digits) as int))
    else Some(DigitsValue(digits) as int)
  }

  /** The text after an optional leading sign. */
  function SignedBody(t: string): string {
    if t != [] && (t[0] == '-' || t[0] == '+') then t[1..] else t
  }

  lemma LeadingDigitsOfNumeral(s: string)
    requires AllDigits(s)
    ensures LeadingDigits(s) == s
  {
    if s != [] {
      LeadingDigitsOfNumeral(s[1..]);
    }
  }

  /** On an exact numeral `parseInt` reads the whole text. */
  lemma JsParseIntOfNumeral(s: string)
    requires ParseInt(s).Some?
    ensures JsParseInt(s) == ParseInt(s)
  {
    assert TrimStart(s) == s;
    if |s| > 0 && AllDigits(s) {
      LeadingDigitsOfNumeral(s);
    } else {
      LeadingDigitsOfNumeral(s[1..]);
    }
  }

  /** `parseInt(String(n), 10) === n` for every integer n. */
  lemma JsParseIntRoundTrip(n: int)
    ensures JsParseInt(IntToString(n)) == Some(n)
  {
    ParseIntRoundTrip(n);
    JsParseIntOfNumeral(IntToString(n));
  }

  /** The digit run of a numeral followed by a non-digit is the numeral. */
  lemma {:induction false} LeadingDigitsOfPrefix(s: string, rest: string)
    requires AllDigits(s)
    requires rest == [] || !IsDigit(rest[0])
    ensures LeadingDigits(s + rest) == s
    decreases |s|
  {
    if s != [] {
      assert (s + rest)[1..] == s[1..] + rest;
      LeadingDigitsOfPrefix(s[1..], rest);
    }
  }

  /** `parseInt` stops at the first character that is not a digit:
      `parseInt("12px", 10) === 12`. */
  lemma JsParseIntReadsPrefix(n: int, rest: string)
    requires rest == [] || !IsDigit(rest[0])
    ensures JsParseInt(IntToString(n) + rest) == Some(n)
  {
    var s := IntToString(n);
    var line := s + rest;
    assert line[0] == s[0];
    assert TrimStart(line) == line;
    ParseIntRoundTrip(n);
    if n < 0 {
      assert SignedBody(line) == s[1..] + rest;
      LeadingDigitsOfPrefix(s[1..], rest);
    } else {
      assert SignedBody(line) == line;
      LeadingDigitsOfPrefix(s, rest);
    }
  }

  /** Text whose first character after white space is neither a digit nor a
      sign has no number: `parseInt` gives `NaN`. */
  lemma JsParseIntNaN(s: string)
    requires var t := TrimStart(s); t == [] || (!IsDigit(t[0]) && t[0] != '-' && t[0] != '+')
    ensures JsParseInt(s) == None
  {
  }
}
