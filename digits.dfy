/** Character classes shared by the validation rules and the mask helpers:
    the decimal digits matched by `\d`, the digit filter `replace(/\D/g, '')`,
    and the white-space class `\s` of JavaScript regular expressions. */
module Digits {

  /** `\d` in a JavaScript regular expression: the ASCII digits only. */
  predicate IsDigit(c: char) {
    '0' <= c <= '9'
  }

  predicate AllDigits(s: string) {
    forall i | 0 <= i < |s| :: IsDigit(s[i])
  }

  /** `\s`: the white-space and line-terminator characters of ECMAScript. */
  predicate IsWhitespace(c: char) {
    c == '\t' || c == '\n' || c == '\U{000B}' || c == '\U{000C}' || c == '\r' || c == ' '
    || c == '\U{00A0}' || c == '\U{1680}' || ('\U{2000}' <= c <= '\U{200A}')
    || c == '\U{2028}' || c == '\U{2029}' || c == '\U{202F}' || c == '\U{205F}'
    || c == '\U{3000}' || c == '\U{FEFF}'
  }

  /** `value.replace(/\D/g, '')`: keeps the digits of `s`, in order. */
  function DigitsOnly(s: string): (r: string)
    ensures AllDigits(r)
    ensures |r| <= |s|
  {
    if s == [] then []
    else if IsDigit(s[0]) then [s[0]] + DigitsOnly(s[1..])
    else DigitsOnly(s[1..])
  }

  /** The filter distributes over concatenation: digits are kept in their order. */
  lemma {:induction false} DigitsOnlyAppend(a: string, b: string)
    ensures DigitsOnly(a + b) == DigitsOnly(a) + DigitsOnly(b)
  {
    if a != [] {
      assert (a + b)[0] == a[0] && (a + b)[1..] == a[1..] + b;
      DigitsOnlyAppend(a[1..], b);
      if IsDigit(a[0]) {
        calc {
          DigitsOnly(a + b);
          [a[0]] + DigitsOnly(a[1..] + b);
          [a[0]] + (DigitsOnly(a[1..]) + DigitsOnly(b));
          ([a[0]] + DigitsOnly(a[1..])) + DigitsOnly(b);
        }
      }
    } else {
      assert a + b == b;
    }
  }

  /** A string of digits passes through the filter unchanged, and only such a string does. */
  lemma {:induction false} DigitsOnlyIdentity(s: string)
    ensures DigitsOnly(s) == s <==> AllDigits(s)
  {
    if s != [] {
      DigitsOnlyIdentity(s[1..]);
      if !IsDigit(s[0]) {
        assert |DigitsOnly(s)| < |s|;
      }
    }
  }

  /** Filtering twice is filtering once. */
  lemma DigitsOnlyIdempotent(s: string)
    ensures DigitsOnly(DigitsOnly(s)) == DigitsOnly(s)
  {
    DigitsOnlyIdentity(DigitsOnly(s));
  }

  /** Inserting or deleting one non-digit character never changes the digits kept. */
  lemma DigitsOnlyIgnoresPunctuation(a: string, p: char, b: string)
    requires !IsDigit(p)
    ensures DigitsOnly(a + [p] + b) == DigitsOnly(a + b)
  {
    DigitsOnlyAppend(a + [p], b);
    DigitsOnlyAppend(a, [p]);
    DigitsOnlyAppend(a, b);
  }

  predicate NoDigits(s: string) {
    forall i | 0 <= i < |s| :: !IsDigit(s[i])
  }

  /** A string without digits is filtered to the empty string. */
  lemma {:induction false} DigitsOnlyOfNoDigits(s: string)
    requires NoDigits(s)
    ensures DigitsOnly(s) == []
  {
    if s != [] {
      DigitsOnlyOfNoDigits(s[1..]);
    }
  }

  /** `Number(c)` for a digit character. */
  function DigitValue(c: char): (n: nat)
    requires IsDigit(c)
    ensures n <= 9
    ensures c == '0' + (n as char)
  {
    (c - '0') as nat
  }

  /** The digit character of a value 0..9. */
  function DigitChar(n: nat): (c: char)
    requires n <= 9
    ensures IsDigit(c) && DigitValue(c) == n
  {
    '0' + (n as char)
  }

  /** `cleaned.split('').map(Number)` for a string of digits. */
  function DigitValues(s: string): (ds: seq<nat>)
    requires AllDigits(s)
    ensures |ds| == |s|
    ensures forall i | 0 <= i < |s| :: ds[i] <= 9 && DigitChar(ds[i]) == s[i]
  {
    seq(|s|, i requires 0 <= i < |s| => DigitValue(s[i]))
  }

  /** `Number(s)` for a string of decimal digits (leading zeros allowed). */
  function DecimalValue(s: string): (n: nat)
    requires AllDigits(s)
  {
    if s == [] then 0 else DecimalValue(s[..|s| - 1]) * 10 + DigitValue(s[|s| - 1])
  }
}
