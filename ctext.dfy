/**
 * The C library's text-to-number conversions as the skeleton uses them:
 * `strtol` and `strtoul` in base 10, over the C locale's white space and
 * decimal digits, and the decimal text of a number.
 */
module CText {

  /** `isspace` in the C locale: blank, or one of tab, newline, vertical
      tab, form feed and carriage return (codes 9 to 13). */
  predicate IsSpace(c: char)
  {
    c == ' ' || '\t' <= c <= '\r'
  }

  predicate IsDigit(c: char)
  {
    '0' <= c <= '9'
  }

  function SkipSpace(s: string): (t: string)
    ensures |t| <= |s|
    ensures t == s[|s| - |t|..]
    ensures t != [] ==> !IsSpace(t[0])
  {
    if s != [] && IsSpace(s[0]) then SkipSpace(s[1..]) else s
  }

  /** The longest prefix of decimal digits. */
  function LeadingDigits(s: string): (d: string)
    ensures |d| <= |s| && d == s[..|d|]
    ensures forall i :: 0 <= i < |d| ==> IsDigit(d[i])
    ensures |d| < |s| ==> !IsDigit(s[|d|])
  {
    if s != [] && IsDigit(s[0]) then [s[0]] + LeadingDigits(s[1..]) else []
  }

  /** The value of a string of decimal digits. */
  function DigitsValue(d: string): nat
    requires forall i :: 0 <= i < |d| ==> IsDigit(d[i])
  {
    if d == [] then 0
    else
      var last := d[|d| - 1] as int - '0' as int;
      assert IsDigit(d[|d| - 1]);
      DigitsValue(d[..|d| - 1]) * 10 + last
  }

  function Pow10(n: nat): nat
  {
    if n == 0 then 1 else 10 * Pow10(n - 1)
  }

  /** A string of n digits is worth less than 10^n. */
  lemma {:induction false} DigitsValueBound(d: string)
    requires forall i :: 0 <= i < |d| ==> IsDigit(d[i])
    ensures DigitsValue(d) < Pow10(|d|)
  {
    if d != [] {
      DigitsValueBound(d[..|d| - 1]);
    }
  }

  /** Whether the number, after leading white space, has a '-' sign. */
  predicate Negative(s: string)
  {
    var t := SkipSpace(s);
    t != [] && t[0] == '-'
  }

  /** The digits of the number: after leading white space and an optional
      sign, the longest run of decimal digits. */
  function Digits(s: string): (d: string)
    ensures forall i :: 0 <= i < |d| ==> IsDigit(d[i])
  {
    var t := SkipSpace(s);
    if t != [] && (t[0] == '-' || t[0] == '+') then LeadingDigits(t[1..]) else LeadingDigits(t)
  }

  /** The magnitude of the number; 0 when there are no digits. */
  function Magnitude(s: string): nat
  {
    DigitsValue(Digits(s))
  }

  /** `strtol(text, NULL, 10)`: optional leading white space, an optional
      sign, then decimal digits. The clamping of `strtol` on overflow never
      applies to the at most 12 bytes the skeleton converts (see
      StrtolBound). */
  function Strtol(s: string): int
  {
    if Negative(s) then 0 - Magnitude(s) else Magnitude(s)
  }

  /** A text of at most 12 bytes converts to a value well inside a 64-bit
      `long`, so `strtol` never clamps on it. */
  lemma {:induction false} StrtolBound(s: string)
    requires |s| <= 12
    ensures 0 - Pow10(12) < Strtol(s) < Pow10(12)
  {
    DigitsValueBound(Digits(s));
    Pow10Monotone(|Digits(s)|, 12);
  }

  lemma {:induction false} Pow10Monotone(m: nat, n: nat)
    requires m <= n
    ensures Pow10(m) <= Pow10(n)
    decreases n
  {
    if m < n {
      Pow10Monotone(m, n - 1);
    }
  }

  // ---------------------------------------------------------------------
  // The decimal text of a number.

  function DigitChar(n: nat): (c: char)
    requires n < 10
    ensures IsDigit(c) && c as int - '0' as int == n
  {
    ('0' as int + n) as char
  }

  /** The decimal text of n, without leading zeros. */
  function Decimal(n: nat): (d: string)
    ensures d != [] && forall i :: 0 <= i < |d| ==> IsDigit(d[i])
  {
    if n < 10 then [DigitChar(n)] else Decimal(n / 10) + [DigitChar(n % 10)]
  }

  lemma {:induction false} DecimalValue(n: nat)
    ensures DigitsValue(Decimal(n)) == n
  {
    if n >= 10 {
      DecimalValue(n / 10);
      var d := Decimal(n);
      assert d[..|d| - 1] == Decimal(n / 10);
    }
  }

  lemma {:induction false} AllDigitsLead(d: string)
    requires forall i :: 0 <= i < |d| ==> IsDigit(d[i])
    ensures LeadingDigits(d) == d
  {
    if d != [] {
      AllDigitsLead(d[1..]);
    }
  }

  lemma {:induction false} SkipSpacePrefix(pre: string, x: string)
    requires forall i :: 0 <= i < |pre| ==> IsSpace(pre[i])
    requires x != [] && !IsSpace(x[0])
    ensures SkipSpace(pre + x) == x
  {
    if pre != [] {
      assert (pre + x)[1..] == pre[1..] + x;
      SkipSpacePrefix(pre[1..], x);
    } else {
      assert pre + x == x;
    }
  }

  lemma {:induction false} LeadingDigitsStop(d: string, rest: string)
    requires forall i :: 0 <= i < |d| ==> IsDigit(d[i])
    requires rest != [] && !IsDigit(rest[0])
    ensures LeadingDigits(d + rest) == d
  {
    if d != [] {
      assert (d + rest)[1..] == d[1..] + rest;
      LeadingDigitsStop(d[1..], rest);
    } else {
      assert d + rest == rest;
    }
  }

  /** Digits between white space and a non-digit are the number read. */
  lemma {:induction false} DigitsPadded(pre: string, d: string, rest: string)
    requires forall i :: 0 <= i < |pre| ==> IsSpace(pre[i])
    requires d != [] && forall i :: 0 <= i < |d| ==> IsDigit(d[i])
    requires rest != [] && !IsDigit(rest[0])
    ensures !Negative(pre + d + rest) && Magnitude(pre + d + rest) == DigitsValue(d)
  {
    assert IsDigit(d[0]);
    var x := d + rest;
    assert pre + d + rest == pre + x;
    SkipSpacePrefix(pre, x);
    LeadingDigitsStop(d, rest);
  }

  /** A nonempty run of digits alone is the number read. */
  lemma {:induction false} DigitsAlone(d: string)
    requires d != [] && forall i :: 0 <= i < |d| ==> IsDigit(d[i])
    ensures !Negative(d) && Magnitude(d) == DigitsValue(d)
  {
    assert IsDigit(d[0]);
    assert SkipSpace(d) == d;
    AllDigitsLead(d);
  }

  const ULONG_LIMIT: int := 0x1_0000_0000_0000_0000

  /** `strtoul(s, NULL, 10)` on a 64-bit `unsigned long`: as `strtol`, but a
      value too large saturates at the maximum and a leading '-' negates
      modulo 2^64. */
  function Strtoul(s: string): (v: nat)
    ensures v < ULONG_LIMIT
  {
    var m := Magnitude(s);
    if m >= ULONG_LIMIT then ULONG_LIMIT - 1
    else if Negative(s) then (ULONG_LIMIT - m) % ULONG_LIMIT
    else m
  }

  /** Round trip: `strtoul` reads the decimal text of a number that fits
      back as that number. */
  lemma {:induction false} StrtoulDecimal(n: nat)
    requires n < ULONG_LIMIT
    ensures Strtoul(Decimal(n)) == n
  {
    DigitsAlone(Decimal(n));
    DecimalValue(n);
  }

  /** `strtol` reads the decimal text of a number back as that number. */
  lemma {:induction false} StrtolDecimal(n: nat)
    ensures Strtol(Decimal(n)) == n
  {
    DigitsAlone(Decimal(n));
    DecimalValue(n);
  }

  /** A value beyond 2^64 - 1 saturates. */
  lemma {:induction false} StrtoulSaturates(d: string)
    requires d != [] && forall i :: 0 <= i < |d| ==> IsDigit(d[i])
    requires DigitsValue(d) >= ULONG_LIMIT
    ensures Strtoul(d) == ULONG_LIMIT - 1
  {
    DigitsAlone(d);
  }
}
