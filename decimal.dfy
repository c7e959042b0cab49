/**
 * Base-10 digit strings: the `replace(/[^\d]/g, "")` filter followed by `Number(...)`
 * that the price parsers share, and the decimal rendering of a natural number that
 * template strings and JSX use when they show a number.
 */
module Decimal {
  import opened Text

  /** `\d` without the `u` flag: the ASCII digits only. */
  predicate IsDigit(c: char) {
    '0' <= c <= '9'
  }

  function DigitValue(c: char): (d: nat)
    requires IsDigit(c)
    ensures d < 10
  {
    c as int - '0' as int
  }

  function DigitChar(d: nat): (c: char)
    requires d < 10
    ensures IsDigit(c) && DigitValue(c) == d
  {
    ('0' as int + d) as char
  }

  predicate AllDigits(s: string) {
    forall i | 0 <= i < |s| :: IsDigit(s[i])
  }

  /** `s.replace(/[^\d]/g, "")`: the digits of `s`, in their order. */
  function KeepDigits(s: string): (r: string)
    ensures AllDigits(r)
    ensures |r| <= |s|
    ensures AllDigits(s) ==> r == s
  {
    if s == [] then []
    else if IsDigit(s[|s| - 1]) then KeepDigits(s[..|s| - 1]) + [s[|s| - 1]]
    else KeepDigits(s[..|s| - 1])
  }

  /** `Number(ds)` for a string of digits; the empty string reads as 0. */
  function Value(ds: string): nat
    requires AllDigits(ds)
  {
    if ds == [] then 0 else 10 * Value(ds[..|ds| - 1]) + DigitValue(ds[|ds| - 1])
  }

  /** The digits of `s` read in base 10. */
  function Parse(s: string): nat {
    Value(KeepDigits(s))
  }

  /** The decimal rendering of `n`, without leading zeros. */
  function Format(n: nat): (r: string)
    ensures AllDigits(r) && r != []
    ensures n < 10 <==> |r| == 1
    decreases n
  {
    if n < 10 then [DigitChar(n)] else Format(n / 10) + [DigitChar(n % 10)]
  }

  /** The rendering of a positive number does not start with a zero. */
  lemma {:induction false} FormatLeadingDigit(n: nat)
    requires n > 0
    ensures Format(n)[0] != '0'
    decreases n
  {
    if n >= 10 {
      FormatLeadingDigit(n / 10);
      assert Format(n)[0] == Format(n / 10)[0];
    } else {
      assert DigitValue(Format(n)[0]) == n;
    }
  }

  /** Reading back a rendered number gives the number. */
  lemma {:induction false} ParseFormat(n: nat)
    ensures Parse(Format(n)) == n
    decreases n
  {
    var r := Format(n);
    assert KeepDigits(r) == r;
    if n < 10 {
      assert r[..|r| - 1] == [];
    } else {
      ParseFormat(n / 10);
      assert r[..|r| - 1] == Format(n / 10);
      assert KeepDigits(Format(n / 10)) == Format(n / 10);
      assert Value(r) == 10 * Value(Format(n / 10)) + DigitValue(r[|r| - 1]);
      assert DigitValue(r[|r| - 1]) == n % 10;
    }
    assert Parse(r) == Value(r);
  }

  lemma {:induction false} KeepDigitsConcat(a: string, b: string)
    ensures KeepDigits(a + b) == KeepDigits(a) + KeepDigits(b)
    decreases |b|
  {
    if b == [] {
      assert a + b == a;
    } else {
      var b' := b[..|b| - 1];
      assert (a + b)[..|a + b| - 1] == a + b';
      assert (a + b)[|a + b| - 1] == b[|b| - 1];
      KeepDigitsConcat(a, b');
    }
  }

  /** A character that is not a digit, such as a thousands separator, does not change the value. */
  lemma NonDigitIgnored(a: string, c: char, b: string)
    requires !IsDigit(c)
    ensures Parse(a + [c] + b) == Parse(a + b)
  {
    KeepDigitsConcat(a + [c], b);
    KeepDigitsConcat(a, [c]);
    KeepDigitsConcat(a, b);
    assert KeepDigits([c]) == KeepDigits([c][..0]);
  }

  /** A string without a single digit reads as 0. */
  lemma {:induction false} NoDigitsIsZero(s: string)
    requires forall i | 0 <= i < |s| :: !IsDigit(s[i])
    ensures KeepDigits(s) == [] && Parse(s) == 0
  {
    if s != [] {
      NoDigitsIsZero(s[..|s| - 1]);
    }
  }
}
