/**
 * The checks `addSong` runs on the optional message before anything else is read:
 * length, repeated characters, letter-only gibberish, special-character runs and
 * the digit-to-letter ratio. The first failing check decides the reply.
 *
 * A JavaScript string is a sequence of UTF-16 code units: `.length` counts them, and
 * a regular expression without the `u` flag matches them one at a time. The checks
 * therefore run on `Utf16(message)`, where a character outside the Basic Multilingual
 * Plane is two units, a high surrogate followed by a low one.
 */
module MessageCheck {
  import opened Wrappers
  import opened Text
  import opened Decimal

  /** Which check refused the message; each one has its own 400 reply. */
  datatype Violation = BadLength | RepeatedChar | RandomString | TooManySpecials | TooManyDigits

  /** A UTF-16 code unit. */
  type CodeUnit = u: nat | u < 0x1_0000

  predicate IsSurrogate(u: CodeUnit) {
    0xD800 <= u <= 0xDFFF
  }

  /** The encoding of one character: itself, or its surrogate pair. */
  function UnitsOf(c: char): (r: seq<CodeUnit>)
    ensures c as int < 0x1_0000 ==> r == [c as int]
    ensures c as int >= 0x1_0000 ==> |r| == 2 && 0xD800 <= r[0] <= 0xDBFF && 0xDC00 <= r[1] <= 0xDFFF
  {
    var v := c as int;
    if v < 0x1_0000 then [v] else [0xD800 + (v - 0x1_0000) / 0x400, 0xDC00 + (v - 0x1_0000) % 0x400]
  }

  /** The code units of a string, as JavaScript stores it. */
  function Utf16(s: string): (r: seq<CodeUnit>)
    ensures |s| <= |r| <= 2 * |s|
  {
    if s == [] then [] else Utf16(s[..|s| - 1]) + UnitsOf(s[|s| - 1])
  }

  /** The character a unit stands for on its own; a lone surrogate stands for none. */
  predicate UnitIs(u: CodeUnit, p: char -> bool) {
    !IsSurrogate(u) && p(u as char)
  }

  /** `[a-zA-Z]`. */
  predicate IsAsciiLetter(u: CodeUnit) {
    ('a' as int <= u <= 'z' as int) || ('A' as int <= u <= 'Z' as int)
  }

  /** `[0-9]`. */
  predicate IsDigitUnit(u: CodeUnit) {
    '0' as int <= u <= '9' as int
  }

  /** The class `[!@#$%^&*()_+=\-[\]{};:'",.<>/?\\|]`. */
  predicate IsSpecial(u: CodeUnit) {
    UnitIs(u, c => c in "!@#$%^&*()_+=-[]{};:'\",.<>/?\\|")
  }

  /** `\s`. */
  predicate IsSpaceUnit(u: CodeUnit) {
    UnitIs(u, IsSpace)
  }

  /** What `.` does not match. */
  predicate IsLineTerminatorUnit(u: CodeUnit) {
    UnitIs(u, IsLineTerminator)
  }

  /** `(.)\1{4,}` matches at `i`: five equal units, the first not a line terminator. */
  predicate RepeatAt(m: seq<CodeUnit>, i: nat) {
    i + 5 <= |m| && !IsLineTerminatorUnit(m[i])
    && m[i + 1] == m[i] && m[i + 2] == m[i] && m[i + 3] == m[i] && m[i + 4] == m[i]
  }

  /** `[a-zA-Z]{10,}` matches at `i`. */
  predicate LetterRunAt(m: seq<CodeUnit>, i: nat) {
    i + 10 <= |m| && forall k | i <= k < i + 10 :: IsAsciiLetter(m[k])
  }

  /** The special-character class repeated four or more times matches at `i`. */
  predicate SpecialRunAt(m: seq<CodeUnit>, i: nat) {
    i + 4 <= |m| && forall k | i <= k < i + 4 :: IsSpecial(m[k])
  }

  predicate HasRepeat(m: seq<CodeUnit>) {
    exists i | 0 <= i < |m| :: RepeatAt(m, i)
  }

  predicate HasLetterRun(m: seq<CodeUnit>) {
    exists i | 0 <= i < |m| :: LetterRunAt(m, i)
  }

  predicate HasSpecialRun(m: seq<CodeUnit>) {
    exists i | 0 <= i < |m| :: SpecialRunAt(m, i)
  }

  /** `/\s/.test(m)`. */
  predicate HasSpace(m: seq<CodeUnit>) {
    exists i | 0 <= i < |m| :: IsSpaceUnit(m[i])
  }

  /** `(m.match(/[a-zA-Z]/g) || []).length`. */
  function Letters(m: seq<CodeUnit>): (n: nat)
    ensures n <= |m|
  {
    if m == [] then 0 else Letters(m[..|m| - 1]) + (if IsAsciiLetter(m[|m| - 1]) then 1 else 0)
  }

  /** `(m.match(/[0-9]/g) || []).length`. */
  function Digits(m: seq<CodeUnit>): (n: nat)
    ensures n <= |m|
  {
    if m == [] then 0 else Digits(m[..|m| - 1]) + (if IsDigitUnit(m[|m| - 1]) then 1 else 0)
  }

  /** `message && message.trim() !== ''`: only a present message that is not all white space is checked. */
  predicate IsChecked(message: Option<string>) {
    message.Some? && Trim(message.value) != ""
  }

  /** The five checks, in the order the handler runs them; `None` lets the request through. */
  function Check(message: Option<string>): (r: Option<Violation>)
    ensures r.Some? ==> IsChecked(message)
  {
    if !IsChecked(message) then None
    else
      var m := Utf16(message.value);
      if |m| < 2 || |m| > 200 then Some(BadLength)
      else if HasRepeat(m) then Some(RepeatedChar)
      else if HasLetterRun(m) && !HasSpace(m) then Some(RandomString)
      else if HasSpecialRun(m) then Some(TooManySpecials)
      else if Digits(m) > Letters(m) * 2 then Some(TooManyDigits)
      else None
  }

  /**
   * A checked message is accepted exactly when all five rules hold, and a refused one
   * reports the first rule it breaks.
   */
  lemma CheckOutcome(message: Option<string>)
    ensures !IsChecked(message) ==> Check(message).None?
    ensures IsChecked(message) ==> var m := Utf16(message.value); var r := Check(message);
      && (r == Some(BadLength) <==> !(2 <= |m| <= 200))
      && (r == Some(RepeatedChar) <==> 2 <= |m| <= 200 && HasRepeat(m))
      && (r == Some(RandomString) <==> 2 <= |m| <= 200 && !HasRepeat(m) && HasLetterRun(m) && !HasSpace(m))
      && (r == Some(TooManySpecials) <==> 2 <= |m| <= 200 && !HasRepeat(m) && !(HasLetterRun(m) && !HasSpace(m))
                                          && HasSpecialRun(m))
      && (r.None? <==> && 2 <= |m| <= 200 && !HasRepeat(m) && !(HasLetterRun(m) && !HasSpace(m))
                       && !HasSpecialRun(m) && Digits(m) <= 2 * Letters(m))
  {
  }

  /** An absent, empty or white-space-only message is never refused. */
  lemma BlankMessageAccepted(message: Option<string>)
    requires message.None? || AllSpace(message.value)
    ensures Check(message).None?
  {
  }

  /** In the Basic Multilingual Plane a character is one code unit, so both views agree. */
  lemma {:induction false} BmpUnits(s: string)
    requires forall i | 0 <= i < |s| :: s[i] as int < 0x1_0000
    ensures |Utf16(s)| == |s|
    ensures forall i | 0 <= i < |s| :: Utf16(s)[i] == s[i] as int
  {
    if s != [] {
      BmpUnits(s[..|s| - 1]);
    }
  }

  /** Outside the Basic Multilingual Plane every character is a high then a low surrogate. */
  lemma {:induction false} AstralUnits(s: string)
    requires forall i | 0 <= i < |s| :: s[i] as int >= 0x1_0000
    ensures |Utf16(s)| == 2 * |s|
    ensures forall k | 0 <= k < |s| :: 0xD800 <= Utf16(s)[2 * k] <= 0xDBFF && 0xDC00 <= Utf16(s)[2 * k + 1] <= 0xDFFF
  {
    if s != [] {
      AstralUnits(s[..|s| - 1]);
    }
  }

  lemma {:induction false} DigitsOnlyCounts(m: seq<CodeUnit>)
    requires forall i | 0 <= i < |m| :: IsDigitUnit(m[i])
    ensures Digits(m) == |m| && Letters(m) == 0
  {
    if m != [] { DigitsOnlyCounts(m[..|m| - 1]); }
  }

  /** A message made only of digits is always refused, at the latest by the ratio check. */
  lemma DigitsOnlyRefused(m: string)
    requires m != [] && AllDigits(m)
    ensures Check(Some(m)).Some?
  {
    DigitUnits(m);
    var u := Utf16(m);
    DigitsOnlyCounts(u);
    assert IsChecked(Some(m)) by {
      assert !IsSpace(m[0]);
    }
    CheckOutcome(Some(m));
  }

  /** The code units of a string of ASCII digits are those digits. */
  lemma DigitUnits(m: string)
    requires AllDigits(m)
    ensures |Utf16(m)| == |m|
    ensures forall i | 0 <= i < |Utf16(m)| :: IsDigitUnit(Utf16(m)[i])
  {
    assert forall i | 0 <= i < |m| :: '0' <= m[i] <= '9';
    BmpUnits(m);
  }

  lemma {:induction false} NoLetterOrDigit(m: seq<CodeUnit>)
    requires forall i | 0 <= i < |m| :: IsSurrogate(m[i])
    ensures Digits(m) == 0 && Letters(m) == 0
  {
    if m != [] { NoLetterOrDigit(m[..|m| - 1]); }
  }

  /** Units that are all surrogates match no character class and are neither letters nor digits. */
  lemma SurrogatesMatchNothing(u: seq<CodeUnit>)
    requires forall j | 0 <= j < |u| :: IsSurrogate(u[j])
    ensures !HasLetterRun(u) && !HasSpecialRun(u) && !HasSpace(u)
    ensures Digits(u) == 0 && Letters(u) == 0
  {
    assert !HasLetterRun(u) by {
      forall i | 0 <= i < |u| ensures !LetterRunAt(u, i) {
        if i + 10 <= |u| { assert !IsAsciiLetter(u[i]); }
      }
    }
    assert !HasSpecialRun(u) by {
      forall i | 0 <= i < |u| ensures !SpecialRunAt(u, i) {
        if i + 4 <= |u| { assert IsSurrogate(u[i]); }
      }
    }
    NoLetterOrDigit(u);
  }

  /** In the encoding of characters outside the Basic Multilingual Plane no unit follows an equal one. */
  lemma AstralUnitsAlternate(s: string)
    requires forall i | 0 <= i < |s| :: s[i] as int >= 0x1_0000
    ensures forall j | 0 <= j < |Utf16(s)| :: IsSurrogate(Utf16(s)[j])
    ensures forall j | 0 <= j < |Utf16(s)| - 1 :: Utf16(s)[j] != Utf16(s)[j + 1]
  {
    AstralUnits(s);
    var u := Utf16(s);
    forall j | 0 <= j < |u| ensures IsSurrogate(u[j]) {
      if j % 2 == 0 { assert u[2 * (j / 2)] == u[j]; } else { assert u[2 * (j / 2) + 1] == u[j]; }
    }
    forall j | 0 <= j < |u| - 1 ensures u[j] != u[j + 1] {
      if j % 2 == 0 {
        assert u[2 * (j / 2)] == u[j] && u[2 * (j / 2) + 1] == u[j + 1];
      } else {
        assert u[2 * (j / 2) + 1] == u[j] && u[2 * (j / 2 + 1)] == u[j + 1];
      }
    }
  }

  /**
   * A message of one to a hundred characters outside the Basic Multilingual Plane,
   * emoji for example, is always accepted: its surrogates alternate, so no unit
   * repeats, and none of them is a letter, a digit, a special character or white
   * space. Five equal emoji in a row pass the repeat check.
   */
  lemma AstralMessageAccepted(m: string)
    requires 1 <= |m| <= 100
    requires forall i | 0 <= i < |m| :: m[i] as int >= 0x1_0000
    ensures Check(Some(m)).None?
  {
    AstralUnits(m);
    AstralUnitsAlternate(m);
    var u := Utf16(m);
    assert !HasRepeat(u) by {
      forall i | 0 <= i < |u| ensures !RepeatAt(u, i) {
        if i + 1 < |u| { assert u[i] != u[i + 1]; }
      }
    }
    SurrogatesMatchNothing(u);
    assert IsChecked(Some(m)) by {
      assert !IsSpace(m[0]);
    }
    CheckOutcome(Some(m));
  }
}
