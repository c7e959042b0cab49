/**
 * The few JavaScript string primitives the core relies on: `String.prototype.trim`,
 * the regular expression class `\s`, `includes`, `startsWith`, the replacement
 * `.replace(/\s+/g, " ")`, and the case maps used against fixed needles.
 */
module Text {

  /** Line terminators of ECMAScript: the characters `.` does not match in a regular expression. */
  predicate IsLineTerminator(c: char) {
    c == '\n' || c == '\r' || c == '\U{2028}' || c == '\U{2029}'
  }

  /** ECMAScript WhiteSpace and LineTerminator: what `trim` strips and what `\s` matches. */
  predicate IsSpace(c: char) {
    || c == '\t' || c == '\U{B}' || c == '\U{C}' || c == ' ' || c == '\U{A0}'
    || c == '\U{1680}' || ('\U{2000}' <= c <= '\U{200A}') || c == '\U{202F}' || c == '\U{205F}'
    || c == '\U{3000}' || c == '\U{FEFF}'
    || IsLineTerminator(c)
  }

  predicate AllSpace(s: string) {
    forall i | 0 <= i < |s| :: IsSpace(s[i])
  }

  /** How many white space characters `s` starts with. */
  function LeadingSpaces(s: string): (n: nat)
    ensures n <= |s|
    ensures forall i | 0 <= i < n :: IsSpace(s[i])
    ensures n < |s| ==> !IsSpace(s[n])
  {
    if s == [] || !IsSpace(s[0]) then 0 else 1 + LeadingSpaces(s[1..])
  }

  /** How many white space characters `s` ends with. */
  function TrailingSpaces(s: string): (n: nat)
    ensures n <= |s|
    ensures forall i | |s| - n <= i < |s| :: IsSpace(s[i])
    ensures n < |s| ==> !IsSpace(s[|s| - 1 - n])
  {
    if s == [] || !IsSpace(s[|s| - 1]) then 0 else 1 + TrailingSpaces(s[..|s| - 1])
  }

  /** `s.trim()`: the infix of `s` left after removing white space at both ends. */
  function Trim(s: string): (r: string)
    ensures |r| <= |s|
    ensures r == [] <==> AllSpace(s)
    ensures r != [] ==> !IsSpace(r[0]) && !IsSpace(r[|r| - 1])
    ensures exists i | 0 <= i <= |s| - |r| :: s[i..i + |r|] == r && AllSpace(s[..i]) && AllSpace(s[i + |r|..])
  {
    var a := LeadingSpaces(s);
    var n := TrailingSpaces(s[a..]);
    TrimSlice(s, a, n);
    s[a..|s| - n]
  }

  /** The contract of `Trim`, for the infix between the white space its ends start with. */
  lemma TrimSlice(s: string, a: nat, n: nat)
    requires a == LeadingSpaces(s) && n == TrailingSpaces(s[a..])
    ensures a + n <= |s|
    ensures var r := s[a..|s| - n];
      && (r == [] <==> AllSpace(s))
      && (r != [] ==> !IsSpace(r[0]) && !IsSpace(r[|r| - 1]))
      && s[a..a + |r|] == r && AllSpace(s[..a]) && AllSpace(s[a + |r|..])
  {
    TrimEnds(s, a, n);
    TrimKept(s, a, n);
    TrimEmpty(s, a, n);
  }

  /** Both ends `Trim` removes are white space. */
  lemma TrimEnds(s: string, a: nat, n: nat)
    requires a == LeadingSpaces(s) && n == TrailingSpaces(s[a..])
    ensures a + n <= |s|
    ensures AllSpace(s[..a]) && AllSpace(s[|s| - n..])
  {
    var t := s[a..];
    assert s[|s| - n..] == t[|t| - n..];
  }

  /** What `Trim` keeps neither starts nor ends with white space. */
  lemma TrimKept(s: string, a: nat, n: nat)
    requires a == LeadingSpaces(s) && n == TrailingSpaces(s[a..])
    ensures a + n < |s| ==> !IsSpace(s[a]) && !IsSpace(s[|s| - n - 1])
  {
    var t := s[a..];
    if a + n < |s| {
      assert s[|s| - n - 1] == t[|t| - 1 - n];
    }
  }

  /** `Trim` keeps nothing exactly when the whole string is white space. */
  lemma TrimEmpty(s: string, a: nat, n: nat)
    requires a == LeadingSpaces(s) && n == TrailingSpaces(s[a..])
    ensures a + n == |s| <==> AllSpace(s)
  {
    if a + n == |s| {
      assert a == |s| && s[..a] == s;
    }
  }

  /** A string that neither starts nor ends with white space is its own trim. */
  lemma TrimUnpadded(s: string)
    requires s != [] && !IsSpace(s[0]) && !IsSpace(s[|s| - 1])
    ensures Trim(s) == s
  {
    assert LeadingSpaces(s) == 0;
    assert s[0..] == s;
    assert TrailingSpaces(s) == 0;
  }

  /** The prefix count is fixed by its defining properties. */
  lemma LeadingSpacesUnique(s: string, n: nat)
    requires n <= |s| && AllSpace(s[..n])
    requires n < |s| ==> !IsSpace(s[n])
    ensures LeadingSpaces(s) == n
  {
  }

  /** `s.replace(/\s+/g, " ")`: every maximal run of white space becomes one space. */
  function CollapseSpaces(s: string): (r: string)
    ensures |r| <= |s|
    ensures forall i | 0 <= i < |r| - 1 :: !(IsSpace(r[i]) && IsSpace(r[i + 1]))
    ensures forall i | 0 <= i < |r| && IsSpace(r[i]) :: r[i] == ' '
    ensures r != [] ==> (IsSpace(r[0]) <==> IsSpace(s[0]))
    ensures r == [] <==> s == []
    decreases |s|
  {
    if s == [] then []
    else if !IsSpace(s[0]) then [s[0]] + CollapseSpaces(s[1..])
    else [' '] + CollapseSpaces(s[LeadingSpaces(s)..])
  }

  /** A nonempty run of white space and nothing else becomes a single space. */
  lemma CollapseRun(s: string)
    requires s != [] && AllSpace(s)
    ensures CollapseSpaces(s) == " "
  {
    assert s[..|s|] == s;
    LeadingSpacesUnique(s, |s|);
  }

  /**
   * A character that is not white space ends every run around it: the replacement
   * works on each side of it separately. With `CollapseRun` and the empty string,
   * this determines the result for every input.
   */
  lemma {:induction false} CollapseSplit(a: string, c: char, b: string)
    requires !IsSpace(c)
    ensures CollapseSpaces(a + [c] + b) == CollapseSpaces(a) + [c] + CollapseSpaces(b)
    decreases |a|
  {
    var s := a + [c] + b;
    if a == [] {
      assert s == [c] + b;
      assert s[1..] == b;
    } else if !IsSpace(a[0]) {
      assert s[0] == a[0] && s[1..] == a[1..] + [c] + b;
      CollapseSplit(a[1..], c, b);
    } else {
      var n := LeadingSpaces(a);
      SpacePrefix(a, c, b);
      assert s[0] == a[0] && s[n..] == a[n..] + [c] + b;
      CollapseSplit(a[n..], c, b);
    }
  }

  /** The white space a string starts with stops at the first character that is not white space. */
  lemma SpacePrefix(a: string, c: char, b: string)
    requires !IsSpace(c)
    ensures LeadingSpaces(a + [c] + b) == LeadingSpaces(a)
  {
    var s := a + [c] + b;
    var n := LeadingSpaces(a);
    assert s[..n] == a[..n];
    if n < |a| {
      assert s[n] == a[n];
    } else {
      assert s[n] == c;
    }
    LeadingSpacesUnique(s, n);
  }

  /** `needle` occurs in `s` at index `i`. */
  predicate OccursAt(s: string, needle: string, i: nat) {
    i + |needle| <= |s| && s[i..i + |needle|] == needle
  }

  /** `s.includes(needle)`. */
  predicate Contains(s: string, needle: string) {
    exists i | 0 <= i <= |s| - |needle| :: OccursAt(s, needle, i)
  }

  /** `s.startsWith(prefix)`. */
  predicate StartsWith(s: string, prefix: string) {
    |prefix| <= |s| && s[..|prefix|] == prefix
  }

  /** The lower case of an ASCII letter; every other character is left as it is. */
  function LowerChar(c: char): (d: char)
    ensures 'A' <= c <= 'Z' ==> d as int == c as int + 32
    ensures !('A' <= c <= 'Z') ==> d == c
  {
    if 'A' <= c <= 'Z' then (c as int + 32) as char else c
  }

  /**
   * `toLowerCase` of one character, as far as an ASCII needle can tell: the two
   * characters outside ASCII whose lower case holds an ASCII letter are the capital
   * I with dot above (i followed by a combining dot) and the Kelvin sign (k).
   */
  function LowerOf(c: char): (r: string)
    ensures 1 <= |r| <= 2
  {
    if c == '\U{130}' then ['i', '\U{307}']
    else if c == '\U{212A}' then ['k']
    else [LowerChar(c)]
  }

  /** `s.toLowerCase()`, characters mapped one by one. */
  function Lower(s: string): (r: string)
    ensures |s| <= |r| <= 2 * |s|
  {
    if s == [] then [] else LowerOf(s[0]) + Lower(s[1..])
  }

  /**
   * The upper case of a character: ASCII letters, the dotless i, and the Vietnamese
   * letters that occur in the brand needles (a with grave, a with circumflex,
   * a with hook above, e with circumflex and acute, i with acute).
   */
  function UpperChar(c: char): char {
    if 'a' <= c <= 'z' then (c as int - 32) as char
    else if c == '\U{E0}' then '\U{C0}'
    else if c == '\U{E2}' then '\U{C2}'
    else if c == '\U{ED}' then '\U{CD}'
    else if c == '\U{1EA3}' then '\U{1EA2}'
    else if c == '\U{1EBF}' then '\U{1EBE}'
    else if c == '\U{131}' then 'I'
    else c
  }

  function Upper(s: string): (r: string)
    ensures |r| == |s|
    ensures forall i | 0 <= i < |s| :: r[i] == UpperChar(s[i])
  {
    seq(|s|, i requires 0 <= i < |s| => UpperChar(s[i]))
  }

  /** Lower-casing works character by character, so it distributes over concatenation. */
  lemma {:induction false} LowerConcat(a: string, b: string)
    ensures Lower(a + b) == Lower(a) + Lower(b)
    decreases |a|
  {
    if a == [] {
      assert a + b == b;
    } else {
      var ab := a + b;
      assert ab[0] == a[0] && ab[1..] == a[1..] + b;
      LowerConcat(a[1..], b);
      var h := LowerOf(a[0]);
      assert Lower(ab) == h + Lower(a[1..] + b);
      assert Lower(a) == h + Lower(a[1..]);
      assert h + (Lower(a[1..]) + Lower(b)) == (h + Lower(a[1..])) + Lower(b);
    }
  }

  /** A needle found in `s` is found, lower-cased, in the lower case of `s`. */
  lemma ContainsLowered(s: string, needle: string)
    requires Contains(s, needle)
    ensures Contains(Lower(s), Lower(needle))
  {
    var i :| 0 <= i <= |s| - |needle| && OccursAt(s, needle, i);
    var pre, post := s[..i], s[i + |needle|..];
    assert s == pre + needle + post;
    LowerConcat(pre + needle, post);
    LowerConcat(pre, needle);
    assert Lower(s) == Lower(pre) + Lower(needle) + Lower(post);
    assert OccursAt(Lower(s), Lower(needle), |Lower(pre)|);
  }

  /** Lower-casing twice is lower-casing once. */
  lemma {:induction false} LowerIdempotent(s: string)
    ensures Lower(Lower(s)) == Lower(s)
    decreases |s|
  {
    if s != [] {
      LowerIdempotent(s[1..]);
      var h := LowerOf(s[0]);
      LowerConcat(h, Lower(s[1..]));
      if |h| == 2 {
        assert Lower(h) == LowerOf(h[0]) + Lower(h[1..]);
        assert Lower(h[1..]) == LowerOf(h[1]) + Lower([]);
      } else {
        assert Lower(h) == LowerOf(h[0]) + Lower(h[1..]);
      }
    }
  }
}
