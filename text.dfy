/**
 * String helpers shared by the Java services, the TypeScript front end and the Python script.
 * Each language has its own idea of "whitespace", so trimming is parameterised by a
 * character class and the classes of the three runtimes are spelled out.
 */
module Text {

  /** Java `String.trim()` removes every code point up to U+0020. */
  predicate JavaTrimmable(c: char) {
    c <= ' '
  }

  /** Java `Character.isWhitespace`, the test behind `String.isBlank()`. */
  predicate JavaWhitespace(c: char) {
    c == ' ' || '\t' <= c <= '\r' || '\U{1C}' <= c <= '\U{1F}'
    || c == '\U{1680}' || '\U{2000}' <= c <= '\U{2006}' || '\U{2008}' <= c <= '\U{200A}'
    || c == '\U{2028}' || c == '\U{2029}' || c == '\U{205F}' || c == '\U{3000}'
  }

  /** JavaScript `String.prototype.trim` and the regular-expression class `\s`. */
  predicate JsWhitespace(c: char) {
    '\t' <= c <= '\r' || c == ' ' || c == '\U{A0}' || c == '\U{1680}'
    || '\U{2000}' <= c <= '\U{200A}' || c == '\U{2028}' || c == '\U{2029}'
    || c == '\U{202F}' || c == '\U{205F}' || c == '\U{3000}' || c == '\U{FEFF}'
  }

  /** Python `str.isspace`, the class `str.strip()` removes. */
  predicate PyWhitespace(c: char) {
    '\t' <= c <= '\r' || '\U{1C}' <= c <= '\U{1F}' || c == ' ' || c == '\U{85}' || c == '\U{A0}'
    || c == '\U{1680}' || '\U{2000}' <= c <= '\U{200A}' || c == '\U{2028}' || c == '\U{2029}'
    || c == '\U{202F}' || c == '\U{205F}' || c == '\U{3000}'
  }

  /** Every character of `s` belongs to the class `ws` (true of the empty string). */
  predicate AllIn(s: string, ws: char -> bool) {
    forall i :: 0 <= i < |s| ==> ws(s[i])
  }

  /** Java `String.isBlank()`. */
  predicate JavaIsBlank(s: string) {
    AllIn(s, JavaWhitespace)
  }

  /** The number of leading characters of class `ws`. */
  function LeadingCount(s: string, ws: char -> bool): (k: nat)
    ensures k <= |s| && (k == |s| || !ws(s[k]))
    ensures forall i :: 0 <= i < k ==> ws(s[i])
  {
    if s == [] || !ws(s[0]) then 0
    else
      var k := LeadingCount(s[1..], ws);
      assert forall i :: 1 <= i < k + 1 ==> s[i] == s[1..][i - 1];
      k + 1
  }

  /** The index where the trailing run of characters of class `ws` starts. */
  function TrailingStart(s: string, ws: char -> bool): (k: nat)
    ensures k <= |s| && (k == 0 || !ws(s[k - 1]))
    ensures forall i :: k <= i < |s| ==> ws(s[i])
  {
    if s == [] || !ws(s[|s| - 1]) then |s|
    else TrailingStart(s[..|s| - 1], ws)
  }

  /** Drops leading and trailing characters of class `ws`: what is left is the piece of `s`
      between a leading and a trailing run of the class, and neither of its ends is in it. */
  function Trim(s: string, ws: char -> bool): (r: string)
    ensures var a := LeadingCount(s, ws);
            a + |r| <= |s| && r == s[a..a + |r|] && AllIn(s[..a], ws) && AllIn(s[a + |r|..], ws)
    ensures r == [] || (!ws(r[0]) && !ws(r[|r| - 1]))
  {
    var a, b := LeadingCount(s, ws), TrailingStart(s, ws);
    if b <= a then []
    else s[a..b]
  }

  /** Trimming leaves nothing exactly when every character is of the trimmed class. */
  lemma TrimEmptyIff(s: string, ws: char -> bool)
    ensures Trim(s, ws) == [] <==> AllIn(s, ws)
  {
    var a := LeadingCount(s, ws);
    if a < |s| {
      assert !ws(s[a]);
      assert TrailingStart(s, ws) > a;
    }
  }

  /** Trimming twice is trimming once. */
  lemma TrimIdempotent(s: string, ws: char -> bool)
    ensures Trim(Trim(s, ws), ws) == Trim(s, ws)
  {
    TrimOfTrimmed(Trim(s, ws), ws);
  }

  /** A string whose ends are outside the class is its own trim. */
  lemma TrimOfTrimmed(s: string, ws: char -> bool)
    requires s == [] || (!ws(s[0]) && !ws(s[|s| - 1]))
    ensures Trim(s, ws) == s
  {
    assert LeadingCount(s, ws) == 0;
    assert TrailingStart(s, ws) == |s|;
    assert s[0..|s|] == s;
  }

  /** Java `String.trim()`. */
  function JavaTrim(s: string): string {
    Trim(s, JavaTrimmable)
  }

  /** The characters `trim()` keeps at the ends are not Java whitespace either when they are
      at most U+0020; any non-blank trimmed string therefore comes from a non-blank input. */
  lemma JavaTrimNonBlank(s: string)
    requires !JavaIsBlank(JavaTrim(s))
    ensures !JavaIsBlank(s)
  {
    var r := JavaTrim(s);
    var a := LeadingCount(s, JavaTrimmable);
    var i :| 0 <= i < |r| && !JavaWhitespace(r[i]);
    assert r[i] == s[a + i];
  }

  /** JavaScript `String.prototype.trim()`. */
  function JsTrim(s: string): string {
    Trim(s, JsWhitespace)
  }

  /** Python `str.strip()`. */
  function PyStrip(s: string): string {
    Trim(s, PyWhitespace)
  }

  // ---------------------------------------------------------------------------------------
  // Case mapping (ASCII letters only)

  function UpperChar(c: char): char {
    if 'a' <= c <= 'z' then (c as int - 32) as char else c
  }

  function LowerChar(c: char): char {
    if 'A' <= c <= 'Z' then (c as int + 32) as char else c
  }

  /** `toUpperCase()` restricted to ASCII letters. */
  function ToUpper(s: string): (r: string)
    ensures |r| == |s| && forall i :: 0 <= i < |s| ==> r[i] == UpperChar(s[i])
  {
    if s == [] then [] else [UpperChar(s[0])] + ToUpper(s[1..])
  }

  /** `toLowerCase()` restricted to ASCII letters. */
  function ToLower(s: string): (r: string)
    ensures |r| == |s| && forall i :: 0 <= i < |s| ==> r[i] == LowerChar(s[i])
  {
    if s == [] then [] else [LowerChar(s[0])] + ToLower(s[1..])
  }

  /** Two strings are equal up to the case of ASCII letters (Java's `equalsIgnoreCase`). */
  predicate EqualsIgnoreCase(a: string, b: string) {
    |a| == |b| && forall i :: 0 <= i < |a| ==> LowerChar(a[i]) == LowerChar(b[i])
  }

  /** A string in which no ASCII upper-case letter occurs. */
  predicate IsLowerCase(p: string) {
    forall i :: 0 <= i < |p| ==> !('A' <= p[i] <= 'Z')
  }

  /** A string in which no ASCII lower-case letter occurs. */
  predicate IsUpperCase(p: string) {
    forall i :: 0 <= i < |p| ==> !('a' <= p[i] <= 'z')
  }

  /** Upper-casing and comparing with an upper-case constant is a case-insensitive comparison. */
  lemma UpperEqualsIff(s: string, p: string)
    requires IsUpperCase(p)
    ensures ToUpper(s) == p <==> EqualsIgnoreCase(s, p)
  {
    if EqualsIgnoreCase(s, p) {
      forall i | 0 <= i < |s| ensures ToUpper(s)[i] == p[i] {
        assert LowerChar(s[i]) == LowerChar(p[i]);
      }
    }
  }

  /** Lower-casing and comparing with a lower-case constant is a case-insensitive comparison. */
  lemma LowerEqualsIff(s: string, p: string)
    requires IsLowerCase(p)
    ensures ToLower(s) == p <==> EqualsIgnoreCase(s, p)
  {
    if EqualsIgnoreCase(s, p) {
      forall i | 0 <= i < |s| ensures ToLower(s)[i] == p[i] {
        assert LowerChar(s[i]) == LowerChar(p[i]);
      }
    }
  }

  /** Upper-casing changes only the case of letters, and leaves no lower-case letter. */
  lemma ToUpperCaseless(s: string)
    ensures IsUpperCase(ToUpper(s)) && EqualsIgnoreCase(ToUpper(s), s)
  {
  }

  // ---------------------------------------------------------------------------------------
  // Substrings

  /** `s.contains(p)` / `s.includes(p)`. */
  predicate Contains(s: string, p: string) {
    p <= s || (s != [] && Contains(s[1..], p))
  }

  /** `s` starts with `p` up to ASCII case (Java `regionMatches(true, 0, p, 0, |p|)`). */
  predicate StartsWithIgnoreCase(s: string, p: string) {
    |p| <= |s| && EqualsIgnoreCase(s[..|p|], p)
  }

  /** Some window of `s` equals `p` up to ASCII case. */
  predicate ContainsIgnoreCase(s: string, p: string) {
    StartsWithIgnoreCase(s, p) || (s != [] && ContainsIgnoreCase(s[1..], p))
  }

  /** Lower-casing a text and searching it for a lower-case phrase is a case-insensitive search. */
  lemma {:induction false} LowerContainsIff(s: string, p: string)
    requires IsLowerCase(p)
    ensures Contains(ToLower(s), p) <==> ContainsIgnoreCase(s, p)
  {
    var l := ToLower(s);
    assert p <= l <==> StartsWithIgnoreCase(s, p) by {
      if p <= l {
        forall i | 0 <= i < |p| ensures LowerChar(s[..|p|][i]) == LowerChar(p[i]) {
          assert l[i] == p[i];
        }
      }
      if StartsWithIgnoreCase(s, p) {
        forall i | 0 <= i < |p| ensures l[i] == p[i] {
          assert LowerChar(s[..|p|][i]) == LowerChar(p[i]);
        }
      }
    }
    if s != [] {
      assert ToLower(s)[1..] == ToLower(s[1..]);
      LowerContainsIff(s[1..], p);
    }
  }

  /** `s` contains no occurrence of the character `c`. */
  predicate Lacks(s: string, c: char) {
    forall i :: 0 <= i < |s| ==> s[i] != c
  }

  // ---------------------------------------------------------------------------------------
  // Numbers as text

  function DigitChar(d: nat): char
    requires d < 10
  {
    "0123456789"[d]
  }

  /** Decimal rendering of a natural number (Java `String.valueOf(int)` for non-negative values). */
  function NatToString(n: nat): (r: string)
    ensures |r| >= 1
  {
    if n < 10 then [DigitChar(n)] else NatToString(n / 10) + [DigitChar(n % 10)]
  }

  /** Decimal rendering of an integer with a leading minus sign for negative values. */
  function IntToString(n: int): string {
    if n < 0 then "-" + NatToString(-n) else NatToString(n)
  }
}
