/**
 * The slice of JavaScript number semantics the action relies on: `Number(string)`
 * on a sample line, `Math.round`, and the decimal text of an integer shown in a
 * comment. Numbers are exact `real`s; IEEE-754 rounding is not modelled.
 */
module JsNumber {
  import opened Wrappers

  /** The characters `Number()` strips from both ends of its argument
      (ECMAScript WhiteSpace and LineTerminator). */
  predicate IsWhitespace(c: char) {
    c == ' ' || c == '\t' || c == '\n' || c == '\r' || c == '\U{0B}' || c == '\U{0C}'
    || c == '\U{A0}' || c == '\U{FEFF}' || c == '\U{1680}' || ('\U{2000}' <= c <= '\U{200A}')
    || c == '\U{2028}' || c == '\U{2029}' || c == '\U{202F}' || c == '\U{205F}' || c == '\U{3000}'
  }

  /** The number of whitespace characters `s` starts with. */
  function LeadingSpace(s: string): (n: nat)
    ensures n <= |s|
  {
    if s != [] && IsWhitespace(s[0]) then 1 + LeadingSpace(s[1..]) else 0
  }

  /** The number of whitespace characters `s` ends with. */
  function TrailingSpace(s: string): (n: nat)
    ensures n <= |s|
  {
    if s != [] && IsWhitespace(s[|s| - 1]) then 1 + TrailingSpace(s[..|s| - 1]) else 0
  }

  /** `s.trim()`: what lies between the leading and the trailing whitespace. */
  function Trim(s: string): string {
    var lead := LeadingSpace(s);
    var trail := TrailingSpace(s[lead..]);
    s[lead..|s| - trail]
  }

  /** Leading whitespace is whitespace, and the character after it is not. */
  lemma {:induction false} LeadingSpaceIsSpace(s: string)
    ensures forall i :: 0 <= i < LeadingSpace(s) ==> IsWhitespace(s[i])
    ensures LeadingSpace(s) < |s| ==> !IsWhitespace(s[LeadingSpace(s)])
  {
    if s != [] && IsWhitespace(s[0]) {
      LeadingSpaceIsSpace(s[1..]);
    }
  }

  /** Trailing whitespace is whitespace, and the character before it is not. */
  lemma {:induction false} TrailingSpaceIsSpace(s: string)
    ensures forall i :: |s| - TrailingSpace(s) <= i < |s| ==> IsWhitespace(s[i])
    ensures TrailingSpace(s) < |s| ==> !IsWhitespace(s[|s| - 1 - TrailingSpace(s)])
  {
    if s != [] && IsWhitespace(s[|s| - 1]) {
      TrailingSpaceIsSpace(s[..|s| - 1]);
    }
  }

  /** What Trim keeps neither starts nor ends with whitespace, and every
      character it drops is whitespace. */
  lemma TrimmedEnds(s: string)
    ensures Trim(s) == [] || (!IsWhitespace(Trim(s)[0]) && !IsWhitespace(Trim(s)[|Trim(s)| - 1]))
    ensures forall i :: 0 <= i < |s| && !IsWhitespace(s[i]) ==>
              0 <= i - LeadingSpace(s) < |Trim(s)| && Trim(s)[i - LeadingSpace(s)] == s[i]
  {
    var lead := LeadingSpace(s);
    var rest := s[lead..];
    LeadingSpaceIsSpace(s);
    TrailingSpaceIsSpace(rest);
    if rest != [] {
      assert rest[0] == s[lead];
    }
  }

  /** A string with no whitespace at either end is its own trim. */
  lemma TrimNoSpace(s: string)
    requires s != [] && !IsWhitespace(s[0]) && !IsWhitespace(s[|s| - 1])
    ensures Trim(s) == s
  {
  }

  predicate IsDigit(c: char) {
    '0' <= c <= '9'
  }

  predicate AllDigits(s: string) {
    forall i :: 0 <= i < |s| ==> IsDigit(s[i])
  }

  function DigitValue(c: char): (d: nat)
    requires IsDigit(c)
    ensures d < 10
  {
    (c as int) - ('0' as int)
  }

  function DigitChar(d: nat): (c: char)
    requires d < 10
    ensures IsDigit(c) && DigitValue(c) == d
  {
    ('0' as int + d) as char
  }

  /** The value of a string of decimal digits, most significant first. */
  function DigitsValue(s: string): nat
    requires AllDigits(s)
  {
    if s == [] then 0 else DigitsValue(s[..|s| - 1]) * 10 + DigitValue(s[|s| - 1])
  }

  function Pow10(n: nat): (p: nat)
    ensures p >= 1
  {
    if n == 0 then 1 else 10 * Pow10(n - 1)
  }

  /** The value of the digits after a decimal point: "25" is 25 hundredths. */
  function FractionValue(s: string): real
    requires AllDigits(s)
  {
    DigitsValue(s) as real / Pow10(|s|) as real
  }

  /** A character that can occur in a numeral this model accepts. */
  predicate IsNumeralChar(c: char) {
    IsDigit(c) || c == '.' || c == '+' || c == '-' || IsWhitespace(c)
  }

  /** An unsigned decimal: digits, optionally a point and more digits, with at
      least one digit in all ("12", "12.5", "12.", ".5"). */
  function ParseUnsigned(s: string): Option<real> {
    if '.' in s then
      var i := IndexOf(s, '.');
      var whole, frac := s[..i], s[i + 1..];
      if AllDigits(whole) && AllDigits(frac) && |whole| + |frac| > 0 then
        Some(DigitsValue(whole) as real + FractionValue(frac))
      else
        None
    else if s != [] && AllDigits(s) then
      Some(DigitsValue(s) as real)
    else
      None
  }

  function IndexOf(s: string, c: char): (i: nat)
    requires c in s
    ensures i < |s| && s[i] == c && c !in s[..i]
  {
    if s[0] == c then 0 else 1 + IndexOf(s[1..], c)
  }

  /**
   * `Number(s)` for a sample line: surrounding whitespace is ignored, a blank
   * line is 0, a signed decimal numeral is its value, anything else is
   * not-a-number (None).
   */
  function ParseNumber(s: string): Option<real> {
    var t := Trim(s);
    if t == [] then
      Some(0.0)
    else if t[0] == '-' then
      match ParseUnsigned(t[1..])
      case None => None
      case Some(v) => Some(-v)
    else if t[0] == '+' then
      ParseUnsigned(t[1..])
    else
      ParseUnsigned(t)
  }

  /** n digits denote less than 10^n. */
  lemma {:induction false} DigitsBound(s: string)
    requires AllDigits(s)
    ensures DigitsValue(s) < Pow10(|s|)
  {
    if s != [] {
      var init := s[..|s| - 1];
      assert AllDigits(init) by {
        forall i | 0 <= i < |init| ensures IsDigit(init[i]) {
          assert init[i] == s[i];
        }
      }
      DigitsBound(init);
      DigitStep(DigitsValue(init), DigitValue(s[|s| - 1]), Pow10(|init|));
    }
  }

  /** Appending a digit d to a value below p gives a value below 10 * p. */
  lemma DigitStep(v: nat, d: nat, p: nat)
    requires v < p && d < 10
    ensures v * 10 + d < 10 * p
  {
  }

  /** The digits after a point are worth less than one. */
  lemma FractionBound(s: string)
    requires AllDigits(s)
    ensures 0.0 <= FractionValue(s) < 1.0
  {
    DigitsBound(s);
    BelowOne(DigitsValue(s), Pow10(|s|));
  }

  lemma BelowOne(v: nat, p: nat)
    requires v < p
    ensures 0.0 <= v as real / p as real < 1.0
  {
    assert v as real < p as real;
  }

  /** An unsigned numeral is never negative. */
  lemma UnsignedNonNegative(s: string)
    requires ParseUnsigned(s).Some?
    ensures ParseUnsigned(s).value >= 0.0
  {
    if '.' in s {
      FractionBound(s[IndexOf(s, '.') + 1..]);
    }
  }

  /** The sign of the value is the sign written: a numeral read after a
      leading '-' is at most 0, any other at least 0. */
  lemma ParseSign(s: string)
    requires ParseNumber(s).Some? && Trim(s) != []
    ensures Trim(s)[0] == '-' ==> ParseNumber(s).value <= 0.0
    ensures Trim(s)[0] != '-' ==> ParseNumber(s).value >= 0.0
  {
    var t := Trim(s);
    if t[0] == '-' || t[0] == '+' {
      UnsignedNonNegative(t[1..]);
    } else {
      UnsignedNonNegative(t);
    }
  }

  /** A blank or all-whitespace line reads as 0. */
  lemma ParseBlank(s: string)
    requires forall i :: 0 <= i < |s| ==> IsWhitespace(s[i])
    ensures ParseNumber(s) == Some(0.0)
  {
    TrimmedEnds(s);
    if Trim(s) != [] {
      LeadingSpaceIsSpace(s);
    }
  }

  /** A line holding any character that cannot be part of a numeral is not a number. */
  lemma ParseRejects(s: string, i: nat)
    requires i < |s| && !IsNumeralChar(s[i])
    ensures ParseNumber(s).None?
  {
    var t := Trim(s);
    TrimmedEnds(s);
    var j := i - LeadingSpace(s);
    assert t[j] == s[i];
    if t[0] == '-' || t[0] == '+' {
      assert j > 0 && t[1..][j - 1] == s[i];
      UnsignedRejects(t[1..], j - 1);
    } else {
      UnsignedRejects(t, j);
    }
  }

  lemma UnsignedRejects(s: string, i: nat)
    requires i < |s| && !IsDigit(s[i]) && s[i] != '.'
    ensures ParseUnsigned(s).None?
  {
    if '.' in s {
      var k := IndexOf(s, '.');
      if i < k {
        assert s[..k][i] == s[i];
      } else {
        assert s[k + 1..][i - k - 1] == s[i];
      }
    }
  }

  /** The decimal text of a natural number, as JavaScript prints it below 10^21
      (from there on it switches to exponent notation). */
  function NatToString(n: nat): (r: string)
    ensures r != [] && AllDigits(r) && DigitsValue(r) == n
    ensures r[0] == '0' ==> r == "0"
  {
    if n < 10 then
      [DigitChar(n)]
    else
      var r := NatToString(n / 10) + [DigitChar(n % 10)];
      assert r[..|r| - 1] == NatToString(n / 10);
      r
  }

  /** The decimal text of an integer, with a leading '-' when negative. */
  function IntToString(i: int): (r: string)
    ensures i < 0 ==> |r| >= 2 && r[0] == '-' && AllDigits(r[1..]) && DigitsValue(r[1..]) == -i
    ensures i >= 0 ==> r != [] && AllDigits(r) && DigitsValue(r) == i
    ensures i < 0 ==> r[1] != '0'
    ensures i >= 0 ==> (r[0] == '0' ==> r == "0")
  {
    if i < 0 then "-" + NatToString(-i) else NatToString(i)
  }

  /** `Number` reads back what `IntToString` writes. */
  lemma ParseIntToString(i: int)
    ensures ParseNumber(IntToString(i)) == Some(i as real)
  {
    var s := IntToString(i);
    var digits := if i < 0 then NatToString(-i) else NatToString(i);
    assert s[|s| - 1] == digits[|digits| - 1];
    TrimNoSpace(s);
    assert '.' !in digits;
    if i < 0 {
      assert s[1..] == digits;
    }
  }

  /** `Math.round`: the nearest integer, halves rounded up (towards +infinity). */
  function Round(x: real): (r: int)
    ensures r as real - 0.5 <= x < r as real + 0.5
  {
    (x + 0.5).Floor
  }

  /** The bounds in Round's contract determine its result. */
  lemma RoundUnique(x: real, k: int)
    requires k as real - 0.5 <= x < k as real + 0.5
    ensures Round(x) == k
  {
  }

  /** `Number` reads a decimal with a fraction, such as a sample "12.5", as
      its whole part plus its fraction. */
  lemma ParseDecimal(a: nat, f: string)
    requires AllDigits(f)
    ensures ParseNumber(NatToString(a) + "." + f) == Some(a as real + FractionValue(f))
  {
    var w := NatToString(a);
    var t := w + "." + f;
    assert t[0] == w[0];
    assert t[|t| - 1] == if f == [] then '.' else f[|f| - 1];
    TrimNoSpace(t);
    UnsignedDecimal(w, f);
  }

  /** Digits, a point and digits read as the whole part plus the fraction. */
  lemma UnsignedDecimal(w: string, f: string)
    requires AllDigits(w) && AllDigits(f) && w != []
    ensures ParseUnsigned(w + "." + f) == Some(DigitsValue(w) as real + FractionValue(f))
  {
    var t := w + "." + f;
    assert t[|w|] == '.';
    var k := IndexOf(t, '.');
    assert k == |w|;
    assert t[..k] == w && t[k + 1..] == f;
  }

  /** The sample "12.5" reads as 12.5. */
  lemma TwelveAndAHalf()
    ensures ParseNumber("12.5") == Some(12.5)
  {
    ParseDecimal(12, "5");
    assert NatToString(12) + "." + "5" == "12.5";
  }
}
