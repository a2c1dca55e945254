/**
 * Decimal numerals: the exact value JavaScript's `Number(lexeme)` denotes for a NUMBER lexeme
 * (calc.js, lines 64 and 206), and `String(n)` for the non-negative integers that `split`
 * labels its buckets with (calc.js, line 307; split.js, line 12).  Values are exact: the
 * rounding of IEEE doubles is not modelled.
 */
module Numerals {
  import opened Base
  import opened Scanners

  predicate AllDigits(s: string)
  {
    forall k :: 0 <= k < |s| ==> IsDigit(s[k])
  }

  /** A decimal integer without leading zeros, the form `String(n)` gives a non-negative integer. */
  predicate IsCanonical(s: string)
  {
    |s| >= 1 && AllDigits(s) && (|s| > 1 ==> s[0] != '0')
  }

  function DigitValue(c: char): (d: nat)
    requires IsDigit(c)
    ensures d < 10
  {
    c as int - '0' as int
  }

  function DigitChar(d: nat): (c: char)
    requires d < 10
    ensures IsDigit(c) && DigitValue(c) == d
  {
    ('0' as int + d) as char
  }

  /** The value of a string of decimal digits, most significant first. */
  function DigitsValue(s: string): nat
    requires AllDigits(s)
  {
    if s == [] then 0 else 10 * DigitsValue(s[..|s| - 1]) + DigitValue(s[|s| - 1])
  }

  function Pow10(k: nat): (p: nat)
    ensures p >= 1
  {
    if k == 0 then 1 else 10 * Pow10(k - 1)
  }

  /** `String(n)` for a non-negative integer `n`. */
  function NatToString(n: nat): (s: string)
    ensures IsCanonical(s)
  {
    if n < 10 then [DigitChar(n)]
    else
      var s := NatToString(n / 10) + [DigitChar(n % 10)];
      assert s[0] == NatToString(n / 10)[0];
      s
  }

  /** Reading back what `String(n)` wrote gives `n`. */
  lemma {:induction false} NatToStringValue(n: nat)
    ensures DigitsValue(NatToString(n)) == n
  {
    if n >= 10 {
      var s := NatToString(n);
      assert s[..|s| - 1] == NatToString(n / 10);
      NatToStringValue(n / 10);
    }
  }

  /** A canonical numeral is what `String` writes for its value. */
  lemma {:induction false} CanonicalIsNatToString(s: string)
    requires IsCanonical(s)
    ensures NatToString(DigitsValue(s)) == s
  {
    if |s| > 1 {
      var init := s[..|s| - 1];
      assert init[0] == s[0];
      CanonicalIsNatToString(init);
      var v := DigitsValue(s);
      assert v / 10 == DigitsValue(init) && v % 10 == DigitValue(s[|s| - 1]);
      assert DigitsValue(init) > 0 by {
        assert DigitValue(init[0]) > 0;
        LeadingDigitPositive(init);
      }
      assert s == init + [s[|s| - 1]];
    }
  }

  lemma {:induction false} LeadingDigitPositive(s: string)
    requires AllDigits(s) && |s| >= 1 && DigitValue(s[0]) > 0
    ensures DigitsValue(s) > 0
  {
    if |s| > 1 {
      var init := s[..|s| - 1];
      assert init[0] == s[0];
      LeadingDigitPositive(init);
    }
  }

  /** Whole-string NUMBER lexeme: the pattern of calc.js, line 64, matches all of `s`. */
  predicate IsNumberLexeme(s: string)
  {
    |s| > 0 && NumberMatch(s) == |s|
  }

  /** The digits `h[a..b]` of a run as a number. */
  function RunValue(h: string, a: nat, b: nat): nat
    requires DigitRun(h, a, b)
  {
    var d := h[a..b];
    assert forall k :: 0 <= k < |d| ==> d[k] == h[a + k];
    DigitsValue(d)
  }

  /**
   * `Number(lexeme)`: a leading minus, the integer part, the fraction digits over a power of ten
   * and a signed power-of-ten exponent.  Any other string is not a number (`NaN` in JavaScript).
   */
  function LiteralValue(s: string): (r: Result<real>)
    ensures r.Ok? <==> IsNumberLexeme(s)
    ensures r.Err? ==> r.error == NotANumber(s)
  {
    if !IsNumberLexeme(s) then Err(NotANumber(s))
    else
      var p := SignEnd(s);
      var q := IntPartEnd(s, p);
      var f := FracEnd(s, q);
      var whole := RunValue(s, p, q) as real;
      var frac := if f > q then RunValue(s, q + 1, f) as real / Pow10(f - q - 1) as real else 0.0;
      var magnitude := Scale(whole + frac, s, f);
      Ok(if p == 1 then -magnitude else magnitude)
  }

  /** The exponent part `e±digits` that starts at `f`, applied to `m`. */
  function Scale(m: real, s: string, f: nat): real
    requires f <= |s|
  {
    var e := ExpEnd(s, f);
    if e == f then m
    else if s[f + 1] == '-' then m / Pow10(RunValue(s, f + 2, e)) as real
    else m * Pow10(RunValue(s, f + 2, e)) as real
  }

  /** `String(n)` is a NUMBER lexeme with no sign, fraction or exponent. */
  lemma CanonicalIsNumber(s: string)
    requires IsCanonical(s)
    ensures IsNumberLexeme(s)
    ensures SignEnd(s) == 0 && IntPartEnd(s, 0) == |s|
    ensures FracEnd(s, |s|) == |s| && ExpEnd(s, |s|) == |s|
  {
    assert s[0] != '-';
    if s[0] != '0' {
      var q := RunEnd(s, 1, IsDigit);
      assert q == |s|;
    }
  }

  /** `Number(String(n)) == n`: the value of a canonical numeral is the natural it spells. */
  lemma CanonicalValue(s: string)
    requires IsCanonical(s)
    ensures LiteralValue(s) == Ok(DigitsValue(s) as real)
  {
    CanonicalIsNumber(s);
    assert s[0..|s|] == s;
  }

  lemma NatToStringRoundTrip(n: nat)
    ensures LiteralValue(NatToString(n)) == Ok(n as real)
  {
    CanonicalValue(NatToString(n));
    NatToStringValue(n);
  }

  /** A lexeme without a leading minus, as the tokenizer produces, never denotes a negative value. */
  lemma {:induction false} UnsignedLiteralIsNonNegative(s: string)
    requires IsNumberLexeme(s) && s[0] != '-'
    ensures LiteralValue(s).value >= 0.0
  {
    var q := IntPartEnd(s, 0);
    var f := FracEnd(s, q);
    var whole := RunValue(s, 0, q) as real;
    var frac := if f > q then RunValue(s, q + 1, f) as real / Pow10(f - q - 1) as real else 0.0;
    assert frac >= 0.0;
    ScaleNonNegative(whole + frac, s, f);
  }

  lemma ScaleNonNegative(m: real, s: string, f: nat)
    requires f <= |s| && m >= 0.0
    ensures Scale(m, s, f) >= 0.0
  {
  }

  /** A fraction: `0.05` is five hundredths. */
  lemma FractionExample()
    ensures LiteralValue("0.05") == Ok(0.05)
  {
    var s := "0.05";
    assert IntPartEnd(s, 0) == 1;
    assert RunEnd(s, 3, IsDigit) == 4;
    assert FracEnd(s, 1) == 4;
    assert ExpEnd(s, 4) == 4;
    assert s[0..1] == "0" && s[2..4] == "05";
    assert DigitsValue("05") == 5;
  }

  /** An exponent: `25E-2` is a quarter; the sign after `E` is part of the pattern. */
  lemma ExponentExample()
    ensures LiteralValue("25E-2") == Ok(0.25)
    ensures !IsNumberLexeme("25E2")
  {
    var s := "25E-2";
    assert RunEnd(s, 1, IsDigit) == 2;
    assert IntPartEnd(s, 0) == 2;
    assert FracEnd(s, 2) == 2;
    assert RunEnd(s, 5, IsDigit) == 5;
    assert ExpEnd(s, 2) == 5;
    assert s[0..2] == "25" && s[4..5] == "2";
    assert DigitsValue("25") == 25;
    assert DigitsValue("2") == 2;
    var t := "25E2";
    assert RunEnd(t, 1, IsDigit) == 2;
    assert ExpEnd(t, 2) == 2;
  }
}
