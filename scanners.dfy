/**
 * The three anchored patterns of the tokenizer (calc.js, lines 63-67), as scanners that
 * return the length of the match at the start of the text (0 when there is none):
 *   NUMBER     -?(0|([1-9]\d*))(\.\d+)?((e|E)(\+|\-)\d+)?
 *   REFERENCE  \$(\w+)
 *   UNIT       [a-z]+\d?
 * Every quantifier in them is greedy and every later part is optional, so the first match
 * the regex engine finds is the one these scanners build piece by piece.
 */
module Scanners {

  predicate IsDigit(c: char) { '0' <= c <= '9' }
  predicate IsNonzeroDigit(c: char) { '1' <= c <= '9' }
  predicate IsLower(c: char) { 'a' <= c <= 'z' }
  /** `\w`: ASCII letters, digits and underscore. */
  predicate IsWordChar(c: char) { IsDigit(c) || IsLower(c) || ('A' <= c <= 'Z') || c == '_' }
  /** A character that no pattern can take as the continuation of a match. */
  predicate IsBoundary(c: char) { !IsWordChar(c) && c != '.' }

  /** Positions `a` up to (not including) `b` of `h` hold decimal digits. */
  predicate DigitRun(h: string, a: nat, b: nat)
  {
    a <= b <= |h| && forall k :: a <= k < b ==> IsDigit(h[k])
  }

  /** End of the longest run of characters satisfying `f` from position `p`. */
  function RunEnd(h: string, p: nat, f: char -> bool): (q: nat)
    requires p <= |h|
    ensures p <= q <= |h|
    ensures forall k :: p <= k < q ==> f(h[k])
    ensures q == |h| || !f(h[q])
    decreases |h| - p
  {
    if p < |h| && f(h[p]) then RunEnd(h, p + 1, f) else p
  }

  /** `0|([1-9]\d*)` at `p`; `p` itself when it does not match. */
  function IntPartEnd(h: string, p: nat): (q: nat)
    requires p <= |h|
    ensures p <= q <= |h|
    ensures q > p ==> IsDigit(h[p]) && IsDigit(h[q - 1])
    ensures q > p + 1 ==> h[p] != '0'
    ensures DigitRun(h, p, q)
  {
    if p < |h| && h[p] == '0' then p + 1
    else if p < |h| && IsNonzeroDigit(h[p]) then RunEnd(h, p + 1, IsDigit)
    else p
  }

  /** `(\.\d+)?` at `p`. */
  function FracEnd(h: string, p: nat): (q: nat)
    requires p <= |h|
    ensures p <= q <= |h|
    ensures q > p ==> q >= p + 2 && h[p] == '.' && IsDigit(h[q - 1])
    ensures q > p ==> DigitRun(h, p + 1, q)
  {
    if p + 1 < |h| && h[p] == '.' && IsDigit(h[p + 1]) then RunEnd(h, p + 2, IsDigit) else p
  }

  predicate IsExponentMark(c: char) { c == 'e' || c == 'E' }
  predicate IsSign(c: char) { c == '+' || c == '-' }

  /** `((e|E)(\+|\-)\d+)?` at `p`: the sign of the exponent is not optional. */
  function ExpEnd(h: string, p: nat): (q: nat)
    requires p <= |h|
    ensures p <= q <= |h|
    ensures q > p ==> q >= p + 3 && IsExponentMark(h[p]) && IsSign(h[p + 1]) && IsDigit(h[q - 1])
    ensures q > p ==> DigitRun(h, p + 2, q)
  {
    if p + 2 < |h| && IsExponentMark(h[p]) && IsSign(h[p + 1]) && IsDigit(h[p + 2])
    then RunEnd(h, p + 3, IsDigit)
    else p
  }

  /** Where the integer part starts: after an optional leading minus. */
  function SignEnd(h: string): nat
  {
    if 0 < |h| && h[0] == '-' then 1 else 0
  }

  /** Length of the NUMBER match at the start of `h`. */
  function NumberMatch(h: string): (n: nat)
    ensures n <= |h|
    ensures n > 0 ==> (h[0] == '-' || IsDigit(h[0])) && IsDigit(h[n - 1])
  {
    var p := SignEnd(h);
    var q := IntPartEnd(h, p);
    if q == p then 0 else ExpEnd(h, FracEnd(h, q))
  }

  /** Length of the REFERENCE match at the start of `h`. */
  function ReferenceMatch(h: string): (n: nat)
    ensures n <= |h|
    ensures n > 0 ==> n >= 2 && h[0] == '$' && forall k :: 1 <= k < n ==> IsWordChar(h[k])
    ensures n > 0 ==> n == |h| || !IsWordChar(h[n])
  {
    if 2 <= |h| && h[0] == '$' && IsWordChar(h[1]) then RunEnd(h, 2, IsWordChar) else 0
  }

  /** Length of the UNIT match at the start of `h`. */
  function UnitMatch(h: string): (n: nat)
    ensures n <= |h|
    ensures n > 0 ==> IsLower(h[0]) && forall k :: 0 <= k < n - 1 ==> IsLower(h[k])
    ensures n > 0 ==> IsLower(h[n - 1]) || IsDigit(h[n - 1])
  {
    if 0 < |h| && IsLower(h[0]) then
      var q := RunEnd(h, 1, IsLower);
      if q < |h| && IsDigit(h[q]) then q + 1 else q
    else 0
  }

  /*
   * The three patterns as shapes of the prefix `h[..m]`, stated part by part and independently
   * of the scanners: a scanner's result is the longest prefix of that shape, and 0 when there
   * is none.
   */

  /** `0|([1-9]\d*)` is exactly `h[a..b]`. */
  predicate IntPartAt(h: string, a: nat, b: nat)
  {
    a < b <= |h| && ((b == a + 1 && h[a] == '0') || (IsNonzeroDigit(h[a]) && DigitRun(h, a + 1, b)))
  }

  /** `(\.\d+)?` is exactly `h[a..b]`. */
  predicate FracPartAt(h: string, a: nat, b: nat)
  {
    a == b || (a + 2 <= b <= |h| && h[a] == '.' && DigitRun(h, a + 1, b))
  }

  /** `((e|E)(\+|\-)\d+)?` is exactly `h[a..b]`. */
  predicate ExpPartAt(h: string, a: nat, b: nat)
  {
    a == b || (a + 3 <= b <= |h| && IsExponentMark(h[a]) && IsSign(h[a + 1]) && DigitRun(h, a + 2, b))
  }

  /** `h[..m]` is a NUMBER split at `i` (after the sign), `j` (after the integer part) and `k` (before the exponent). */
  predicate NumberSplit(h: string, m: nat, i: nat, j: nat, k: nat)
  {
    i <= j <= k <= m <= |h| && (i == 0 || (i == 1 && h[0] == '-'))
    && IntPartAt(h, i, j) && FracPartAt(h, j, k) && ExpPartAt(h, k, m)
  }

  /** `h[..m]` matches the NUMBER pattern in full. */
  ghost predicate IsNumberPrefix(h: string, m: nat)
  {
    exists i: nat, j: nat, k: nat :: NumberSplit(h, m, i, j, k)
  }

  /** `h[..m]` matches the REFERENCE pattern in full. */
  predicate IsReferencePrefix(h: string, m: nat)
  {
    2 <= m <= |h| && h[0] == '$' && forall k :: 1 <= k < m ==> IsWordChar(h[k])
  }

  /** `h[..m]` matches the UNIT pattern in full. */
  predicate IsUnitPrefix(h: string, m: nat)
  {
    1 <= m <= |h| && IsLower(h[0]) && (forall k :: 0 <= k < m - 1 ==> IsLower(h[k]))
    && (IsLower(h[m - 1]) || IsDigit(h[m - 1]))
  }

  /** The NUMBER scanner returns the longest prefix of the pattern's shape, or 0 when there is none. */
  lemma NumberMatchIsLongest(h: string)
    ensures NumberMatch(h) > 0 ==> IsNumberPrefix(h, NumberMatch(h))
    ensures forall m: nat :: IsNumberPrefix(h, m) ==> m <= NumberMatch(h)
  {
    var n := NumberMatch(h);
    var p := SignEnd(h);
    var q := IntPartEnd(h, p);
    if n > 0 {
      var f := FracEnd(h, q);
      assert NumberSplit(h, n, p, q, f);
    }
    forall m: nat | IsNumberPrefix(h, m) ensures m <= n {
      var i: nat, j: nat, k: nat :| NumberSplit(h, m, i, j, k);
      NumberSplitBounded(h, m, i, j, k);
    }
  }

  /**
   * One split of a NUMBER prefix, against the scanner's parts: each part of the split ends
   * where the scanner's does, unless the prefix itself ends inside that part.
   */
  lemma NumberSplitBounded(h: string, m: nat, i: nat, j: nat, k: nat)
    requires NumberSplit(h, m, i, j, k)
    ensures m <= NumberMatch(h)
  {
    var p := SignEnd(h);
    assert i == p;
    var q := IntPartEnd(h, p);
    var f := FracEnd(h, q);
    assert q > p;
    if h[p] != '0' {
      var r := RunEnd(h, p + 1, IsDigit);
      if j > r {
        assert IsDigit(h[r]);
      }
    }
    assert j <= q;
    if j < q {
      // `h[j]` is a digit, which neither a fraction nor an exponent can start with.
      assert IsDigit(h[j]);
      assert j == m;
    } else if k > j {
      var r := RunEnd(h, q + 2, IsDigit);
      if k < r {
        assert IsDigit(h[k]);
        assert k == m;
      }
    } else if f > q {
      assert h[q] == '.';
      assert q == m;
    }
  }

  /** The REFERENCE scanner returns the longest prefix of the pattern's shape, or 0 when there is none. */
  lemma ReferenceMatchIsLongest(h: string)
    ensures ReferenceMatch(h) > 0 ==> IsReferencePrefix(h, ReferenceMatch(h))
    ensures forall m: nat :: IsReferencePrefix(h, m) ==> m <= ReferenceMatch(h)
  {
    forall m: nat | IsReferencePrefix(h, m) ensures m <= ReferenceMatch(h) {
      var r := RunEnd(h, 2, IsWordChar);
      if m > r {
        assert IsWordChar(h[r]);
      }
    }
  }

  /** The UNIT scanner returns the longest prefix of the pattern's shape, or 0 when there is none. */
  lemma UnitMatchIsLongest(h: string)
    ensures UnitMatch(h) > 0 ==> IsUnitPrefix(h, UnitMatch(h))
    ensures forall m: nat :: IsUnitPrefix(h, m) ==> m <= UnitMatch(h)
  {
  }

  /** `h` and `t` have the same first `m` characters. */
  predicate Agree(h: string, t: string, m: nat)
  {
    m <= |h| && m <= |t| && forall k :: 0 <= k < m ==> h[k] == t[k]
  }

  /** `t` ends at `m` or continues with a boundary character there. */
  predicate StopsAt(t: string, m: nat)
  {
    m <= |t| && (m == |t| || IsBoundary(t[m]))
  }

  /** A run depends only on the text it covers and the character just after it. */
  lemma {:induction false} RunStable(h: string, t: string, p: nat, f: char -> bool)
    requires p <= |h|
    requires Agree(h, t, RunEnd(h, p, f))
    requires RunEnd(h, p, f) == |t| || !f(t[RunEnd(h, p, f)])
    ensures RunEnd(t, p, f) == RunEnd(h, p, f)
    decreases |h| - p
  {
    if p < |h| && f(h[p]) {
      RunStable(h, t, p + 1, f);
    }
  }

  lemma IntPartStable(h: string, t: string, p: nat)
    requires p <= |h| && IntPartEnd(h, p) > p
    requires Agree(h, t, IntPartEnd(h, p))
    requires IntPartEnd(h, p) == |t| || !IsDigit(t[IntPartEnd(h, p)])
    ensures IntPartEnd(t, p) == IntPartEnd(h, p)
  {
    if h[p] != '0' {
      RunStable(h, t, p + 1, IsDigit);
    }
  }

  lemma FracStable(h: string, t: string, q: nat)
    requires q <= |h|
    requires Agree(h, t, FracEnd(h, q))
    requires FracEnd(h, q) == |t| || !IsDigit(t[FracEnd(h, q)])
    requires FracEnd(h, q) == q ==> q == |t| || t[q] != '.'
    ensures FracEnd(t, q) == FracEnd(h, q)
  {
    if FracEnd(h, q) > q {
      RunStable(h, t, q + 2, IsDigit);
    }
  }

  lemma ExpStable(h: string, t: string, f: nat)
    requires f <= |h|
    requires Agree(h, t, ExpEnd(h, f))
    requires ExpEnd(h, f) == |t| || !IsDigit(t[ExpEnd(h, f)])
    requires ExpEnd(h, f) == f ==> f == |t| || !IsExponentMark(t[f])
    ensures ExpEnd(t, f) == ExpEnd(h, f)
  {
    if ExpEnd(h, f) > f {
      RunStable(h, t, f + 3, IsDigit);
    }
  }

  /**
   * A NUMBER match is kept when the text after it is replaced by anything that starts
   * with a boundary character: the scanner never reads past a boundary.
   */
  lemma NumberStable(h: string, t: string)
    requires NumberMatch(h) > 0
    requires Agree(h, t, NumberMatch(h)) && StopsAt(t, NumberMatch(h))
    ensures NumberMatch(t) == NumberMatch(h)
  {
    var m := NumberMatch(h);
    var p := SignEnd(h);
    assert SignEnd(t) == p;
    var q := IntPartEnd(h, p);
    var f := FracEnd(h, q);
    assert q <= f <= m;
    if q < m {
      assert h[q] == '.' || IsExponentMark(h[q]);
      assert t[q] == h[q];
    }
    IntPartStable(h, t, p);
    if f < m {
      assert IsExponentMark(h[f]);
    }
    if f == q && q < m {
      assert IsExponentMark(h[q]);
    }
    FracStable(h, t, q);
    ExpStable(h, t, f);
  }

  lemma ReferenceStable(h: string, t: string)
    requires ReferenceMatch(h) > 0
    requires Agree(h, t, ReferenceMatch(h)) && StopsAt(t, ReferenceMatch(h))
    ensures ReferenceMatch(t) == ReferenceMatch(h)
  {
    RunStable(h, t, 2, IsWordChar);
  }

  lemma UnitStable(h: string, t: string)
    requires UnitMatch(h) > 0
    requires Agree(h, t, UnitMatch(h)) && StopsAt(t, UnitMatch(h))
    ensures UnitMatch(t) == UnitMatch(h)
  {
    var q := RunEnd(h, 1, IsLower);
    RunStable(h, t, 1, IsLower);
  }
}
