/**
 * What the greedy `split` of calc.js (lines 296-322) and split.js (lines 1-25) computes, as
 * functions of the target and the denominations: sort the denominations from largest to
 * smallest, take `Math.floor` of the quotient and the remainder `%` for every one but the last,
 * and `Math.ceil` of the quotient for the last.  Targets and denominations are integers: the
 * denominations positive, the target of any sign.
 */
module Allocation {
  import opened Base
  import Numerals

  /** One entry of the result: `{ units: k, value: v }`. */
  datatype Piece = Piece(units: string, value: int)

  predicate AllPositive(ds: seq<int>)
  {
    forall i :: 0 <= i < |ds| ==> ds[i] > 0
  }

  /** `Math.floor(a / n)`. */
  function FloorDiv(a: int, n: int): int
    requires n > 0
  {
    a / n
  }

  /** `Math.ceil(a / n)`. */
  function CeilDiv(a: int, n: int): int
    requires n > 0
  {
    -((-a) / n)
  }

  /** `a % n` in JavaScript: the remainder of the quotient truncated toward zero, with the sign of `a`. */
  function JsRem(a: int, n: int): int
    requires n > 0
  {
    if a >= 0 then a % n else -((-a) % n)
  }

  /**
   * The three operations the loop uses: `FloorDiv` and `CeilDiv` are the integers just below
   * and just above `a / n`, and a remainder keeps the sign of `a`, is smaller than `n` in
   * size, and completes the quotient that rounds toward zero.
   */
  lemma DivisionLaws(a: int, n: int)
    requires n > 0
    ensures n * FloorDiv(a, n) <= a < n * (FloorDiv(a, n) + 1)
    ensures n * (CeilDiv(a, n) - 1) < a <= n * CeilDiv(a, n)
    ensures a >= 0 ==> 0 <= JsRem(a, n) < n && a == n * FloorDiv(a, n) + JsRem(a, n)
    ensures a < 0 ==> -n < JsRem(a, n) <= 0 && a == n * CeilDiv(a, n) + JsRem(a, n)
    ensures a >= 0 ==> FloorDiv(a, n) >= 0 && CeilDiv(a, n) >= 0
  {
    EuclidLaws(a, n);
    EuclidLaws(-a, n);
    if a >= 0 {
      assert JsRem(a, n) == a % n;
    } else {
      assert JsRem(a, n) == -((-a) % n);
    }
  }

  /** Dafny's own quotient and remainder on a positive divisor. */
  lemma EuclidLaws(a: int, n: int)
    requires n > 0
    ensures a == n * (a / n) + a % n && 0 <= a % n < n
    ensures n * (a / n) <= a < n * (a / n) + n
    ensures n * (a / n + 1) == n * (a / n) + n && n * (a / n - 1) == n * (a / n) - n
    ensures n * -(a / n) == -(n * (a / n))
    ensures a >= 0 ==> a / n >= 0
  {
    var q := a / n;
    assert n * (q + 1) == n * q + n;
    assert n * (q - 1) == n * q - n;
    assert n * -q == -(n * q);
  }

  /** `unit ? (String(n) + ' ' + unit) : String(n)`: the empty string and undefined are falsy. */
  function Label(n: nat, unit: Option<string>): string
  {
    if unit.Some? && unit.value != "" then Numerals.NatToString(n) + " " + unit.value
    else Numerals.NatToString(n)
  }

  /**
   * What a label says: its leading digits read back as the denomination, and they are followed
   * by a space and the unit when the unit is truthy, and by nothing otherwise.
   */
  lemma LabelReadsBack(n: nat, unit: Option<string>)
    ensures |Numerals.NatToString(n)| <= |Label(n, unit)|
    ensures Numerals.LiteralValue(Label(n, unit)[..|Numerals.NatToString(n)|]) == Ok(n as real)
    ensures Label(n, unit)[|Numerals.NatToString(n)|..] == if unit.Some? && unit.value != "" then " " + unit.value else ""
  {
    var digits := Numerals.NatToString(n);
    Numerals.NatToStringRoundTrip(n);
    assert Label(n, unit)[..|digits|] == digits;
  }

  /** Two denominations never share a label: the label's leading digits spell the denomination. */
  lemma LabelInjective(n1: nat, n2: nat, unit: Option<string>)
    requires Label(n1, unit) == Label(n2, unit)
    ensures n1 == n2
  {
    var d1, d2 := Numerals.NatToString(n1), Numerals.NatToString(n2);
    var k := Label(n1, unit);
    assert d1 == k[..|d1|] && d2 == k[..|d2|];
    Numerals.NatToStringValue(n1);
    Numerals.NatToStringValue(n2);
  }

  predicate Descending(s: seq<int>)
  {
    forall i, j :: 0 <= i < j < |s| ==> s[i] >= s[j]
  }

  /** Every element of `s` is at most `a`. */
  predicate BoundedBy(a: int, s: seq<int>)
  {
    forall k :: 0 <= k < |s| ==> s[k] <= a
  }

  function Insert(x: int, s: seq<int>): (r: seq<int>)
    ensures |r| == |s| + 1
    ensures multiset(r) == multiset{x} + multiset(s)
    ensures x > 0 && AllPositive(s) ==> AllPositive(r)
  {
    if |s| == 0 || x >= s[0] then [x] + s
    else
      assert s == [s[0]] + s[1..];
      [s[0]] + Insert(x, s[1..])
  }

  /** `components.slice().sort(function (a, b) { return b - a; })`: a sorted copy. */
  function SortDesc(s: seq<int>): (r: seq<int>)
    ensures |r| == |s|
    ensures multiset(r) == multiset(s)
    ensures AllPositive(s) ==> AllPositive(r)
  {
    if |s| == 0 then []
    else
      assert s == [s[0]] + s[1..];
      Insert(s[0], SortDesc(s[1..]))
  }

  lemma {:induction false} InsertBounded(a: int, x: int, s: seq<int>)
    requires BoundedBy(a, s) && x <= a
    ensures BoundedBy(a, Insert(x, s))
  {
    if |s| > 0 && x < s[0] {
      InsertBounded(a, x, s[1..]);
    }
  }

  lemma ConsDescending(a: int, t: seq<int>)
    requires Descending(t) && BoundedBy(a, t)
    ensures Descending([a] + t)
  {
  }

  lemma {:induction false} InsertSorted(x: int, s: seq<int>)
    requires Descending(s)
    ensures Descending(Insert(x, s))
  {
    if |s| == 0 || x >= s[0] {
      ConsDescending(x, s);
    } else {
      InsertSorted(x, s[1..]);
      assert BoundedBy(s[0], s[1..]);
      InsertBounded(s[0], x, s[1..]);
      ConsDescending(s[0], Insert(x, s[1..]));
    }
  }

  /** The sorted copy is in descending order (that it holds the same denominations is its contract). */
  lemma {:induction false} SortDescSorted(s: seq<int>)
    ensures Descending(SortDesc(s))
  {
    if |s| > 0 {
      SortDescSorted(s[1..]);
      InsertSorted(s[0], SortDesc(s[1..]));
    }
  }

  lemma DescendingTail(s: seq<int>)
    requires Descending(s) && |s| > 0
    ensures Descending(s[1..])
  {
    forall i, j | 0 <= i < j < |s| - 1 ensures s[1..][i] >= s[1..][j] {
      assert s[1..][i] == s[i + 1] && s[1..][j] == s[j + 1];
    }
  }

  /** Two descending orderings of the same denominations are the same sequence. */
  lemma {:induction false} DescendingUnique(a: seq<int>, b: seq<int>)
    requires Descending(a) && Descending(b) && multiset(a) == multiset(b)
    ensures a == b
    decreases |a|
  {
    if |a| == 0 {
      assert |b| == |multiset(b)| == 0;
    } else {
      assert |b| == |multiset(b)| == |multiset(a)| == |a|;
      assert a[0] in multiset(b);
      assert b[0] in multiset(a);
      var i :| 0 <= i < |b| && b[i] == a[0];
      var j :| 0 <= j < |a| && a[j] == b[0];
      assert a[0] == b[0];
      assert a == [a[0]] + a[1..];
      assert b == [b[0]] + b[1..];
      assert multiset(a[1..]) == multiset(a) - multiset{a[0]};
      assert multiset(b[1..]) == multiset(b) - multiset{b[0]};
      DescendingTail(a);
      DescendingTail(b);
      DescendingUnique(a[1..], b[1..]);
    }
  }

  /** Sorting forgets the order of its input. */
  lemma SortDescOrderIndependent(s1: seq<int>, s2: seq<int>)
    requires multiset(s1) == multiset(s2)
    ensures SortDesc(s1) == SortDesc(s2)
  {
    SortDescSorted(s1);
    SortDescSorted(s2);
    DescendingUnique(SortDesc(s1), SortDesc(s2));
  }

  /** The counts of the loop: floor and remainder for all but the last denomination, ceiling for the last. */
  function Counts(rem: int, ds: seq<int>): (cs: seq<int>)
    requires AllPositive(ds)
    ensures |cs| == |ds|
    decreases |ds|
  {
    if |ds| == 0 then []
    else if |ds| == 1 then [CeilDiv(rem, ds[0])]
    else [FloorDiv(rem, ds[0])] + Counts(JsRem(rem, ds[0]), ds[1..])
  }

  /** The entries for denominations `ds` with counts `cs`, labelled as the loop labels them. */
  function Pieces(ds: seq<int>, cs: seq<int>, unit: Option<string>): (ps: seq<Piece>)
    requires AllPositive(ds) && |cs| == |ds|
    ensures |ps| == |ds|
  {
    seq(|ds|, i requires 0 <= i < |ds| && AllPositive(ds) && |cs| == |ds| => Piece(Label(ds[i], unit), cs[i]))
  }

  /** One round of the loop: the first entry, then the entries of the rest with the new remainder. */
  lemma PiecesStep(ds: seq<int>, rem: int, unit: Option<string>)
    requires |ds| >= 1 && AllPositive(ds)
    ensures |ds| == 1 ==> Pieces(ds, Counts(rem, ds), unit) == [Piece(Label(ds[0], unit), CeilDiv(rem, ds[0]))]
    ensures |ds| > 1 ==>
      (Pieces(ds, Counts(rem, ds), unit) ==
       [Piece(Label(ds[0], unit), FloorDiv(rem, ds[0]))] + Pieces(ds[1..], Counts(JsRem(rem, ds[0]), ds[1..]), unit))
  {
    if |ds| > 1 {
      var tail := Pieces(ds[1..], Counts(JsRem(rem, ds[0]), ds[1..]), unit);
      var all := Pieces(ds, Counts(rem, ds), unit);
      assert all[1..] == tail;
    }
  }

  /** Round `i` of the loop over the sorted denominations, with the remainder `rem` it starts from. */
  lemma LoopStep(sorted: seq<int>, i: nat, rem: int, unit: Option<string>)
    requires i < |sorted| && AllPositive(sorted)
    ensures i < |sorted| - 1 ==>
      (Pieces(sorted[i..], Counts(rem, sorted[i..]), unit) ==
       [Piece(Label(sorted[i], unit), FloorDiv(rem, sorted[i]))] +
       Pieces(sorted[i + 1..], Counts(JsRem(rem, sorted[i]), sorted[i + 1..]), unit))
    ensures i == |sorted| - 1 ==>
      (Pieces(sorted[i..], Counts(rem, sorted[i..]), unit) ==
       [Piece(Label(sorted[i], unit), CeilDiv(rem, sorted[i]))] +
       Pieces(sorted[i + 1..], Counts(rem, sorted[i + 1..]), unit))
  {
    var rest := sorted[i..];
    assert rest[0] == sorted[i] && rest[1..] == sorted[i + 1..];
    assert AllPositive(rest);
    PiecesStep(rest, rem, unit);
    if i == |sorted| - 1 {
      assert sorted[i + 1..] == [];
    }
  }

  /**
   * Round `i` seen from the loop: the entries already produced, followed by those still to come,
   * are unchanged when the entry of round `i` moves from the second part to the first.
   */
  lemma AdvanceStep(sorted: seq<int>, i: nat, rem: int, rem2: int, v: int, unit: Option<string>, done: seq<Piece>)
    requires i < |sorted| && AllPositive(sorted)
    requires i < |sorted| - 1 ==> v == FloorDiv(rem, sorted[i]) && rem2 == JsRem(rem, sorted[i])
    requires i == |sorted| - 1 ==> v == CeilDiv(rem, sorted[i]) && rem2 == rem
    ensures done + Pieces(sorted[i..], Counts(rem, sorted[i..]), unit) ==
            (done + [Piece(Label(sorted[i], unit), v)]) + Pieces(sorted[i + 1..], Counts(rem2, sorted[i + 1..]), unit)
  {
    LoopStep(sorted, i, rem, unit);
    var tail := Pieces(sorted[i + 1..], Counts(rem2, sorted[i + 1..]), unit);
    assert done + ([Piece(Label(sorted[i], unit), v)] + tail) == (done + [Piece(Label(sorted[i], unit), v)]) + tail;
  }

  /** The result of split.js: one entry per denomination, largest first, zero counts included. */
  function SplitAll(target: int, ds: seq<int>, unit: Option<string>): (r: seq<Piece>)
    requires AllPositive(ds)
    ensures |r| == |ds|
  {
    var sorted := SortDesc(ds);
    Pieces(sorted, Counts(target, sorted), unit)
  }

  /** `if (v !== 0) result.push(...)`: the entries with a non-zero count, in order. */
  function NonZero(ps: seq<Piece>): (r: seq<Piece>)
    ensures |r| <= |ps|
  {
    if |ps| == 0 then []
    else if ps[0].value == 0 then NonZero(ps[1..])
    else [ps[0]] + NonZero(ps[1..])
  }

  /** The kept entries are exactly the entries with a non-zero count. */
  lemma {:induction false} NonZeroSpec(ps: seq<Piece>)
    ensures forall p :: p in NonZero(ps) <==> p in ps && p.value != 0
  {
    if |ps| > 0 {
      NonZeroSpec(ps[1..]);
      assert ps == [ps[0]] + ps[1..];
    }
  }

  /** The positions from `lo` on whose entry has a non-zero count, in increasing order. */
  function NonZeroPositions(ps: seq<Piece>, lo: nat): (r: seq<nat>)
    requires lo <= |ps|
    ensures forall t :: 0 <= t < |r| ==> lo <= r[t] < |ps|
    decreases |ps| - lo
  {
    if lo == |ps| then []
    else if ps[lo].value != 0 then [lo] + NonZeroPositions(ps, lo + 1)
    else NonZeroPositions(ps, lo + 1)
  }

  /**
   * `NonZero` is the order-preserving filter: its entries are those at the positions with a
   * non-zero count, every such position taken once, in increasing order.
   */
  lemma NonZeroIsFilter(ps: seq<Piece>)
    ensures var pos := NonZeroPositions(ps, 0);
      && |NonZero(ps)| == |pos|
      && (forall t :: 0 <= t < |pos| ==> NonZero(ps)[t] == ps[pos[t]])
      && (forall t, u :: 0 <= t < u < |pos| ==> pos[t] < pos[u])
      && (forall i :: 0 <= i < |ps| ==> (i in pos <==> ps[i].value != 0))
  {
    NonZeroFrom(ps, 0);
    assert ps[0..] == ps;
  }

  lemma {:induction false} NonZeroFrom(ps: seq<Piece>, lo: nat)
    requires lo <= |ps|
    ensures var pos := NonZeroPositions(ps, lo);
      && |NonZero(ps[lo..])| == |pos|
      && (forall t :: 0 <= t < |pos| ==> NonZero(ps[lo..])[t] == ps[pos[t]])
      && (forall t, u :: 0 <= t < u < |pos| ==> pos[t] < pos[u])
      && (forall i :: lo <= i < |ps| ==> (i in pos <==> ps[i].value != 0))
    decreases |ps| - lo
  {
    if lo < |ps| {
      NonZeroFrom(ps, lo + 1);
      var rest := NonZeroPositions(ps, lo + 1);
      var kept := NonZero(ps[lo + 1..]);
      assert ps[lo..][1..] == ps[lo + 1..];
      assert NonZero(ps[lo..]) == if ps[lo].value == 0 then kept else [ps[lo]] + kept;
      assert lo !in rest;
      if ps[lo].value != 0 {
        var pos := [lo] + rest;
        assert NonZeroPositions(ps, lo) == pos;
        forall t | 0 <= t < |pos| ensures NonZero(ps[lo..])[t] == ps[pos[t]] {
          if t > 0 {
            assert pos[t] == rest[t - 1];
          }
        }
        forall i | lo <= i < |ps| ensures i in pos <==> ps[i].value != 0 {
          assert i in pos <==> i == lo || i in rest;
        }
      }
    }
  }

  /** Each entry with a non-zero count is kept as often as it occurs; no other entry is kept. */
  lemma {:induction false} NonZeroMultiplicity(ps: seq<Piece>)
    ensures forall p :: multiset(NonZero(ps))[p] == if p.value != 0 then multiset(ps)[p] else 0
  {
    if |ps| > 0 {
      NonZeroMultiplicity(ps[1..]);
      assert ps == [ps[0]] + ps[1..];
    }
  }

  /** The result of calc.js's `split`: split.js's result without the zero-count entries. */
  function SplitNonZero(target: int, ds: seq<int>, unit: Option<string>): (r: seq<Piece>)
    requires AllPositive(ds)
    ensures |r| <= |ds|
    ensures forall k :: 0 <= k < |r| ==> r[k].value != 0
  {
    NonZeroSpec(SplitAll(target, ds, unit));
    NonZero(SplitAll(target, ds, unit))
  }

  /** Σ ds[i] × cs[i]. */
  function Dot(ds: seq<int>, cs: seq<int>): int
    requires |cs| == |ds|
  {
    if |ds| == 0 then 0 else ds[0] * cs[0] + Dot(ds[1..], cs[1..])
  }

  /**
   * Coverage: for a non-negative target the counts add up to at least the target and to less
   * than the target plus the last (for sorted input, the smallest) denomination.
   */
  lemma {:induction false} CountsCover(rem: int, ds: seq<int>)
    requires rem >= 0 && |ds| >= 1 && AllPositive(ds)
    ensures rem <= Dot(ds, Counts(rem, ds)) < rem + ds[|ds| - 1]
    decreases |ds|
  {
    if |ds| > 1 {
      var next := JsRem(rem, ds[0]);
      DivisionLaws(rem, ds[0]);
      CountsCover(next, ds[1..]);
      assert Counts(rem, ds)[1..] == Counts(next, ds[1..]);
    }
  }

  /** Every count that a remainder step produces is non-negative for a non-negative target. */
  lemma {:induction false} CountsNonNegative(rem: int, ds: seq<int>)
    requires rem >= 0 && AllPositive(ds)
    ensures forall i :: 0 <= i < |ds| ==> Counts(rem, ds)[i] >= 0
    decreases |ds|
  {
    if |ds| >= 1 {
      DivisionLaws(rem, ds[0]);
    }
    if |ds| > 1 {
      var next := JsRem(rem, ds[0]);
      CountsNonNegative(next, ds[1..]);
      var cs := Counts(rem, ds);
      assert cs == [FloorDiv(rem, ds[0])] + Counts(next, ds[1..]);
      forall i | 0 <= i < |ds| ensures cs[i] >= 0 {
        if i > 0 {
          assert cs[i] == Counts(next, ds[1..])[i - 1];
        }
      }
    }
  }

  /** The entries come largest denomination first, one per denomination, labelled with it. */
  lemma SplitAllShape(target: int, ds: seq<int>, unit: Option<string>)
    requires AllPositive(ds)
    ensures Descending(SortDesc(ds))
    ensures |SplitAll(target, ds, unit)| == |ds|
    ensures forall i :: 0 <= i < |ds| ==>
      SplitAll(target, ds, unit)[i] == Piece(Label(SortDesc(ds)[i], unit), Counts(target, SortDesc(ds))[i])
  {
    SortDescSorted(ds);
  }

  /** The last entry's denomination is the smallest one given. */
  lemma LastIsSmallest(ds: seq<int>)
    requires |ds| >= 1
    ensures forall i :: 0 <= i < |ds| ==> SortDesc(ds)[|ds| - 1] <= ds[i]
  {
    SortDescSorted(ds);
    LastOfPermutation(SortDesc(ds), ds);
  }

  /** The last element of a descending sequence is at most every element of any permutation of it. */
  lemma LastOfPermutation(s: seq<int>, t: seq<int>)
    requires Descending(s) && |s| >= 1 && multiset(s) == multiset(t)
    ensures forall i :: 0 <= i < |t| ==> s[|s| - 1] <= t[i]
  {
    forall i | 0 <= i < |t| ensures s[|s| - 1] <= t[i] {
      assert t[i] in multiset(t);
      var j :| 0 <= j < |s| && s[j] == t[i];
      assert j <= |s| - 1;
    }
  }

  /**
   * The coverage law of `split`: for a non-negative target, the entries' denominations times
   * their counts add up to at least the target and to less than the target plus the smallest
   * denomination; no count is negative.
   */
  lemma SplitAllCovers(target: int, ds: seq<int>, unit: Option<string>)
    requires target >= 0 && |ds| >= 1 && AllPositive(ds)
    ensures target <= Dot(SortDesc(ds), Counts(target, SortDesc(ds))) < target + SortDesc(ds)[|ds| - 1]
    ensures forall i :: 0 <= i < |ds| ==> SortDesc(ds)[|ds| - 1] <= ds[i]
    ensures forall i :: 0 <= i < |ds| ==> SplitAll(target, ds, unit)[i].value >= 0
  {
    CountsCover(target, SortDesc(ds));
    LastIsSmallest(ds);
    CountsNonNegative(target, SortDesc(ds));
  }

  /** A single denomination `n` yields one entry, `Math.ceil(target / n)` of it. */
  lemma SingleDenomination(target: int, n: int, unit: Option<string>)
    requires n > 0
    ensures SplitAll(target, [n], unit) == [Piece(Label(n, unit), CeilDiv(target, n))]
  {
    assert [n][1..] == [];
    assert SortDesc([n]) == [n];
  }

  /** Only the multiset of denominations matters, not the order they are given in. */
  lemma SplitAllOrderIndependent(target: int, ds1: seq<int>, ds2: seq<int>, unit: Option<string>)
    requires AllPositive(ds1) && AllPositive(ds2) && multiset(ds1) == multiset(ds2)
    ensures SplitAll(target, ds1, unit) == SplitAll(target, ds2, unit)
    ensures SplitNonZero(target, ds1, unit) == SplitNonZero(target, ds2, unit)
  {
    SortDescOrderIndependent(ds1, ds2);
  }

  lemma {:induction false} CountsOfZero(ds: seq<int>)
    requires AllPositive(ds)
    ensures forall i :: 0 <= i < |ds| ==> Counts(0, ds)[i] == 0
    decreases |ds|
  {
    if |ds| > 1 {
      CountsOfZero(ds[1..]);
      assert Counts(0, ds)[1..] == Counts(0, ds[1..]);
    }
  }

  lemma {:induction false} NonZeroOfZeros(ps: seq<Piece>)
    requires forall i :: 0 <= i < |ps| ==> ps[i].value == 0
    ensures NonZero(ps) == []
  {
    if |ps| > 0 {
      NonZeroOfZeros(ps[1..]);
    }
  }

  /** Nothing to allocate: split.js gives all-zero entries, calc.js's `split` no entries at all. */
  lemma ZeroTarget(ds: seq<int>, unit: Option<string>)
    requires AllPositive(ds)
    ensures forall i :: 0 <= i < |SplitAll(0, ds, unit)| ==> SplitAll(0, ds, unit)[i].value == 0
    ensures SplitNonZero(0, ds, unit) == []
  {
    CountsOfZero(SortDesc(ds));
    NonZeroOfZeros(SplitAll(0, ds, unit));
  }

  lemma SevenSorted(ds: seq<int>)
    requires multiset(ds) == multiset([1, 2, 4])
    ensures SortDesc(ds) == [4, 2, 1]
  {
    SortDescSorted(ds);
    SevenDescending();
    DescendingUnique(SortDesc(ds), [4, 2, 1]);
  }

  lemma SevenDescending()
    ensures Descending([4, 2, 1]) && multiset([4, 2, 1]) == multiset([1, 2, 4])
  {
  }

  lemma CountsLast(rem: int, d: int)
    requires d > 0
    ensures Counts(rem, [d]) == [CeilDiv(rem, d)]
  {
  }

  lemma SevenCounts()
    ensures Counts(7, [4, 2, 1]) == [1, 1, 1]
  {
    CountsLast(1, 1);
    assert CeilDiv(1, 1) == 1;
  }

  /** The greedy allocation of 7 over 1, 2 and 4, given in any order: one 4, one 2, one 1, largest first. */
  lemma SevenExample(ds: seq<int>)
    requires AllPositive(ds) && multiset(ds) == multiset([1, 2, 4])
    ensures SplitAll(7, ds, Some("cats")) == [Piece("4 cats", 1), Piece("2 cats", 1), Piece("1 cats", 1)]
  {
    SevenSorted(ds);
    SevenCounts();
    SevenPieces();
  }

  lemma SevenPieces()
    ensures Pieces([4, 2, 1], [1, 1, 1], Some("cats")) == [Piece("4 cats", 1), Piece("2 cats", 1), Piece("1 cats", 1)]
  {
    var ps := Pieces([4, 2, 1], [1, 1, 1], Some("cats"));
    assert Numerals.NatToString(4) == "4" && Numerals.NatToString(2) == "2" && Numerals.NatToString(1) == "1";
    assert ps[0] == Piece("4 cats", 1);
    assert ps[1] == Piece("2 cats", 1);
    assert ps[2] == Piece("1 cats", 1);
  }

  /** The ceiling on the last bucket over-allocates: 5 over 4 and 3 is one 4 and one 3. */
  lemma CeilingExample()
    ensures SplitAll(5, [3, 4], None) == [Piece("4", 1), Piece("3", 1)]
    ensures SplitNonZero(3, [3, 4], None) == [Piece("3", 1)]
  {
    assert [3, 4][1..] == [4] && [4][1..] == [] && [4, 3][1..] == [3];
    assert SortDesc([4]) == [4];
    assert Insert(3, [4]) == [4, 3];
    assert SortDesc([3, 4]) == [4, 3];
    assert Counts(1, [3]) == [1];
    assert Counts(5, [4, 3]) == [1, 1];
    assert Counts(3, [4, 3]) == [0, 1];
    assert Numerals.NatToString(4) == "4";
    assert Numerals.NatToString(3) == "3";
    var all := SplitAll(3, [3, 4], None);
    assert all == [Piece("4", 0), Piece("3", 1)];
    assert NonZero(all[1..]) == [Piece("3", 1)];
  }
}
