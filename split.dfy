/**
 * split.js (lines 1-25): the standalone greedy splitter, which keeps an entry for every
 * denomination, zero counts included.
 */
module SplitJs {
  import opened Base
  import opened Allocation

  /**
   * `split(target, components, unit)`.  The denominations are sorted on a copy, so the
   * caller's array is only read (the method modifies nothing); the loop then walks the sorted
   * copy, carrying the remainder from one denomination to the next.
   */
  method Split(target: int, components: array<int>, unit: Option<string>) returns (result: seq<Piece>)
    requires AllPositive(components[..])
    ensures result == SplitAll(target, components[..], unit)
  {
    var max := components.Length;
    var sorted := SortDesc(components[..]);
    assert AllPositive(sorted) && |sorted| == max;
    ghost var full := Pieces(sorted, Counts(target, sorted), unit);
    assert full == SplitAll(target, components[..], unit);
    result := [];
    var remainder := target;
    var i := 0;
    while i < max
      invariant 0 <= i <= max
      invariant result + Pieces(sorted[i..], Counts(remainder, sorted[i..]), unit) == full
      decreases max - i
    {
      var n := sorted[i];
      var k := Label(n, unit);
      var v;
      ghost var before := remainder;
      if i < max - 1 {
        v := FloorDiv(remainder, n);
        remainder := JsRem(remainder, n);
      } else {
        v := CeilDiv(remainder, n);
      }
      AdvanceStep(sorted, i, before, remainder, v, unit, result);
      result := result + [Piece(k, v)];
      i := i + 1;
    }
    assert sorted[max..] == [];
    assert result + [] == result;
  }

  /**
   * The properties split.js promises: one entry per denomination, labelled largest first, the
   * coverage law for a non-negative target, and independence from the input order.
   */
  lemma SplitProperties(target: int, components: seq<int>, reordered: seq<int>, unit: Option<string>)
    requires AllPositive(components) && AllPositive(reordered) && multiset(components) == multiset(reordered)
    requires target >= 0 && |components| >= 1
    ensures |SplitAll(target, components, unit)| == |components|
    ensures Descending(SortDesc(components))
    ensures target <= Dot(SortDesc(components), Counts(target, SortDesc(components))) < target + SortDesc(components)[|components| - 1]
    ensures SplitAll(target, components, unit) == SplitAll(target, reordered, unit)
  {
    SplitAllShape(target, components, unit);
    SplitAllCovers(target, components, unit);
    SplitAllOrderIndependent(target, components, reordered, unit);
  }
}
