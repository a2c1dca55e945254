/**
 * `render` and its `split` (calc.js, lines 296-348): evaluate the expression, then report it as
 * a single value, as a value with a unit, or allocated over the denominations of the
 * quantities list.  The quantity values are NUMBER lexemes; JavaScript coerces them to numbers
 * inside `split`, and here they are converted once, before the call: each must be a positive
 * whole number written without sign, fraction, exponent or leading zero (whose `String` is the
 * lexeme itself), and the evaluated target must be whole, or the render fails with `NotWhole`.
 */
module Render {
  import opened Base
  import opened Ast
  import opened Allocation
  import Numerals
  import Lexer
  import Grammar
  import Parser
  import Evaluator
  import Compiler

  /** One entry of the rendered list: `{ value }`, `{ value, units }` or a `split` entry. */
  datatype Entry = Entry(units: Option<string>, value: real)

  /** `!q.value`: undefined and the empty string are falsy. */
  predicate Falsy(v: Option<string>)
  {
    v.None? || v.value == ""
  }

  /** A quantity value `split` can allocate over: a positive whole number in its `String` form. */
  predicate IsWholeLexeme(v: Option<string>)
  {
    v.Some? && Numerals.IsCanonical(v.value) && Numerals.DigitsValue(v.value) > 0
  }

  /** The denominations the lexemes spell, when every one of them is a positive whole number. */
  function Denominations(vs: seq<Option<string>>): (r: Option<seq<int>>)
    ensures r.Some? <==> forall i :: 0 <= i < |vs| ==> IsWholeLexeme(vs[i])
    ensures r.Some? ==> |r.value| == |vs| && AllPositive(r.value)
    ensures r.Some? ==> forall i :: 0 <= i < |vs| ==> Numerals.NatToString(r.value[i]) == vs[i].value
  {
    if |vs| == 0 then Some([])
    else if !IsWholeLexeme(vs[0]) then None
    else
      match Denominations(vs[1..])
      case None =>
        assert forall i :: 1 <= i < |vs| ==> vs[1..][i - 1] == vs[i];
        None
      case Some(ds) =>
        Numerals.CanonicalIsNatToString(vs[0].value);
        assert forall i :: 1 <= i < |vs| ==> vs[1..][i - 1] == vs[i];
        Some([Numerals.DigitsValue(vs[0].value) as int] + ds)
  }

  /** The pieces as entries: each count with its label. */
  function ToEntries(ps: seq<Piece>): seq<Entry>
  {
    seq(|ps|, i requires 0 <= i < |ps| => Entry(Some(ps[i].units), ps[i].value as real))
  }

  predicate IsWhole(x: real)
  {
    x == x.Floor as real
  }

  /** The dispatch of `render` on the parsed program, once its expression has the value `value`. */
  function RenderTree(p: Program, value: real): (r: Result<seq<Entry>>)
    ensures r.Err? ==> r.error == UnexpectedEnd || r.error == MixedUnits || r.error == NotWhole
  {
    match p.quantities
    case None => Ok([Entry(None, value)])
    case Some(qs) =>
      if |qs| == 0 then Err(UnexpectedEnd)
      else if Falsy(qs[0].value) then Ok([Entry(qs[0].units, value)])
      else if !UniformUnits(qs) then Err(MixedUnits)
      else
        match Denominations(Values(qs))
        case None => Err(NotWhole)
        case Some(ds) =>
          if !IsWhole(value) then Err(NotWhole)
          else Ok(ToEntries(SplitNonZero(value.Floor, ds, qs[0].units)))
  }

  /** `Calc.render(src, env)`: tokenize, parse, evaluate, then dispatch. */
  function RenderSource(src: string, env: Evaluator.Env): (r: Result<seq<Entry>>)
    ensures r.Ok? ==> Grammar.Parse(src).Ok? && Evaluator.Eval(Grammar.Parse(src).value.expression, env).Ok?
    ensures r.Err? && r.error.UndefinedReference? ==> Grammar.Parse(src).Ok?
  {
    match Grammar.Parse(src)
    case Err(err) => Err(err)
    case Ok(p) =>
      match Evaluator.Eval(p.expression, env)
      case Err(err) => Err(err)
      case Ok(value) => RenderTree(p, value)
  }

  /**
   * The `split` of calc.js: as in split.js, but an entry is pushed only when its count is not
   * zero.
   */
  method SplitNonZeroCounts(target: int, components: array<int>, unit: Option<string>) returns (result: seq<Piece>)
    requires AllPositive(components[..])
    ensures result == SplitNonZero(target, components[..], unit)
  {
    var max := components.Length;
    var sorted := SortDesc(components[..]);
    assert AllPositive(sorted) && |sorted| == max;
    ghost var full := Pieces(sorted, Counts(target, sorted), unit);
    assert full == SplitAll(target, components[..], unit);
    ghost var pushedOrNot: seq<Piece> := [];
    result := [];
    var remainder := target;
    var i := 0;
    while i < max
      invariant 0 <= i <= max
      invariant pushedOrNot + Pieces(sorted[i..], Counts(remainder, sorted[i..]), unit) == full
      invariant result == NonZero(pushedOrNot)
      decreases max - i
    {
      var n := sorted[i];
      var k := Label(n, unit);
      var v;
      ghost var before := remainder;
      if i < max - 1 {
        v := FloorDiv(remainder, n);
        remainder := JsRem(remainder, n);
      } else {
        v := CeilDiv(remainder, n);
      }
      AdvanceStep(sorted, i, before, remainder, v, unit, pushedOrNot);
      NonZeroPush(pushedOrNot, Piece(k, v));
      pushedOrNot := pushedOrNot + [Piece(k, v)];
      if v != 0 {
        result := result + [Piece(k, v)];
      }
      i := i + 1;
    }
    assert sorted[max..] == [];
    assert pushedOrNot + [] == pushedOrNot;
  }

  /** One round of the loop: the entry is kept exactly when its count is not zero. */
  lemma NonZeroPush(done: seq<Piece>, p: Piece)
    ensures NonZero(done + [p]) == NonZero(done) + (if p.value != 0 then [p] else [])
  {
    NonZeroAppend(done, [p]);
    assert [p][1..] == [];
  }

  lemma {:induction false} NonZeroAppend(a: seq<Piece>, b: seq<Piece>)
    ensures NonZero(a + b) == NonZero(a) + NonZero(b)
  {
    if |a| == 0 {
      assert a + b == b;
    } else {
      assert (a + b)[0] == a[0] && (a + b)[1..] == a[1..] + b;
      NonZeroAppend(a[1..], b);
      if a[0].value != 0 {
        assert [a[0]] + (NonZero(a[1..]) + NonZero(b)) == ([a[0]] + NonZero(a[1..])) + NonZero(b);
      }
    }
  }

  /**
   * The `while (i--)` loop of `render`: checks every quantity's `units` against the first
   * one's and copies the values into `qtys`, from the last quantity to the first.
   */
  method CheckUnits(qs: seq<Quantity>) returns (r: Result<seq<Option<string>>>)
    requires |qs| > 0
    ensures UniformUnits(qs) ==> r == Ok(Values(qs))
    ensures !UniformUnits(qs) ==> r == Err(MixedUnits)
  {
    var i := |qs|;
    var unit := qs[0].units;
    var qtys := new Option<string>[|qs|];
    while i > 0
      invariant 0 <= i <= |qs|
      invariant forall k :: i <= k < |qs| ==> qtys[k] == qs[k].value && qs[k].units == unit
      decreases i
    {
      i := i - 1;
      if qs[i].units != unit {
        return Err(MixedUnits);
      }
      qtys[i] := qs[i].value;
    }
    assert qtys[..] == Values(qs);
    return Ok(qtys[..]);
  }

  /** The dispatch of `render` on the quantities, given the expression's value. */
  method RenderValue(p: Program, value: real) returns (r: Result<seq<Entry>>)
    ensures r == RenderTree(p, value)
  {
    if p.quantities.None? {
      return Ok([Entry(None, value)]);
    }
    var qs := p.quantities.value;
    if |qs| == 0 {
      return Err(UnexpectedEnd);
    }
    if Falsy(qs[0].value) {
      return Ok([Entry(qs[0].units, value)]);
    }
    var qtys := CheckUnits(qs);
    if qtys.Err? {
      return Err(qtys.error);
    }
    var denominations := Denominations(qtys.value);
    if denominations.None? || !IsWhole(value) {
      return Err(NotWhole);
    }
    var ds := denominations.value;
    var components := new int[|ds|](k requires 0 <= k < |ds| => ds[k]);
    assert components[..] == ds;
    var pieces := SplitNonZeroCounts(value.Floor, components, qs[0].units);
    return Ok(ToEntries(pieces));
  }

  /** `render`: tokenize, parse the tokens, evaluate the expression, then dispatch. */
  method RenderCalc(src: string, env: Evaluator.Env) returns (r: Result<seq<Entry>>)
    ensures r == RenderSource(src, env)
  {
    var tokens := Lexer.Tokenize(src);
    if tokens.Err? {
      return Err(tokens.error);
    }
    var parser := new Parser.Parser(tokens.value);
    var tree := parser.ParseTokens();
    if tree.Err? {
      return Err(tree.error);
    }
    var value := Evaluator.Eval(tree.value.expression, env);
    if value.Err? {
      return Err(value.error);
    }
    r := RenderValue(tree.value, value.value);
  }

  /** `render` rejects a split over quantities exactly when their units differ. */
  lemma MixedUnitsRejected(p: Program, value: real)
    requires p.quantities.Some? && |p.quantities.value| > 0 && !Falsy(p.quantities.value[0].value)
    ensures RenderTree(p, value) == Err(MixedUnits) <==> !UniformUnits(p.quantities.value)
  {
  }

  /** With no `in` clause the value is reported alone; with a bare unit, with that unit. */
  lemma RenderSingleValue(p: Program, value: real)
    ensures p.quantities.None? ==> RenderTree(p, value) == Ok([Entry(None, value)])
    ensures p.quantities.Some? && |p.quantities.value| > 0 && p.quantities.value[0].value.None? ==>
      RenderTree(p, value) == Ok([Entry(p.quantities.value[0].units, value)])
  {
  }

  /**
   * A successful split render lists, largest denomination first, exactly the non-zero entries
   * of the greedy allocation of the value, labelled with the quantities' lexemes.
   */
  lemma RenderSplit(p: Program, value: real)
    requires p.quantities.Some? && |p.quantities.value| > 0 && !Falsy(p.quantities.value[0].value)
    requires RenderTree(p, value).Ok?
    ensures UniformUnits(p.quantities.value) && IsWhole(value)
    ensures Denominations(Values(p.quantities.value)).Some?
    ensures forall e :: e in RenderTree(p, value).value ==> e.units.Some? && e.value != 0.0
    ensures RenderTree(p, value).value ==
      ToEntries(SplitNonZero(value.Floor, Denominations(Values(p.quantities.value)).value, p.quantities.value[0].units))
  {
    var ds := Denominations(Values(p.quantities.value)).value;
    var ps := SplitNonZero(value.Floor, ds, p.quantities.value[0].units);
    NonZeroSpec(SplitAll(value.Floor, ds, p.quantities.value[0].units));
    forall e | e in RenderTree(p, value).value ensures e.units.Some? && e.value != 0.0 {
      var i :| 0 <= i < |ps| && ToEntries(ps)[i] == e;
      assert ps[i] in ps;
    }
  }

  /**
   * The units check as written in the two back ends disagrees: over mixed units `render`
   * fails, the `compileCalc` of calc.js compiles, and the corrected compiler fails like `render`.
   */
  lemma CompileAndRenderDisagree(p: Program, value: real)
    requires p.quantities.Some? && |p.quantities.value| > 0 && p.quantities.value[0].value.Some?
    requires p.quantities.value[0].value.value != ""
    requires !UniformUnits(p.quantities.value)
    ensures RenderTree(p, value) == Err(MixedUnits)
    ensures Compiler.CompileProgram(p).Ok?
    ensures Compiler.CompileProgramChecked(p) == Err(MixedUnits)
  {
  }
}
