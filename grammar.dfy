/**
 * The recursive-descent grammar of calc.js (lines 117-217) as functions from a token queue to
 * the value parsed and the tokens left over:
 *   calc   := expr ('in' qty (',' qty)*)?
 *   qty    := NUMBER any-token | UNIT
 *   expr   := term (('+' | '-') term)?        -- at most one sum
 *   term   := factor (('x' | '/') term)?      -- right-recursive
 *   factor := REFERENCE | NUMBER | '(' expr ')'
 * Reading a token from an empty queue is the UnexpectedEnd failure.
 */
module Grammar {
  import opened Base
  import opened Tokens
  import opened Ast
  import Lexer

  /** `rest` is what is left of `ts` after some tokens were taken from its front. */
  predicate IsRest(rest: seq<Token>, ts: seq<Token>)
  {
    |rest| <= |ts| && rest == ts[|ts| - |rest|..]
  }

  lemma RestTransitive(r2: seq<Token>, r1: seq<Token>, ts: seq<Token>)
    requires IsRest(r2, r1) && IsRest(r1, ts)
    ensures IsRest(r2, ts)
  {
    assert ts[|ts| - |r2|..] == ts[|ts| - |r1|..][|r1| - |r2|..];
  }

  function OpOf(t: Token): Op
    requires t == MultiplyOp || t == DivideOp || t == AddOp || t == SubtractOp
  {
    match t
    case MultiplyOp => Multiply
    case DivideOp => Divide
    case AddOp => Add
    case SubtractOp => Subtract
  }

  /** The errors the recursive descent itself raises, as opposed to the tokenizer's and the final check's. */
  predicate IsGrammarError(e: Error)
  {
    || e == ExpectedUnitsKeyword || e == ExpectedComma || e == ExpectedCloseParen
    || e == QuantityExpected || e.CouldNotParse? || e == UnexpectedEnd
  }

  /** `expression`: a term, then at most one `+` or `-` and a second term. */
  function ParseExpression(ts: seq<Token>): (r: Result<(Expr, seq<Token>)>)
    ensures r.Ok? ==> |r.value.1| < |ts| && IsRest(r.value.1, ts)
    ensures r.Err? ==> IsGrammarError(r.error)
    decreases |ts|, 2
  {
    match ParseTerm(ts)
    case Err(e) => Err(e)
    case Ok((left, rest)) =>
      if |rest| > 0 && (rest[0] == AddOp || rest[0] == SubtractOp) then
        match ParseTerm(rest[1..])
        case Err(e) => Err(e)
        case Ok((right, rest2)) =>
          RestTransitive(rest2, rest[1..], rest);
          RestTransitive(rest2, rest, ts);
          Ok((App(OpOf(rest[0]), left, right), rest2))
      else Ok((left, rest))
  }

  /** `term`: a factor, then optionally `x` or `/` and, recursively, another term. */
  function ParseTerm(ts: seq<Token>): (r: Result<(Expr, seq<Token>)>)
    ensures r.Ok? ==> |r.value.1| < |ts| && IsRest(r.value.1, ts)
    ensures r.Err? ==> IsGrammarError(r.error)
    decreases |ts|, 1
  {
    match ParseFactor(ts)
    case Err(e) => Err(e)
    case Ok((left, rest)) =>
      if |rest| > 0 && (rest[0] == MultiplyOp || rest[0] == DivideOp) then
        match ParseTerm(rest[1..])
        case Err(e) => Err(e)
        case Ok((right, rest2)) =>
          RestTransitive(rest2, rest[1..], rest);
          RestTransitive(rest2, rest, ts);
          Ok((App(OpOf(rest[0]), left, right), rest2))
      else Ok((left, rest))
  }

  /** `factor`: a reference, a number, or a parenthesised expression. */
  function ParseFactor(ts: seq<Token>): (r: Result<(Expr, seq<Token>)>)
    ensures r.Ok? ==> |r.value.1| < |ts| && IsRest(r.value.1, ts)
    ensures r.Err? ==> IsGrammarError(r.error)
    decreases |ts|, 0
  {
    if |ts| == 0 then Err(UnexpectedEnd)
    else
      match ts[0]
      case Reference(name) => Ok((Ref(name), ts[1..]))
      case Number(lexeme) => Ok((Num(lexeme), ts[1..]))
      case OpenParen =>
        (match ParseExpression(ts[1..])
         case Err(e) => Err(e)
         case Ok((e, rest)) =>
           if |rest| == 0 then Err(UnexpectedEnd)
           else if rest[0] != CloseParen then Err(ExpectedCloseParen)
           else
             RestTransitive(rest[1..], rest, ts[1..]);
             RestTransitive(rest[1..], ts[1..], ts);
             Ok((e, rest[1..])))
      case t => Err(CouldNotParse(t.TypeName()))
  }

  /** `quantity`: a NUMBER and whatever token follows it, or a lone UNIT. */
  function ParseQuantity(ts: seq<Token>): (r: Result<(Quantity, seq<Token>)>)
    ensures r.Ok? ==> |r.value.1| < |ts| && IsRest(r.value.1, ts)
    ensures r.Err? ==> IsGrammarError(r.error)
  {
    if |ts| == 0 then Err(UnexpectedEnd)
    else
      match ts[0]
      case Number(lexeme) =>
        if |ts| < 2 then Err(UnexpectedEnd)
        else
          RestTransitive(ts[2..], ts[1..], ts);
          Ok((Quantity(Some(lexeme), ts[1].Value()), ts[2..]))
      case Unit(u) => Ok((Quantity(None, Some(u)), ts[1..]))
      case _ => Err(QuantityExpected)
  }

  /** The quantities loop: while tokens remain, a comma and a quantity. */
  function ParseMoreQuantities(ts: seq<Token>): (r: Result<(seq<Quantity>, seq<Token>)>)
    ensures r.Ok? ==> r.value.1 == []
    ensures r.Err? ==> IsGrammarError(r.error)
    decreases |ts|
  {
    if |ts| == 0 then Ok(([], ts))
    else if ts[0] != Comma then Err(ExpectedComma)
    else
      match ParseQuantity(ts[1..])
      case Err(e) => Err(e)
      case Ok((q, rest)) =>
        match ParseMoreQuantities(rest)
        case Err(e) => Err(e)
        case Ok((qs, rest2)) => Ok(([q] + qs, rest2))
  }

  /** `parseCalc`: the expression, then, when tokens remain, `in` and the quantities list. */
  function ParseCalc(ts: seq<Token>): (r: Result<(Program, seq<Token>)>)
    ensures r.Ok? ==> r.value.1 == []
    ensures r.Ok? && r.value.0.quantities.Some? ==> |r.value.0.quantities.value| >= 1
    ensures r.Err? ==> IsGrammarError(r.error)
  {
    match ParseExpression(ts)
    case Err(e) => Err(e)
    case Ok((expr, rest)) =>
      if |rest| == 0 then Ok((Program(expr, None), rest))
      else if rest[0] != UnitsKw then Err(ExpectedUnitsKeyword)
      else
        match ParseQuantity(rest[1..])
        case Err(e) => Err(e)
        case Ok((q, rest2)) =>
          match ParseMoreQuantities(rest2)
          case Err(e) => Err(e)
          case Ok((qs, rest3)) => Ok((Program(expr, Some([q] + qs)), rest3))
  }

  /** `parseTokens`: `parseCalc`, then the check that every token was consumed. */
  function ParseTokens(ts: seq<Token>): (r: Result<Program>)
    ensures r.Ok? <==> ParseCalc(ts).Ok?
    ensures r.Err? ==> IsGrammarError(r.error)
  {
    match ParseCalc(ts)
    case Err(e) => Err(e)
    case Ok((p, rest)) => if |rest| != 0 then Err(UnconsumedInput) else Ok(p)
  }

  /** `Calc.parse`: tokenize the source, then parse the tokens. */
  function Parse(src: string): (r: Result<Program>)
    ensures r.Err? ==> (r.error.CouldNotTokenize? <==> Lexer.TokenizeFrom(src, 0).Err?)
    ensures r.Err? ==> r.error.CouldNotTokenize? || IsGrammarError(r.error)
  {
    match Lexer.TokenizeFrom(src, 0)
    case Err(e) => Err(e)
    case Ok(ts) => ParseTokens(ts)
  }

  /** The trailing `parseTokens` check never fires: a successful `parseCalc` drains the queue. */
  lemma ParseCalcDrains(ts: seq<Token>)
    ensures ParseCalc(ts).Ok? ==> ParseCalc(ts).value.1 == []
    ensures ParseCalc(ts).Ok? ==> ParseTokens(ts) == Ok(ParseCalc(ts).value.0)
    ensures ParseCalc(ts).Err? ==> ParseTokens(ts) == Err(ParseCalc(ts).error)
  {
  }

  /**
   * `quantities` is null exactly when the expression used up all the tokens; otherwise it is
   * a non-empty list whose first entry is the quantity right after `in`.
   */
  lemma QuantitiesShape(ts: seq<Token>)
    requires ParseTokens(ts).Ok?
    ensures var rest := ParseExpression(ts).value.1;
      && (ParseTokens(ts).value.quantities.None? <==> rest == [])
      && (ParseTokens(ts).value.quantities.Some? ==>
            && rest[0] == UnitsKw
            && |ParseTokens(ts).value.quantities.value| >= 1
            && ParseTokens(ts).value.quantities.value[0] == ParseQuantity(rest[1..]).value.0)
  {
  }

  /**
   * The three outcomes of `parseQuantity`: a NUMBER takes the next token's value as its units,
   * a lone UNIT has no value, and anything else is 'Quantity Expected'.
   */
  lemma QuantityOutcomes(ts: seq<Token>)
    ensures |ts| >= 2 && ts[0].Number? ==>
      ParseQuantity(ts) == Ok((Quantity(Some(ts[0].lexeme), ts[1].Value()), ts[2..]))
    ensures |ts| >= 1 && ts[0].Unit? ==>
      ParseQuantity(ts) == Ok((Quantity(None, Some(ts[0].lexeme)), ts[1..]))
    ensures ParseQuantity(ts) == Err(QuantityExpected) <==>
      |ts| >= 1 && !ts[0].Number? && !ts[0].Unit?
    ensures ParseQuantity(ts).Ok? ==> (ParseQuantity(ts).value.0.value.None? <==> ts[0].Unit?)
  {
  }

  /** The tokens of one quantity: a lone UNIT, or a NUMBER and the token that follows it. */
  predicate IsQuantityGroup(g: seq<Token>)
  {
    (|g| == 1 && g[0].Unit?) || (|g| == 2 && g[0].Number?)
  }

  predicate AllQuantityGroups(gs: seq<seq<Token>>)
  {
    forall k :: 0 <= k < |gs| ==> IsQuantityGroup(gs[k])
  }

  /** The quantity a group stands for, as `parseQuantity` builds it. */
  function GroupQuantity(g: seq<Token>): Quantity
    requires IsQuantityGroup(g)
  {
    if g[0].Unit? then Quantity(None, Some(g[0].lexeme)) else Quantity(Some(g[0].lexeme), g[1].Value())
  }

  /** The groups `g1 ... gn`, each written after a comma: `, g1 , g2 ... , gn`. */
  function CommaGroups(gs: seq<seq<Token>>): seq<Token>
    decreases |gs|
  {
    if gs == [] then [] else [Comma] + gs[0] + CommaGroups(gs[1..])
  }

  /** After the leading comma come the first group and the commas before the others. */
  lemma CommaGroupsTail(gs: seq<seq<Token>>)
    requires gs != []
    ensures CommaGroups(gs)[1..] == gs[0] + CommaGroups(gs[1..])
  {
    assert CommaGroups(gs) == [Comma] + (gs[0] + CommaGroups(gs[1..]));
  }

  /** The quantities of the groups, in the order the groups are written. */
  function GroupQuantities(gs: seq<seq<Token>>): seq<Quantity>
    requires AllQuantityGroups(gs)
    decreases |gs|
  {
    if gs == [] then [] else [GroupQuantity(gs[0])] + GroupQuantities(gs[1..])
  }

  /** Entry k of the quantity list is the quantity of group k. */
  lemma {:induction false} GroupQuantitiesIndexed(gs: seq<seq<Token>>)
    requires AllQuantityGroups(gs)
    ensures |GroupQuantities(gs)| == |gs|
    ensures forall k :: 0 <= k < |gs| ==> GroupQuantities(gs)[k] == GroupQuantity(gs[k])
    decreases |gs|
  {
    if gs != [] {
      GroupQuantitiesIndexed(gs[1..]);
      forall k | 1 <= k < |gs| ensures GroupQuantities(gs)[k] == GroupQuantity(gs[k]) {
        assert gs[1..][k - 1] == gs[k];
      }
    }
  }

  /** One group, whatever follows it, parses as its quantity and leaves exactly what follows. */
  lemma GroupParses(g: seq<Token>, rest: seq<Token>)
    requires IsQuantityGroup(g)
    ensures ParseQuantity(g + rest) == Ok((GroupQuantity(g), rest))
  {
    var ts := g + rest;
    if g[0].Unit? {
      assert ts[1..] == rest;
    } else {
      assert ts[1] == g[1] && ts[2..] == rest;
    }
  }

  /** The comma loop returns the quantities of the groups after the commas, in source order. */
  lemma {:induction false} MoreQuantitiesInOrder(gs: seq<seq<Token>>)
    requires AllQuantityGroups(gs)
    ensures ParseMoreQuantities(CommaGroups(gs)) == Ok((GroupQuantities(gs), []))
    decreases |gs|
  {
    if gs != [] {
      var rest := CommaGroups(gs[1..]);
      CommaGroupsTail(gs);
      GroupParses(gs[0], rest);
      MoreQuantitiesInOrder(gs[1..]);
    }
  }

  /**
   * `expr in g1, g2, ..., gn`: the program holds the quantities of the groups, in source order.
   */
  lemma QuantitiesInOrder(ts: seq<Token>, e: Expr, gs: seq<seq<Token>>)
    requires |gs| >= 1 && AllQuantityGroups(gs)
    requires ParseExpression(ts) == Ok((e, [UnitsKw] + CommaGroups(gs)[1..]))
    ensures ParseTokens(ts) == Ok(Program(e, Some(GroupQuantities(gs))))
  {
    var tail := CommaGroups(gs[1..]);
    CommaGroupsTail(gs);
    GroupParses(gs[0], tail);
    MoreQuantitiesInOrder(gs[1..]);
    ParseAfterUnitsKeyword(ts, e, gs[0] + tail, GroupQuantity(gs[0]), GroupQuantities(gs[1..]));
  }

  /** The `in` branch of parseCalc, once the quantity and the comma loop are known. */
  lemma ParseAfterUnitsKeyword(ts: seq<Token>, e: Expr, after: seq<Token>, q: Quantity, qs: seq<Quantity>)
    requires ParseExpression(ts) == Ok((e, [UnitsKw] + after))
    requires ParseQuantity(after).Ok? && ParseQuantity(after).value.0 == q
    requires ParseMoreQuantities(ParseQuantity(after).value.1) == Ok((qs, []))
    ensures ParseTokens(ts) == Ok(Program(e, Some([q] + qs)))
  {
    assert ([UnitsKw] + after)[1..] == after;
  }

  /** A term is greedy: what follows it never starts with `x` or `/`. */
  lemma {:induction false} TermIsGreedy(ts: seq<Token>)
    requires ParseTerm(ts).Ok?
    ensures var rest := ParseTerm(ts).value.1;
      rest == [] || (rest[0] != MultiplyOp && rest[0] != DivideOp)
    decreases |ts|
  {
    var rest := ParseFactor(ts).value.1;
    if |rest| > 0 && (rest[0] == MultiplyOp || rest[0] == DivideOp) {
      TermIsGreedy(rest[1..]);
    }
  }

  predicate IsAtom(t: Token) { t.Number? || t.Reference? }

  predicate IsProductOp(t: Token) { t == MultiplyOp || t == DivideOp }

  /** The leaf a NUMBER or REFERENCE token becomes. */
  function Leaf(t: Token): Expr
    requires IsAtom(t)
  {
    if t.Number? then Num(t.lexeme) else Ref(t.lexeme)
  }

  /** The tokens `a0 o0 a1 o1 ... an`. */
  function TermTokens(atoms: seq<Token>, ops: seq<Token>): seq<Token>
    requires |atoms| == |ops| + 1
    decreases ops
  {
    if ops == [] then [atoms[0]] else [atoms[0], ops[0]] + TermTokens(atoms[1..], ops[1..])
  }

  /** The tree `a0 o0 (a1 o1 (... an))`: every operator groups to the right. */
  function RightNested(atoms: seq<Token>, ops: seq<Token>): Expr
    requires |atoms| == |ops| + 1
    requires forall k :: 0 <= k < |atoms| ==> IsAtom(atoms[k])
    requires forall k :: 0 <= k < |ops| ==> IsProductOp(ops[k])
    decreases ops
  {
    if ops == [] then Leaf(atoms[0])
    else
      assert IsProductOp(ops[0]);
      App(OpOf(ops[0]), Leaf(atoms[0]), RightNested(atoms[1..], ops[1..]))
  }

  /** A chain of `x` and `/` between atoms parses right-associatively. */
  lemma {:induction false} TermIsRightNested(atoms: seq<Token>, ops: seq<Token>, rest: seq<Token>)
    requires |atoms| == |ops| + 1
    requires forall k :: 0 <= k < |atoms| ==> IsAtom(atoms[k])
    requires forall k :: 0 <= k < |ops| ==> IsProductOp(ops[k])
    requires rest == [] || !IsProductOp(rest[0])
    ensures ParseTerm(TermTokens(atoms, ops) + rest) == Ok((RightNested(atoms, ops), rest))
    decreases ops
  {
    var ts := TermTokens(atoms, ops) + rest;
    assert ParseFactor(ts) == Ok((Leaf(atoms[0]), ts[1..]));
    if ops != [] {
      assert ts[1..][1..] == TermTokens(atoms[1..], ops[1..]) + rest;
      TermIsRightNested(atoms[1..], ops[1..], rest);
    } else {
      assert ts[1..] == rest;
    }
  }

  /** `a x b / c` is `[MULTIPLY_OP, a, [DIVIDE_OP, b, c]]`, not `(a x b) / c`. */
  lemma MixedTermGroupsRight(a: Token, b: Token, c: Token)
    requires IsAtom(a) && IsAtom(b) && IsAtom(c)
    ensures ParseTokens([a, MultiplyOp, b, DivideOp, c])
         == Ok(Program(App(Multiply, Leaf(a), App(Divide, Leaf(b), Leaf(c))), None))
  {
    TermIsRightNested([a, b, c], [MultiplyOp, DivideOp], []);
    assert TermTokens([a, b, c], [MultiplyOp, DivideOp]) + [] == [a, MultiplyOp, b, DivideOp, c];
  }

  /** After one sum, a second `+` or `-` is left over and fails as a missing `in`. */
  lemma {:induction false} SecondSumFails(ts: seq<Token>)
    requires ParseTerm(ts).Ok?
    requires var r1 := ParseTerm(ts).value.1;
      |r1| > 0 && (r1[0] == AddOp || r1[0] == SubtractOp) && ParseTerm(r1[1..]).Ok?
      && var r2 := ParseTerm(r1[1..]).value.1;
      |r2| > 0 && (r2[0] == AddOp || r2[0] == SubtractOp)
    ensures ParseTokens(ts) == Err(ExpectedUnitsKeyword)
  {
  }

  /** `a + b + c` fails with 'expected "in" keyword'. */
  lemma ThreeTermSumFails(a: Token, b: Token, c: Token, p: Token, q: Token)
    requires IsAtom(a) && IsAtom(b) && IsAtom(c)
    requires p == AddOp || p == SubtractOp
    requires q == AddOp || q == SubtractOp
    ensures ParseTokens([a, p, b, q, c]) == Err(ExpectedUnitsKeyword)
  {
    var ts := [a, p, b, q, c];
    assert ParseTerm(ts) == Ok((Leaf(a), ts[1..]));
    assert ParseTerm(ts[2..]) == Ok((Leaf(b), ts[3..]));
    SecondSumFails(ts);
  }

  /** Every leaf holds the text of a well-formed NUMBER or REFERENCE token. */
  predicate WellFormedExpr(e: Expr)
  {
    match e
    case Num(lexeme) => Lexer.WellFormed(Number(lexeme))
    case Ref(name) => Lexer.WellFormed(Reference(name))
    case App(_, left, right) => WellFormedExpr(left) && WellFormedExpr(right)
  }

  lemma RestWellFormed(rest: seq<Token>, ts: seq<Token>)
    requires IsRest(rest, ts) && Lexer.AllWellFormed(ts)
    ensures Lexer.AllWellFormed(rest)
  {
    forall k | 0 <= k < |rest| ensures Lexer.WellFormed(rest[k]) {
      assert rest[k] == ts[|ts| - |rest| + k];
    }
  }

  lemma {:induction false} ExpressionWellFormed(ts: seq<Token>)
    requires Lexer.AllWellFormed(ts) && ParseExpression(ts).Ok?
    ensures WellFormedExpr(ParseExpression(ts).value.0)
    decreases |ts|, 2
  {
    TermWellFormed(ts);
    var rest := ParseTerm(ts).value.1;
    if |rest| > 0 && (rest[0] == AddOp || rest[0] == SubtractOp) {
      RestWellFormed(rest, ts);
      RestWellFormed(rest[1..], rest);
      TermWellFormed(rest[1..]);
    }
  }

  lemma {:induction false} TermWellFormed(ts: seq<Token>)
    requires Lexer.AllWellFormed(ts) && ParseTerm(ts).Ok?
    ensures WellFormedExpr(ParseTerm(ts).value.0)
    decreases |ts|, 1
  {
    FactorWellFormed(ts);
    var rest := ParseFactor(ts).value.1;
    if |rest| > 0 && (rest[0] == MultiplyOp || rest[0] == DivideOp) {
      RestWellFormed(rest, ts);
      RestWellFormed(rest[1..], rest);
      TermWellFormed(rest[1..]);
    }
  }

  lemma {:induction false} FactorWellFormed(ts: seq<Token>)
    requires Lexer.AllWellFormed(ts) && ParseFactor(ts).Ok?
    ensures WellFormedExpr(ParseFactor(ts).value.0)
    decreases |ts|, 0
  {
    assert Lexer.WellFormed(ts[0]);
    if ts[0] == OpenParen {
      RestWellFormed(ts[1..], ts);
      ExpressionWellFormed(ts[1..]);
    }
  }

  /** Parsing the tokenizer's output yields a tree whose leaves are well formed. */
  lemma ParseWellFormed(src: string)
    requires Parse(src).Ok?
    ensures WellFormedExpr(Parse(src).value.expression)
  {
    Lexer.TokenizeWellFormed(src, 0);
    ExpressionWellFormed(Lexer.TokenizeFrom(src, 0).value);
  }
}
