/**
 * The tree-walking evaluator `evalExpression`/`evalApp` of calc.js (lines 350-378).  Values are
 * exact reals; the two places where JavaScript would go on with `undefined`, `NaN` or
 * `Infinity` (a key missing from `env`, a zero divisor) are reported as failures instead.
 */
module Evaluator {
  import opened Base
  import opened Ast
  import opened Tokens
  import Numerals
  import Lexer
  import Grammar

  type Env = map<string, real>

  /** One binary operation; `x / 0` is the `DivisionByZero` failure. */
  function Apply(op: Op, a: real, b: real): Result<real>
  {
    match op
    case Multiply => Ok(a * b)
    case Divide => if b == 0.0 then Err(DivisionByZero) else Ok(a / b)
    case Add => Ok(a + b)
    case Subtract => Ok(a - b)
  }

  /** `evalExpression`: numbers evaluate to their value, references to `env[name.slice(1)]`. */
  function Eval(e: Expr, env: Env): (r: Result<real>)
    ensures r.Err? ==> r.error.UndefinedReference? || r.error == DivisionByZero || r.error.NotANumber?
  {
    match e
    case Num(lexeme) => Numerals.LiteralValue(lexeme)
    case Ref(name) =>
      var key := RefKey(name);
      if key in env then Ok(env[key]) else Err(UndefinedReference(key))
    case App(op, left, right) =>
      match Eval(left, env)
      case Err(err) => Err(err)
      case Ok(a) =>
        match Eval(right, env)
        case Err(err) => Err(err)
        case Ok(b) => Apply(op, a, b)
  }

  /** Only the keys the expression mentions matter: environments that agree on them agree on the result. */
  lemma {:induction false} EvalDependsOnlyOnRefKeys(e: Expr, env1: Env, env2: Env)
    requires forall k :: k in RefKeys(e) ==> (k in env1 <==> k in env2)
    requires forall k :: k in RefKeys(e) && k in env1 ==> env1[k] == env2[k]
    ensures Eval(e, env1) == Eval(e, env2)
  {
    match e
    case Num(_) =>
    case Ref(name) =>
      assert RefKey(name) in RefKeys(e);
    case App(_, left, right) =>
      EvalDependsOnlyOnRefKeys(left, env1, env2);
      EvalDependsOnlyOnRefKeys(right, env1, env2);
  }

  /** An undefined-reference failure names a key the expression mentions and `env` lacks. */
  lemma {:induction false} UndefinedReferenceIsMentioned(e: Expr, env: Env, key: string)
    requires Eval(e, env) == Err(UndefinedReference(key))
    ensures key in RefKeys(e) && key !in env
  {
    match e
    case Num(lexeme) =>
    case Ref(name) =>
    case App(op, left, right) =>
      if Eval(left, env).Err? {
        UndefinedReferenceIsMentioned(left, env, key);
      } else if Eval(right, env).Err? {
        UndefinedReferenceIsMentioned(right, env, key);
      }
  }

  /**
   * The converse: a mentioned key that `env` lacks always makes the evaluation fail, and in a
   * parsed tree without division the failure is an undefined reference.
   */
  lemma {:induction false} MissingKeyFails(e: Expr, env: Env, key: string)
    requires key in RefKeys(e) && key !in env
    ensures Eval(e, env).Err?
    ensures Grammar.WellFormedExpr(e) && DivisionFree(e) ==> Eval(e, env).error.UndefinedReference?
  {
    match e
    case Num(_) =>
    case Ref(name) =>
    case App(op, left, right) =>
      if key in RefKeys(left) {
        MissingKeyFails(left, env, key);
      } else {
        MissingKeyFails(right, env, key);
        if Grammar.WellFormedExpr(e) && DivisionFree(e) && Eval(left, env).Err? {
          DivisionFreeFailsByReference(left, env);
        }
      }
  }

  /** A parsed tree without division fails, if at all, on an undefined reference. */
  lemma {:induction false} DivisionFreeFailsByReference(e: Expr, env: Env)
    requires Grammar.WellFormedExpr(e) && DivisionFree(e) && Eval(e, env).Err?
    ensures Eval(e, env).error.UndefinedReference?
  {
    match e
    case Num(_) =>
    case Ref(_) =>
    case App(op, left, right) =>
      if Eval(left, env).Err? {
        DivisionFreeFailsByReference(left, env);
      } else {
        DivisionFreeFailsByReference(right, env);
      }
  }

  /**
   * A parsed tree whose references are all bound evaluates, or fails only on a zero divisor:
   * its NUMBER leaves always denote numbers.
   */
  lemma {:induction false} BoundTreeFailsOnlyByDivision(e: Expr, env: Env)
    requires Grammar.WellFormedExpr(e)
    requires forall k :: k in RefKeys(e) ==> k in env
    ensures Eval(e, env).Err? ==> Eval(e, env).error == DivisionByZero
  {
    match e
    case Num(lexeme) =>
      assert Numerals.IsNumberLexeme(lexeme);
    case Ref(name) =>
      assert RefKey(name) in RefKeys(e);
    case App(op, left, right) =>
      BoundTreeFailsOnlyByDivision(left, env);
      BoundTreeFailsOnlyByDivision(right, env);
  }

  /** A tree without division whose references are all bound always evaluates. */
  lemma {:induction false} DivisionFreeTreeEvaluates(e: Expr, env: Env)
    requires Grammar.WellFormedExpr(e) && DivisionFree(e)
    requires forall k :: k in RefKeys(e) ==> k in env
    ensures Eval(e, env).Ok?
  {
    match e
    case Num(lexeme) =>
      assert Numerals.IsNumberLexeme(lexeme);
    case Ref(name) =>
      assert RefKey(name) in RefKeys(e);
    case App(op, left, right) =>
      DivisionFreeTreeEvaluates(left, env);
      DivisionFreeTreeEvaluates(right, env);
  }

  predicate DivisionFree(e: Expr)
  {
    match e
    case Num(_) => true
    case Ref(_) => true
    case App(op, left, right) => op != Divide && DivisionFree(left) && DivisionFree(right)
  }

  /** The value of the program a token list parses to. */
  function EvalTokens(ts: seq<Token>, env: Env): Result<real>
  {
    match Grammar.ParseTokens(ts)
    case Err(err) => Err(err)
    case Ok(p) => Eval(p.expression, env)
  }

  /** A NUMBER leaf written as `String(n)` evaluates to `n`. */
  lemma WholeLeaf(n: nat, lexeme: string, env: Env)
    requires lexeme == Numerals.NatToString(n)
    ensures Eval(Num(lexeme), env) == Ok(n as real)
  {
    Numerals.NatToStringRoundTrip(n);
  }

  /** `5 + 7 x 10` is 75: `x` binds tighter than `+`. */
  lemma PrecedenceExample()
    ensures EvalTokens([Number("5"), AddOp, Number("7"), MultiplyOp, Number("10")], map[]) == Ok(75.0)
  {
    PrecedenceParse();
    PrecedenceValue();
  }

  lemma PrecedenceValue()
    ensures Eval(App(Add, Num("5"), App(Multiply, Num("7"), Num("10"))), map[]) == Ok(75.0)
  {
    assert Numerals.NatToString(10) == "10";
    WholeLeaf(5, "5", map[]);
    WholeLeaf(7, "7", map[]);
    WholeLeaf(10, "10", map[]);
    assert Eval(App(Multiply, Num("7"), Num("10")), map[]) == Ok(70.0);
  }

  lemma PrecedenceParse()
    ensures Grammar.ParseTokens([Number("5"), AddOp, Number("7"), MultiplyOp, Number("10")])
            == Ok(Program(App(Add, Num("5"), App(Multiply, Num("7"), Num("10"))), None))
  {
    var ts := [Number("5"), AddOp, Number("7"), MultiplyOp, Number("10")];
    var tree := App(Add, Num("5"), App(Multiply, Num("7"), Num("10")));
    assert Grammar.ParseTerm(ts[4..]) == Ok((Num("10"), []));
    assert Grammar.ParseTerm(ts[2..]) == Ok((App(Multiply, Num("7"), Num("10")), []));
    assert Grammar.ParseTerm(ts) == Ok((Num("5"), ts[1..]));
    assert Grammar.ParseExpression(ts) == Ok((tree, []));
  }

  /** `(5 + 7) x 10` is 120: a parenthesised sum is a factor. */
  lemma ParenthesesExample()
    ensures EvalTokens([OpenParen, Number("5"), AddOp, Number("7"), CloseParen, MultiplyOp, Number("10")], map[]) == Ok(120.0)
  {
    ParenthesesParse();
    ParenthesesValue();
  }

  lemma ParenthesesValue()
    ensures Eval(App(Multiply, App(Add, Num("5"), Num("7")), Num("10")), map[]) == Ok(120.0)
  {
    assert Numerals.NatToString(10) == "10";
    WholeLeaf(5, "5", map[]);
    WholeLeaf(7, "7", map[]);
    WholeLeaf(10, "10", map[]);
    assert Eval(App(Add, Num("5"), Num("7")), map[]) == Ok(12.0);
  }

  lemma ParenthesesParse()
    ensures Grammar.ParseTokens([OpenParen, Number("5"), AddOp, Number("7"), CloseParen, MultiplyOp, Number("10")])
            == Ok(Program(App(Multiply, App(Add, Num("5"), Num("7")), Num("10")), None))
  {
    var ts := [OpenParen, Number("5"), AddOp, Number("7"), CloseParen, MultiplyOp, Number("10")];
    var sum := App(Add, Num("5"), Num("7"));
    var tree := App(Multiply, sum, Num("10"));
    assert Grammar.ParseTerm(ts[3..]) == Ok((Num("7"), ts[4..]));
    assert Grammar.ParseTerm(ts[1..]) == Ok((Num("5"), ts[2..]));
    assert Grammar.ParseExpression(ts[1..]) == Ok((sum, ts[4..]));
    assert Grammar.ParseFactor(ts) == Ok((sum, ts[5..]));
    assert Grammar.ParseTerm(ts[6..]) == Ok((Num("10"), []));
    assert Grammar.ParseTerm(ts) == Ok((tree, []));
    assert Grammar.ParseExpression(ts) == Ok((tree, []));
  }

  /**
   * `20 / 5 x 2` is 2, not 8: the right-recursive term groups it as `20 / (5 x 2)`.
   */
  lemma RightGroupingExample()
    ensures EvalTokens([Number("20"), DivideOp, Number("5"), MultiplyOp, Number("2")], map[]) == Ok(2.0)
  {
    RightGroupingParse();
    RightGroupingValue();
  }

  lemma RightGroupingValue()
    ensures Eval(App(Divide, Num("20"), App(Multiply, Num("5"), Num("2"))), map[]) == Ok(2.0)
  {
    assert Numerals.NatToString(20) == "20";
    WholeLeaf(20, "20", map[]);
    WholeLeaf(5, "5", map[]);
    WholeLeaf(2, "2", map[]);
    assert Eval(App(Multiply, Num("5"), Num("2")), map[]) == Ok(10.0);
  }

  lemma RightGroupingParse()
    ensures Grammar.ParseTokens([Number("20"), DivideOp, Number("5"), MultiplyOp, Number("2")])
            == Ok(Program(App(Divide, Num("20"), App(Multiply, Num("5"), Num("2"))), None))
  {
    var ts := [Number("20"), DivideOp, Number("5"), MultiplyOp, Number("2")];
    var tree := App(Divide, Num("20"), App(Multiply, Num("5"), Num("2")));
    assert Grammar.ParseTerm(ts[4..]) == Ok((Num("2"), []));
    assert Grammar.ParseTerm(ts[2..]) == Ok((App(Multiply, Num("5"), Num("2")), []));
    assert Grammar.ParseTerm(ts) == Ok((tree, []));
    assert Grammar.ParseExpression(ts) == Ok((tree, []));
  }

  /** A reference reads the environment under its name without the `$`. */
  lemma ReferenceExample()
    ensures Eval(App(Multiply, Ref("$area"), Num("2")), map["area" := 3.5]) == Ok(7.0)
    ensures Eval(Ref("$width"), map["area" := 3.5]) == Err(UndefinedReference("width"))
  {
    Numerals.NatToStringRoundTrip(2);
    assert RefKey("$area") == "area";
    assert RefKey("$width") == "width";
  }
}
