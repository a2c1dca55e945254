/**
 * The string-emitting back end of calc.js (lines 229-289): `compileExpression`, `compileApp`
 * and `compileOp` write a fully parenthesised JavaScript expression, and `compileCalc` wraps it
 * in a function source.  A reader for the emitted expression syntax is the compiler's inverse:
 * reading back what was written recovers the tree, so the code has the evaluator's structure.
 */
module Compiler {
  import opened Base
  import opened Ast
  import opened Scanners
  import opened Tokens
  import Lexer
  import Grammar
  import Evaluator
  import Parser

  /** The JavaScript operator `compileApp` writes for each node. */
  function OpSymbol(op: Op): (c: char)
    ensures IsBoundary(c)
  {
    match op
    case Multiply => '*'
    case Divide => '/'
    case Add => '+'
    case Subtract => '-'
  }

  /**
   * `compileExpression`: a NUMBER leaf writes its lexeme, a reference `env.` and its name without
   * the `$`, and an operation `(` left, operator, right `)`.
   */
  function CompileExpression(e: Expr): (s: string)
    ensures Grammar.WellFormedExpr(e) ==> |s| > 0 && (s[0] == '(' <==> e.App?)
  {
    match e
    case Num(lexeme) => lexeme
    case Ref(name) => "env." + RefKey(name)
    case App(op, left, right) => "(" + CompileExpression(left) + [OpSymbol(op)] + CompileExpression(right) + ")"
  }

  function SymbolOp(c: char): Option<Op>
  {
    if c == '*' then Some(Multiply)
    else if c == '/' then Some(Divide)
    else if c == '+' then Some(Add)
    else if c == '-' then Some(Subtract)
    else None
  }

  /** Reads one emitted expression from the front of `code`, returning the tree and what follows it. */
  function ReadCode(code: string): (r: Result<(Expr, string)>)
    ensures r.Ok? ==> |r.value.1| < |code|
    decreases |code|, 1
  {
    if |code| == 0 then Err(UnexpectedEnd)
    else if code[0] == '(' then ReadOperation(code[1..])
    else ReadLeaf(code)
  }

  /** After a `(`: the left operand, an operator, the right operand and the closing `)`. */
  function ReadOperation(code: string): (r: Result<(Expr, string)>)
    ensures r.Ok? ==> |r.value.1| < |code|
    decreases |code|, 2
  {
    match ReadCode(code)
    case Err(err) => Err(err)
    case Ok((left, rest)) =>
      if |rest| == 0 || SymbolOp(rest[0]).None? then Err(CouldNotParse(rest))
      else
        match ReadCode(rest[1..])
        case Err(err) => Err(err)
        case Ok((right, rest2)) =>
          if |rest2| == 0 || rest2[0] != ')' then Err(ExpectedCloseParen)
          else Ok((App(SymbolOp(rest[0]).value, left, right), rest2[1..]))
  }

  /** `code` starts with `env.`. */
  predicate StartsEnv(code: string)
  {
    |code| >= 4 && code[0] == 'e' && code[1] == 'n' && code[2] == 'v' && code[3] == '.'
  }

  /**
   * `env.` and a property name, or a number.  A JavaScript property access needs an identifier
   * after the dot, so a name starting with a digit is not read.
   */
  function ReadLeaf(code: string): (r: Result<(Expr, string)>)
    ensures r.Ok? ==> |r.value.1| < |code|
  {
    if StartsEnv(code) then
      var n := RunEnd(code, 4, IsWordChar);
      if n == 4 || IsDigit(code[4]) then Err(CouldNotParse(code)) else Ok((Ref("$" + code[4..n]), code[n..]))
    else
      var n := NumberMatch(code);
      if n == 0 then Err(CouldNotParse(code)) else Ok((Num(code[..n]), code[n..]))
  }

  /** Reads a whole emitted expression. */
  function Decompile(code: string): Result<Expr>
  {
    match ReadCode(code)
    case Err(err) => Err(err)
    case Ok((e, rest)) => if rest == [] then Ok(e) else Err(UnconsumedInput)
  }

  /**
   * Every reference's name continues after the `$` as a JavaScript identifier does, not with a
   * digit, so the `env.` access written for it is well-formed code.
   */
  predicate DotAccessible(e: Expr)
  {
    match e
    case Num(_) => true
    case Ref(name) => |name| >= 2 && !IsDigit(name[1])
    case App(_, left, right) => DotAccessible(left) && DotAccessible(right)
  }

  predicate EndsToken(rest: string)
  {
    rest == [] || IsBoundary(rest[0])
  }

  lemma NumberLeafRead(lexeme: string, rest: string)
    requires Grammar.WellFormedExpr(Num(lexeme)) && EndsToken(rest)
    ensures ReadCode(lexeme + rest) == Ok((Num(lexeme), rest))
  {
    var t := lexeme + rest;
    NumberStable(lexeme, t);
    assert t[0] == lexeme[0];
    assert !StartsEnv(t);
    assert t[..|lexeme|] == lexeme && t[|lexeme|..] == rest;
    assert ReadLeaf(t) == Ok((Num(lexeme), rest));
  }

  lemma ReferenceLeafRead(name: string, rest: string)
    requires Grammar.WellFormedExpr(Ref(name)) && DotAccessible(Ref(name)) && EndsToken(rest)
    ensures ReadCode(CompileExpression(Ref(name)) + rest) == Ok((Ref(name), rest))
  {
    var key := RefKey(name);
    var h := "env." + key;
    var t := h + rest;
    assert forall k :: 4 <= k < |h| ==> h[k] == name[k - 3];
    assert RunEnd(h, 4, IsWordChar) == |h|;
    RunStable(h, t, 4, IsWordChar);
    assert StartsEnv(t);
    assert t[4..|h|] == key && t[|h|..] == rest;
    assert "$" + key == name;
    assert ReadLeaf(t) == Ok((Ref(name), rest));
  }

  /** One step of the reader on an emitted operation, given what it reads for the two operands. */
  lemma ReadOperationStep(op: Op, left: Expr, right: Expr, l: string, r: string, rest: string)
    requires ReadCode(l + ([OpSymbol(op)] + (r + (")" + rest)))) == Ok((left, [OpSymbol(op)] + (r + (")" + rest))))
    requires ReadCode(r + (")" + rest)) == Ok((right, ")" + rest))
    ensures ReadCode("(" + (l + ([OpSymbol(op)] + (r + (")" + rest))))) == Ok((App(op, left, right), rest))
  {
    var afterRight := ")" + rest;
    var afterLeft := [OpSymbol(op)] + (r + afterRight);
    var code := "(" + (l + afterLeft);
    assert code[1..] == l + afterLeft;
    assert afterLeft[1..] == r + afterRight;
    assert SymbolOp(OpSymbol(op)) == Some(op);
    assert afterRight[1..] == rest;
    assert ReadOperation(l + afterLeft) == Ok((App(op, left, right), rest));
  }

  lemma OperationCode(op: Op, left: Expr, right: Expr, rest: string)
    ensures CompileExpression(App(op, left, right)) + rest ==
      "(" + (CompileExpression(left) + ([OpSymbol(op)] + (CompileExpression(right) + (")" + rest))))
  {
    var l := CompileExpression(left);
    var r := CompileExpression(right);
    var s := [OpSymbol(op)];
    assert "(" + l + s + r + ")" + rest == "(" + (l + (s + (r + (")" + rest))));
  }

  /** Reading back the code for a parsed tree, followed by any operator, `)` or nothing, gives the tree. */
  lemma {:induction false} ReadCompiled(e: Expr, rest: string)
    requires Grammar.WellFormedExpr(e) && DotAccessible(e) && EndsToken(rest)
    ensures ReadCode(CompileExpression(e) + rest) == Ok((e, rest))
  {
    match e
    case Num(lexeme) =>
      NumberLeafRead(lexeme, rest);
    case Ref(name) =>
      ReferenceLeafRead(name, rest);
    case App(op, left, right) =>
      var l := CompileExpression(left);
      var r := CompileExpression(right);
      var afterRight := ")" + rest;
      var afterLeft := [OpSymbol(op)] + (r + afterRight);
      assert afterLeft[0] == OpSymbol(op) && afterRight[0] == ')';
      ReadCompiled(left, afterLeft);
      ReadCompiled(right, afterRight);
      ReadOperationStep(op, left, right, l, r, rest);
      OperationCode(op, left, right, rest);
  }

  /** The compiler's inverse: the code for every parsed tree decompiles to that tree. */
  lemma DecompileCompiled(e: Expr)
    requires Grammar.WellFormedExpr(e) && DotAccessible(e)
    ensures Decompile(CompileExpression(e)) == Ok(e)
  {
    ReadCompiled(e, "");
    assert CompileExpression(e) + "" == CompileExpression(e);
  }

  /** Different parsed trees compile to different code. */
  lemma CompileIsInjective(e1: Expr, e2: Expr)
    requires Grammar.WellFormedExpr(e1) && Grammar.WellFormedExpr(e2)
    requires DotAccessible(e1) && DotAccessible(e2)
    requires CompileExpression(e1) == CompileExpression(e2)
    ensures e1 == e2
  {
    DecompileCompiled(e1);
    DecompileCompiled(e2);
  }

  /**
   * A corollary of `DecompileCompiled`: the compiled code means what the evaluator computes,
   * since the tree read back from the code evaluates, in every environment, to the value of
   * the original tree.
   */
  lemma CompiledAgreesWithEvaluator(e: Expr, env: Evaluator.Env)
    requires Grammar.WellFormedExpr(e) && DotAccessible(e)
    ensures Decompile(CompileExpression(e)).Ok?
    ensures Evaluator.Eval(Decompile(CompileExpression(e)).value, env) == Evaluator.Eval(e, env)
  {
    DecompileCompiled(e);
  }

  /**
   * `$1` is a reference (the pattern takes any word character after the `$`) that the evaluator
   * looks up as the key `1`, but the compiler writes it as `env.1`, which is not a property
   * access and which the reader rejects.
   */
  lemma DigitReferenceExample()
    ensures Lexer.TokenizeFrom("$1", 0) == Ok([Reference("$1")])
    ensures Evaluator.Eval(Ref("$1"), map["1" := 2.0]) == Ok(2.0)
    ensures CompileExpression(Ref("$1")) == "env.1"
    ensures Decompile("env.1").Err?
  {
    var s := "$1";
    DigitReferenceToken(s);
    assert Lexer.TokenizeFrom(s, 2) == Ok([]);
    assert [Reference(s)] + [] == [Reference(s)];
    assert RefKey(s) == "1";
  }

  lemma DigitReferenceToken(s: string)
    requires s == "$1"
    ensures Lexer.ReadToken(s, 0) == Ok((Some(Reference(s)), 2))
  {
    Lexer.FirstLiteralIff(s);
    assert NumberMatch(s) == 0 && ReferenceMatch(s) == 2;
    assert s[0..] == s && s[..2] == s;
  }

  /** `a x b / c` is written `(a*(b/c))`. */
  lemma CompileExample()
    ensures CompileExpression(App(Multiply, Ref("$a"), App(Divide, Num("2"), Num("0.5")))) == "(env.a*(2/0.5))"
  {
  }

  /** How `[...].join` writes a possibly undefined string: undefined as nothing. */
  function JoinText(o: Option<string>): string
  {
    if o.Some? then o.value else ""
  }

  /** `unit || 'null'`. */
  function OrNull(o: Option<string>): string
  {
    if o.Some? && o.value != "" then o.value else "null"
  }

  /** `qtys.join(', ')`. */
  function JoinValues(vs: seq<Option<string>>): string
  {
    if |vs| == 0 then ""
    else if |vs| == 1 then JoinText(vs[0])
    else JoinText(vs[0]) + ", " + JoinValues(vs[1..])
  }

  /**
   * `q.unit`, as `compileCalc` reads it: the parser builds quantities with `value` and
   * `units` only, so the property is always undefined.
   */
  function UnitProperty(q: Quantity): Option<string>
  {
    None
  }

  /** The function source for a one-value result: `[{ value: ... }]`. */
  function ValueCode(code: string): string
  {
    "function (env) { return [{ value: " + code + " }]; }"
  }

  /** The function source for a value with a unit: `[{ units: ..., value: ... }]`. */
  function UnitCode(units: Option<string>, code: string): string
  {
    "function (env) { return [{ units: " + JoinText(units) + ", value: " + code + " }]; }"
  }

  /** The function source that hands the value to `split`. */
  function SplitCode(code: string, values: seq<Option<string>>, unit: Option<string>): string
  {
    "function (env) { return split(" + code + ", [" + JoinValues(values) + "], " + OrNull(unit) + ");}"
  }

  /**
   * What `compileCalc` returns, as written (calc.js, lines 229-252).  Reading `quantities[0]`
   * of an empty list fails like any other dereference of a missing value.
   */
  function CompileProgram(p: Program): (r: Result<string>)
    ensures r.Err? <==> p.quantities.Some? && |p.quantities.value| == 0
    ensures r.Err? ==> r.error == UnexpectedEnd
  {
    var code := CompileExpression(p.expression);
    match p.quantities
    case None => Ok(ValueCode(code))
    case Some(qs) =>
      if |qs| == 0 then Err(UnexpectedEnd)
      else if qs[0].value.None? then Ok(UnitCode(qs[0].units, code))
      else Ok(SplitCode(code, Values(qs), UnitProperty(qs[0])))
  }

  /**
   * `compileCalc`: the `while (i--)` loop copies every quantity's value into `qtys`, from the
   * last to the first, after the mixed-unit assertion on `.unit`, which compares undefined with
   * undefined and so never fails.
   */
  method CompileCalc(p: Program) returns (r: Result<string>)
    ensures r == CompileProgram(p)
  {
    var code := CompileExpression(p.expression);
    if p.quantities.None? {
      return Ok(ValueCode(code));
    }
    var qs := p.quantities.value;
    if |qs| == 0 {
      return Err(UnexpectedEnd);
    }
    if qs[0].value.None? {
      return Ok(UnitCode(qs[0].units, code));
    }
    var i := |qs|;
    var unit := UnitProperty(qs[0]);
    var qtys := new Option<string>[|qs|];
    while i > 0
      invariant 0 <= i <= |qs|
      invariant forall k :: i <= k < |qs| ==> qtys[k] == qs[k].value
      decreases i
    {
      i := i - 1;
      assert UnitProperty(qs[i]) == unit;
      qtys[i] := qs[i].value;
    }
    assert qtys[..] == Values(qs);
    return Ok(SplitCode(code, qtys[..], unit));
  }

  /** `Calc.compile`: parse the source, then compile the tree. */
  function CompileSource(src: string): Result<string>
  {
    match Grammar.Parse(src)
    case Err(err) => Err(err)
    case Ok(p) => CompileProgram(p)
  }

  method Compile(src: string) returns (r: Result<string>)
    ensures r == CompileSource(src)
  {
    var tree := Parser.Parse(src);
    if tree.Err? {
      return Err(tree.error);
    }
    r := CompileCalc(tree.value);
  }

  /**
   * As written, the split form of the compiled code cannot see any quantity's units: two
   * programs that differ only in their units compile to the same source, mixed or not.
   */
  lemma CompileIgnoresUnits(p1: Program, p2: Program)
    requires p1.expression == p2.expression
    requires p1.quantities.Some? && p2.quantities.Some?
    requires |p1.quantities.value| > 0 && p1.quantities.value[0].value.Some?
    requires Values(p1.quantities.value) == Values(p2.quantities.value)
    ensures CompileProgram(p1) == CompileProgram(p2)
    ensures CompileProgram(p1).Ok?
  {
    assert p2.quantities.value[0].value == Values(p2.quantities.value)[0];
  }

  /** Metres and kilograms side by side compile without complaint, and the unit written is `null`. */
  lemma MixedUnitsCompile()
    ensures CompileProgram(Program(Num("1"), Some([Quantity(Some("2"), Some("m")), Quantity(Some("3"), Some("kg"))])))
      == Ok(SplitCode("1", [Some("2"), Some("3")], None))
    ensures JoinValues([Some("2"), Some("3")]) == "2, 3" && OrNull(None) == "null"
  {
    var qs := [Quantity(Some("2"), Some("m")), Quantity(Some("3"), Some("kg"))];
    assert Values(qs) == [Some("2"), Some("3")];
    assert JoinValues([Some("2"), Some("3")]) == "2, 3";
    var p := Program(Num("1"), Some(qs));
    assert CompileExpression(Num("1")) == "1";
    assert CompileProgram(p) == Ok(SplitCode("1", Values(qs), UnitProperty(qs[0])));
  }

  /**
   * `compileCalc` as evidently intended: the mixed-unit check and the emitted unit read the
   * `units` property that the parser fills in, as `render` does.
   */
  function CompileProgramChecked(p: Program): (r: Result<string>)
    ensures r.Err? ==> r.error == UnexpectedEnd || r.error == MixedUnits
    ensures CompileProgram(p).Err? ==> r == CompileProgram(p)
  {
    var code := CompileExpression(p.expression);
    match p.quantities
    case None => Ok(ValueCode(code))
    case Some(qs) =>
      if |qs| == 0 then Err(UnexpectedEnd)
      else if qs[0].value.None? then Ok(UnitCode(qs[0].units, code))
      else if !UniformUnits(qs) then Err(MixedUnits)
      else Ok(SplitCode(code, Values(qs), qs[0].units))
  }

  /**
   * The corrected compiler rejects a split exactly when the quantities mix units, writes the
   * shared unit otherwise, and agrees with the code as written whenever no units are given.
   */
  lemma CheckedCompileRejectsMixedUnits(p: Program)
    requires p.quantities.Some? && |p.quantities.value| > 0 && p.quantities.value[0].value.Some?
    ensures CompileProgramChecked(p) == Err(MixedUnits) <==> !UniformUnits(p.quantities.value)
    ensures UniformUnits(p.quantities.value) ==>
      CompileProgramChecked(p) == Ok(SplitCode(CompileExpression(p.expression), Values(p.quantities.value), p.quantities.value[0].units))
    ensures (forall i :: 0 <= i < |p.quantities.value| ==> p.quantities.value[i].units.None?) ==>
      CompileProgramChecked(p) == CompileProgram(p)
  {
  }
}
