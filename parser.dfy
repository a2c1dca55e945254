/**
 * The parser of calc.js (lines 117-217) as it is written: an object holding the token queue,
 * whose parse methods consume it from the front with `shift()`.  Every method is proved to
 * compute what the corresponding function of the Grammar module computes, leaving in the
 * queue exactly the tokens that function hands back.
 */
module Parser {
  import opened Base
  import opened Tokens
  import opened Ast
  import Lexer
  import Grammar

  /** A method's result paired with the queue it leaves behind; failures carry no queue. */
  function WithRest<T>(r: Result<T>, rest: seq<Token>): (p: Result<(T, seq<Token>)>)
    ensures p.Ok? <==> r.Ok?
    ensures p.Err? ==> p.error == r.error
    ensures p.Ok? ==> p.value.0 == r.value && p.value.1 == rest
  {
    match r
    case Ok(v) => Ok((v, rest))
    case Err(e) => Err(e)
  }

  /** The outcome of the comma loop of `parseCalc` with the quantities `done` already in front. */
  function PrependAll(done: seq<Quantity>, more: Result<(seq<Quantity>, seq<Token>)>): (p: Result<(seq<Quantity>, seq<Token>)>)
    ensures p.Ok? <==> more.Ok?
    ensures p.Ok? ==> p.value.0 == done + more.value.0 && p.value.1 == more.value.1
  {
    match more
    case Err(e) => Err(e)
    case Ok((qs, rest)) => Ok((done + qs, rest))
  }

  class Parser {
    /** The shared token array that every parse function shifts from. */
    var tokens: seq<Token>

    constructor (ts: seq<Token>)
      ensures tokens == ts
    {
      tokens := ts;
    }

    /** `tokens.shift()`: removes and returns the first token, or nothing when the queue is empty. */
    method Shift() returns (t: Option<Token>)
      modifies this
      ensures old(tokens) == [] ==> t == None && tokens == []
      ensures old(tokens) != [] ==> t == Some(old(tokens)[0]) && tokens == old(tokens)[1..]
    {
      if |tokens| == 0 {
        t := None;
      } else {
        t := Some(tokens[0]);
        tokens := tokens[1..];
      }
    }

    /** `parseExpression`: a term and at most one further `+`/`-` term. */
    method ParseExpression() returns (r: Result<Expr>)
      modifies this
      ensures Grammar.ParseExpression(old(tokens)) == WithRest(r, tokens)
      decreases |tokens|, 2
    {
      var left := ParseTerm();
      if left.Err? {
        return left;
      }
      if |tokens| > 0 && (tokens[0] == AddOp || tokens[0] == SubtractOp) {
        var op := Shift();
        var right := ParseTerm();
        if right.Err? {
          return right;
        }
        return Ok(App(Grammar.OpOf(op.value), left.value, right.value));
      }
      return left;
    }

    /** `parseTerm`: a factor, then optionally `x` or `/` and another term. */
    method ParseTerm() returns (r: Result<Expr>)
      modifies this
      ensures Grammar.ParseTerm(old(tokens)) == WithRest(r, tokens)
      decreases |tokens|, 1
    {
      var left := ParseFactor();
      if left.Err? {
        return left;
      }
      if |tokens| > 0 && (tokens[0] == MultiplyOp || tokens[0] == DivideOp) {
        var op := Shift();
        var right := ParseTerm();
        if right.Err? {
          return right;
        }
        return Ok(App(Grammar.OpOf(op.value), left.value, right.value));
      }
      return left;
    }

    /** `parseFactor`: switches on the type of the first token. */
    method ParseFactor() returns (r: Result<Expr>)
      modifies this
      ensures Grammar.ParseFactor(old(tokens)) == WithRest(r, tokens)
      decreases |tokens|, 0
    {
      if |tokens| == 0 {
        return Err(UnexpectedEnd);
      }
      match tokens[0]
      case Reference(name) =>
        var t := Shift();
        return Ok(Ref(name));
      case Number(lexeme) =>
        var t := Shift();
        return Ok(Num(lexeme));
      case OpenParen =>
        var open := Shift();
        var value := ParseExpression();
        if value.Err? {
          return value;
        }
        var close := Shift();
        if close.None? {
          return Err(UnexpectedEnd);
        } else if close.value != CloseParen {
          return Err(ExpectedCloseParen);
        }
        return value;
      case t =>
        return Err(CouldNotParse(t.TypeName()));
    }

    /** `parseQuantity`: a NUMBER and the value of the token after it, or a lone UNIT. */
    method ParseQuantity() returns (r: Result<Quantity>)
      modifies this
      ensures Grammar.ParseQuantity(old(tokens)) == WithRest(r, tokens)
    {
      var first := Shift();
      if first.None? {
        return Err(UnexpectedEnd);
      }
      match first.value
      case Number(lexeme) =>
        var second := Shift();
        if second.None? {
          return Err(UnexpectedEnd);
        }
        return Ok(Quantity(Some(lexeme), second.value.Value()));
      case Unit(u) =>
        return Ok(Quantity(None, Some(u)));
      case _ =>
        return Err(QuantityExpected);
    }

    /**
     * The `while (tokens.length > 0)` loop of `parseCalc`: each round shifts a comma and parses
     * a quantity, appended to `unitlist` (which starts as `done`) in source order.
     */
    method ParseMoreQuantities(done: seq<Quantity>) returns (r: Result<seq<Quantity>>)
      modifies this
      ensures PrependAll(done, Grammar.ParseMoreQuantities(old(tokens))) == WithRest(r, tokens)
    {
      var unitlist := done;
      while |tokens| > 0
        invariant PrependAll(done, Grammar.ParseMoreQuantities(old(tokens))) ==
                  PrependAll(unitlist, Grammar.ParseMoreQuantities(tokens))
        decreases |tokens|
      {
        var comma := Shift();
        if comma.value != Comma {
          return Err(ExpectedComma);
        }
        var q := ParseQuantity();
        if q.Err? {
          return Err(q.error);
        }
        var before := unitlist;
        unitlist := before + [q.value];
        match Grammar.ParseMoreQuantities(tokens)
        case Err(_) =>
        case Ok((qs, rest)) =>
          assert before + ([q.value] + qs) == unitlist + qs;
      }
      assert unitlist + [] == unitlist;
      return Ok(unitlist);
    }

    /**
     * `parseCalc`: the expression; then, when tokens remain, the `in` keyword, a first quantity
     * and the comma loop.  With no tokens left the loop does not run and `quantities` is null.
     */
    method ParseCalc() returns (r: Result<Program>)
      modifies this
      ensures Grammar.ParseCalc(old(tokens)) == WithRest(r, tokens)
    {
      var expr := ParseExpression();
      if expr.Err? {
        return Err(expr.error);
      }
      if |tokens| > 0 {
        var kw := Shift();
        if kw.value != UnitsKw {
          return Err(ExpectedUnitsKeyword);
        }
        var q := ParseQuantity();
        if q.Err? {
          return Err(q.error);
        }
        var unitlist := ParseMoreQuantities([q.value]);
        if unitlist.Err? {
          return Err(unitlist.error);
        }
        return Ok(Program(expr.value, Some(unitlist.value)));
      }
      return Ok(Program(expr.value, None));
    }

    /** `Calc.parseTokens`: `parseCalc`, then the check that the queue is empty. */
    method ParseTokens() returns (r: Result<Program>)
      modifies this
      ensures r == Grammar.ParseTokens(old(tokens))
      ensures r.Ok? ==> tokens == []
    {
      r := ParseCalc();
      if r.Ok? && |tokens| != 0 {
        r := Err(UnconsumedInput);
      }
    }
  }

  /** `Calc.parse`: tokenize the source into a fresh queue and parse it. */
  method Parse(src: string) returns (r: Result<Program>)
    ensures r == Grammar.Parse(src)
  {
    var lexed := Lexer.Tokenize(src);
    if lexed.Err? {
      return Err(lexed.error);
    }
    var parser := new Parser(lexed.value);
    r := parser.ParseTokens();
  }
}
