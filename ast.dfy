/**
 * The parse tree (calc.js, lines 117-217): a number, `[REFERENCE, "$name"]` or
 * `[op, left, right]`, and the program record with its optional quantities list.
 */
module Ast {
  import opened Base

  datatype Op = Multiply | Divide | Add | Subtract

  datatype Expr =
    /** A NUMBER leaf, kept as the lexeme it was read from. */
    | Num(lexeme: string)
    /** A REFERENCE leaf; the name keeps its leading `$`. */
    | Ref(name: string)
    | App(op: Op, left: Expr, right: Expr)

  /**
   * `{ value, units }`: `value` is the NUMBER lexeme (absent for a bare unit) and `units` the
   * `value` of the token after it (absent when that token carries none).
   */
  datatype Quantity = Quantity(value: Option<string>, units: Option<string>)

  /** `{ expression, quantities }`; `quantities` is null when there is no `in` clause. */
  datatype Program = Program(expression: Expr, quantities: Option<seq<Quantity>>)

  /** `name.slice(1)`: the environment key of a reference, its name without the `$`. */
  function RefKey(name: string): (k: string)
    ensures |name| > 0 ==> [name[0]] + k == name
    ensures |name| == 0 ==> k == ""
  {
    if |name| == 0 then "" else name[1..]
  }

  /** The environment keys an expression looks up. */
  function RefKeys(e: Expr): set<string>
  {
    match e
    case Num(_) => {}
    case Ref(name) => {RefKey(name)}
    case App(_, left, right) => RefKeys(left) + RefKeys(right)
  }

  /** Every quantity has the `units` of the first; this is what "You can't mix units" demands. */
  predicate UniformUnits(qs: seq<Quantity>)
  {
    forall i :: 0 <= i < |qs| ==> qs[i].units == qs[0].units
  }

  /** The `value` of every quantity, in source order. */
  function Values(qs: seq<Quantity>): seq<Option<string>>
  {
    seq(|qs|, i requires 0 <= i < |qs| => qs[i].value)
  }
}
