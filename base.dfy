/** Shared result types and the error taxonomy of the Calc core. */
module Base {

  datatype Option<T> = None | Some(value: T)

  /** Every way a Calc call can fail. The messages are the ones the source throws. */
  datatype Error =
    /** "Couldn't tokenize ... @ i'c'": no rule matches character `ch` at offset `pos`. */
    | CouldNotTokenize(pos: nat, ch: char)
    /** 'expected "in" keyword': tokens remain after the expression and the next is not `in`. */
    | ExpectedUnitsKeyword
    /** 'Should have consumed all the tokens' after a complete parse. */
    | UnconsumedInput
    /** 'expected comma' between two quantities. */
    | ExpectedComma
    /** 'expecting closing paren' after a parenthesised expression. */
    | ExpectedCloseParen
    /** 'Quantity Expected': a quantity starts with neither NUMBER nor UNIT. */
    | QuantityExpected
    /** "Couldn't parse T": a factor starts with a token of type name `typeName`. */
    | CouldNotParse(typeName: string)
    /** The TypeError the source raises when it reads a token from an empty queue. */
    | UnexpectedEnd
    /** "You can't mix units". */
    | MixedUnits
    /** An environment lookup miss (the host's undefined value becomes an error here). */
    | UndefinedReference(name: string)
    /** Division by zero (the host's Infinity becomes an error here). */
    | DivisionByZero
    /** A NUMBER leaf whose text is not a complete NUMBER lexeme (the host's NaN). */
    | NotANumber(lexeme: string)
    /** The splitter is reached with a target or denomination that is not a whole number:
        the model runs the splitter over integers only. */
    | NotWhole

  datatype Result<T> = Ok(value: T) | Err(error: Error)

  /** `xs` in front of a successful sequence result; a failure passes through. */
  function Prepend<T>(xs: seq<T>, r: Result<seq<T>>): (p: Result<seq<T>>)
    ensures p.Ok? <==> r.Ok?
    ensures p.Err? ==> p.error == r.error
    ensures p.Ok? ==> |p.value| == |xs| + |r.value| && p.value[..|xs|] == xs && p.value[|xs|..] == r.value
  {
    match r
    case Ok(ys) => Ok(xs + ys)
    case Err(e) => Err(e)
  }
}
