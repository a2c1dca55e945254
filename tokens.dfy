/** The token types and the table of literal tokens (calc.js, lines 38-61). */
module Tokens {
  import opened Base

  /** A token: the literal kinds carry nothing, NUMBER, REFERENCE and UNIT carry their matched text. */
  datatype Token =
    | OpenParen
    | CloseParen
    | Number(lexeme: string)
    | Reference(lexeme: string)
    | DivideOp
    | MultiplyOp
    | AddOp
    | SubtractOp
    | UnitsKw
    | Unit(lexeme: string)
    | Comma
  {
    /** The `type` string of the token; the units keyword's is 'UNIT_KW'. */
    function TypeName(): string {
      match this
      case OpenParen => "OPEN_PAREN"
      case CloseParen => "CLOSE_PAREN"
      case Number(_) => "NUMBER"
      case Reference(_) => "REFERENCE"
      case DivideOp => "DIVIDE_OP"
      case MultiplyOp => "MULTIPLY_OP"
      case AddOp => "ADD_OP"
      case SubtractOp => "SUBTRACT_OP"
      case UnitsKw => "UNIT_KW"
      case Unit(_) => "UNIT"
      case Comma => "COMMA"
    }

    /** The `value` field: present only on the tokens a pattern produced. */
    function Value(): Option<string> {
      match this
      case Number(s) => Some(s)
      case Reference(s) => Some(s)
      case Unit(s) => Some(s)
      case _ => None
    }

    /** The source text the token stands for: its literal, or its matched text. */
    function Text(): string {
      match this
      case OpenParen => "("
      case CloseParen => ")"
      case Number(s) => s
      case Reference(s) => s
      case DivideOp => "/"
      case MultiplyOp => "x"
      case AddOp => "+"
      case SubtractOp => "-"
      case UnitsKw => "in"
      case Unit(s) => s
      case Comma => ","
    }

    predicate IsLiteral() {
      !(Number? || Reference? || Unit?)
    }
  }

  /** The literal tokens in the order the tokenizer tries them. */
  const SimpleTokens: seq<Token> :=
    [DivideOp, MultiplyOp, Comma, AddOp, SubtractOp, OpenParen, CloseParen, UnitsKw]
}
