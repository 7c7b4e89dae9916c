/** Tokens and expressions of the restricted expression language. Source offsets of expressions are not modelled. */
module CelSyntax {

  datatype Kind = Identifier | StringLiteral | NumberLiteral | Operator | Punctuation | Eof

  datatype Token = Token(kind: Kind, value: string)

  datatype Literal = Text(text: string) | Number(lexeme: string) | Boolean(truth: bool) | Null

  datatype UnaryOp = Not | Minus | Plus

  datatype BinaryOp = Or | And | Eq | Ne | Lt | Le | Gt | Ge | Add | Sub | Mul | Div | Mod

  datatype Expr =
    | Lit(literal: Literal)
    | Input
    | Array(elements: seq<Expr>)
    | Object(entries: seq<Entry>)
    | Unary(unaryOp: UnaryOp, operand: Expr)
    | Binary(binaryOp: BinaryOp, left: Expr, right: Expr)
    | Conditional(condition: Expr, whenTrue: Expr, whenFalse: Expr)

  datatype Entry = Entry(key: string, value: Expr)

  const END := Token(Eof, "")

  function Symbol(op: BinaryOp): string {
    match op
    case Or => "||" case And => "&&" case Eq => "==" case Ne => "!="
    case Lt => "<" case Le => "<=" case Gt => ">" case Ge => ">="
    case Add => "+" case Sub => "-" case Mul => "*" case Div => "/" case Mod => "%"
  }

  function UnarySymbol(op: UnaryOp): string {
    match op case Not => "!" case Minus => "-" case Plus => "+"
  }

  /** Precedence levels: 0 conditional, 1..6 the binary levels, 7 unary, 8 primary. */
  const CONDITIONAL := 0
  const UNARY := 7
  const PRIMARY := 8

  function Level(op: BinaryOp): (level: nat)
    ensures 1 <= level <= 6
  {
    match op
    case Or => 1
    case And => 2
    case Eq => 3 case Ne => 3
    case Lt => 4 case Le => 4 case Gt => 4 case Ge => 4
    case Add => 5 case Sub => 5
    case Mul => 6 case Div => 6 case Mod => 6
  }

  /** The operators of a level that a symbol can stand for. */
  predicate IsOperatorOf(value: string, level: nat) {
    match level
    case 1 => value == "||"
    case 2 => value == "&&"
    case 3 => value == "==" || value == "!="
    case 4 => value == "<" || value == "<=" || value == ">" || value == ">="
    case 5 => value == "+" || value == "-"
    case 6 => value == "*" || value == "/" || value == "%"
    case _ => false
  }

  function OperatorOf(value: string): BinaryOp {
    if value == "||" then Or else if value == "&&" then And
    else if value == "==" then Eq else if value == "!=" then Ne
    else if value == "<" then Lt else if value == "<=" then Le
    else if value == ">" then Gt else if value == ">=" then Ge
    else if value == "+" then Add else if value == "-" then Sub
    else if value == "*" then Mul else if value == "/" then Div else Mod
  }

  lemma {:induction false} SymbolsAreDistinct(op: BinaryOp, level: nat)
    ensures OperatorOf(Symbol(op)) == op
    ensures IsOperatorOf(Symbol(op), level) <==> level == Level(op)
  {
  }
}
