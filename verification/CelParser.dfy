/**
 The precedence-climbing parser. The functions say what each level makes of the tokens that are left; the class
 `Parser`, with its cursor, is proved to do exactly that.
 */
module CelParser {
  import opened Wrappers
  import opened CelSyntax

  datatype Error =
    | MemberAccess | FunctionCall | UnexpectedToken | UnsafeNumber | UnknownIdentifier
    | KeyIsNotAString | DuplicateKey | Expected(value: string)
    | Misread  // strict grammars only

  datatype Outcome = Parsed(expr: Expr, rest: seq<Token>) | Failed(error: Error)

  /**
   The variable's name, the literals that are JSON-safe, and whether a literal may stand for punctuation. The parser
   compares only the value of a token with the punctuation it looks for, never the kind, so it reads with
   `strict == false`. A strict grammar fails where that makes a difference.
   */
  datatype Grammar = Grammar(variable: string, safe: string -> bool, strict: bool)

  function Current(ts: seq<Token>): Token {
    if ts == [] then END else ts[0]
  }

  predicate IsLeaf(t: Token) {
    t.kind == Identifier || t.kind == StringLiteral || t.kind == NumberLiteral
  }

  /** The next token has this value, whatever its kind. */
  predicate Sees(ts: seq<Token>, value: string)
    ensures Sees(ts, value) && value != "" ==> ts != []
  {
    Current(ts).value == value
  }

  predicate Misreads(g: Grammar, ts: seq<Token>) {
    g.strict && IsLeaf(Current(ts))
  }

  predicate DistinctKeys(entries: seq<Entry>) {
    forall i, j :: 0 <= i < j < |entries| ==> entries[i].key != entries[j].key
  }

  /** What every parsed expression is: its number literals are JSON-safe, and the keys of its objects are distinct. */
  predicate WellBuilt(safe: string -> bool, e: Expr) {
    match e
    case Lit(Number(lexeme)) => safe(lexeme)
    case Lit(_) => true
    case Input => true
    case Array(elements) => forall i :: 0 <= i < |elements| ==> WellBuilt(safe, elements[i])
    case Object(entries) =>
      DistinctKeys(entries) && forall i :: 0 <= i < |entries| ==> WellBuilt(safe, entries[i].value)
    case Unary(_, operand) => WellBuilt(safe, operand)
    case Binary(_, left, right) => WellBuilt(safe, left) && WellBuilt(safe, right)
    case Conditional(condition, whenTrue, whenFalse) =>
      WellBuilt(safe, condition) && WellBuilt(safe, whenTrue) && WellBuilt(safe, whenFalse)
  }

  function ParseConditional(g: Grammar, ts: seq<Token>): (r: Outcome)
    ensures r.Parsed? ==> |r.rest| < |ts|
    ensures r.Parsed? ==> WellBuilt(g.safe, r.expr)
    decreases |ts|, 9
  {
    var condition := ParseBinary(g, 1, ts);
    if condition.Failed? || !Sees(condition.rest, "?") then condition
    else if Misreads(g, condition.rest) then Failed(Misread)
    else
      var whenTrue := ParseConditional(g, condition.rest[1..]);
      if whenTrue.Failed? then whenTrue
      else if !Sees(whenTrue.rest, ":") then Failed(Expected(":"))
      else if Misreads(g, whenTrue.rest) then Failed(Misread)
      else
        var whenFalse := ParseConditional(g, whenTrue.rest[1..]);
        if whenFalse.Failed? then whenFalse
        else Parsed(Conditional(condition.expr, whenTrue.expr, whenFalse.expr), whenFalse.rest)
  }

  function ParseBinary(g: Grammar, level: nat, ts: seq<Token>): (r: Outcome)
    requires 1 <= level <= 6
    ensures r.Parsed? ==> |r.rest| < |ts|
    ensures r.Parsed? ==> WellBuilt(g.safe, r.expr)
    decreases |ts|, 8 - level
  {
    var first := ParseOperand(g, level, ts);
    if first.Failed? then first else BinaryLoop(g, level, first.expr, first.rest)
  }

  function ParseOperand(g: Grammar, level: nat, ts: seq<Token>): (r: Outcome)
    requires 1 <= level <= 6
    ensures r.Parsed? ==> |r.rest| < |ts|
    ensures r.Parsed? ==> WellBuilt(g.safe, r.expr)
    decreases |ts|, 8 - level, 0
  {
    if level == 6 then ParseUnary(g, ts) else ParseBinary(g, level + 1, ts)
  }

  predicate SeesOperator(ts: seq<Token>, level: nat) {
    Current(ts).kind == Operator && IsOperatorOf(Current(ts).value, level)
  }

  function BinaryLoop(g: Grammar, level: nat, left: Expr, ts: seq<Token>): (r: Outcome)
    requires 1 <= level <= 6
    ensures r.Parsed? ==> |r.rest| <= |ts|
    ensures r.Parsed? && WellBuilt(g.safe, left) ==> WellBuilt(g.safe, r.expr)
    decreases |ts|, 8 - level, 1
  {
    if !SeesOperator(ts, level) then Parsed(left, ts)
    else
      var right := ParseOperand(g, level, ts[1..]);
      if right.Failed? then right
      else BinaryLoop(g, level, Binary(OperatorOf(ts[0].value), left, right.expr), right.rest)
  }

  predicate SeesUnary(ts: seq<Token>) {
    Current(ts).kind == Operator && Current(ts).value in {"!", "-", "+"}
  }

  function UnaryOf(value: string): UnaryOp {
    if value == "!" then Not else if value == "-" then Minus else Plus
  }

  function ParseUnary(g: Grammar, ts: seq<Token>): (r: Outcome)
    ensures r.Parsed? ==> |r.rest| < |ts|
    ensures r.Parsed? ==> WellBuilt(g.safe, r.expr)
    decreases |ts|, 1
  {
    if SeesUnary(ts) then
      var operand := ParseUnary(g, ts[1..]);
      if operand.Failed? then operand else Parsed(Unary(UnaryOf(ts[0].value), operand.expr), operand.rest)
    else ParsePrimary(g, ts)
  }

  function ParseIdentifier(g: Grammar, name: string, rest: seq<Token>): (r: Outcome)
    ensures r.Parsed? ==> r.rest == rest && WellBuilt(g.safe, r.expr)
  {
    if Sees(rest, "(") then Failed(FunctionCall)
    else if name == g.variable then Parsed(Input, rest)
    else if name == "true" || name == "false" then Parsed(Lit(Boolean(name == "true")), rest)
    else if name == "null" then Parsed(Lit(Null), rest)
    else Failed(UnknownIdentifier)
  }

  function ParsePrimary(g: Grammar, ts: seq<Token>): (r: Outcome)
    ensures r.Parsed? ==> |r.rest| < |ts|
    ensures r.Parsed? ==> WellBuilt(g.safe, r.expr)
    decreases |ts|, 0
  {
    var token := Current(ts);
    if token.kind == Eof then Failed(UnexpectedToken)
    else
      var rest := ts[1..];
      if token.kind == NumberLiteral then
        if g.safe(token.value) then Parsed(Lit(Number(token.value)), rest) else Failed(UnsafeNumber)
      else if token.kind == StringLiteral then Parsed(Lit(Text(token.value)), rest)
      else if token.kind == Identifier then ParseIdentifier(g, token.value, rest)
      else if token.value == "(" then
        var inner := ParseConditional(g, rest);
        if inner.Failed? then inner
        else if !Sees(inner.rest, ")") then Failed(Expected(")"))
        else if Misreads(g, inner.rest) then Failed(Misread)
        else Parsed(inner.expr, inner.rest[1..])
      else if token.value == "[" then ParseArray(g, rest)
      else if token.value == "{" then ParseObject(g, rest)
      else Failed(UnexpectedToken)
  }

  function ParseArray(g: Grammar, ts: seq<Token>): (r: Outcome)
    ensures r.Parsed? ==> |r.rest| < |ts|
    ensures r.Parsed? ==> WellBuilt(g.safe, r.expr)
    decreases |ts|, 11
  {
    if Sees(ts, "]") then
      if Misreads(g, ts) then Failed(Misread) else Parsed(Array([]), ts[1..])
    else ParseElements(g, [], ts)
  }

  function ParseElements(g: Grammar, elements: seq<Expr>, ts: seq<Token>): (r: Outcome)
    ensures r.Parsed? ==> |r.rest| < |ts|
    ensures r.Parsed? && WellBuilt(g.safe, Array(elements)) ==> WellBuilt(g.safe, r.expr)
    decreases |ts|, 10
  {
    var element := ParseConditional(g, ts);
    if element.Failed? then element
    else if Sees(element.rest, ",") then
      if Misreads(g, element.rest) then Failed(Misread)
      else ParseElements(g, elements + [element.expr], element.rest[1..])
    else if !Sees(element.rest, "]") then Failed(Expected("]"))
    else if Misreads(g, element.rest) then Failed(Misread)
    else Parsed(Array(elements + [element.expr]), element.rest[1..])
  }

  function ParseObject(g: Grammar, ts: seq<Token>): (r: Outcome)
    ensures r.Parsed? ==> |r.rest| < |ts|
    ensures r.Parsed? ==> WellBuilt(g.safe, r.expr)
    decreases |ts|, 11
  {
    if Sees(ts, "}") then
      if Misreads(g, ts) then Failed(Misread) else Parsed(Object([]), ts[1..])
    else ParseEntries(g, [], ts)
  }

  predicate HasKey(entries: seq<Entry>, key: string) {
    exists i :: 0 <= i < |entries| && entries[i].key == key
  }

  function ParseEntries(g: Grammar, entries: seq<Entry>, ts: seq<Token>): (r: Outcome)
    ensures r.Parsed? ==> |r.rest| < |ts|
    ensures r.Parsed? && WellBuilt(g.safe, Object(entries)) ==> WellBuilt(g.safe, r.expr)
    decreases |ts|, 10
  {
    var key := Current(ts);
    if key.kind != StringLiteral then Failed(KeyIsNotAString)
    else if HasKey(entries, key.value) then Failed(DuplicateKey)
    else if !Sees(ts[1..], ":") then Failed(Expected(":"))
    else if Misreads(g, ts[1..]) then Failed(Misread)
    else
      var value := ParseConditional(g, ts[2..]);
      if value.Failed? then value
      else
        var entries' := entries + [Entry(key.value, value.expr)];
        if Sees(value.rest, ",") then
          if Misreads(g, value.rest) then Failed(Misread) else ParseEntries(g, entries', value.rest[1..])
        else if !Sees(value.rest, "}") then Failed(Expected("}"))
        else if Misreads(g, value.rest) then Failed(Misread)
        else Parsed(Object(entries'), value.rest[1..])
  }

  function ParseAt(g: Grammar, level: nat, ts: seq<Token>): (r: Outcome)
    requires level <= 8
    ensures r.Parsed? ==> |r.rest| < |ts|
  {
    if level == 0 then ParseConditional(g, ts)
    else if level <= 6 then ParseBinary(g, level, ts)
    else if level == 7 then ParseUnary(g, ts)
    else ParsePrimary(g, ts)
  }

  /** A whole token list: an expression, and nothing but the end after it. */
  function Parse(g: Grammar, ts: seq<Token>): (r: Result<Expr, Error>)
    ensures r.Ok? ==> WellBuilt(g.safe, r.value)
  {
    var parsed := ParseConditional(g, ts);
    if parsed.Failed? then Err(parsed.error)
    else if Current(parsed.rest).kind != Eof then
      if Sees(parsed.rest, ".") then Err(MemberAccess)
      else if Sees(parsed.rest, "(") then Err(FunctionCall)
      else Err(UnexpectedToken)
    else Ok(parsed.expr)
  }
}
