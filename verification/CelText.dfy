/** From expressions to source text and back: rendering, tokenizing and parsing together. */
module CelText {
  import opened CelSyntax
  import Parser = CelParser
  import opened CelRoundTrip
  import opened CelTokenizer
  import opened CelLexemes
  import opened Wrappers

  /** Every number literal is written as one. */
  predicate WellSpelled(e: Expr)
    decreases e, 1
  {
    match e
    case Lit(Number(lexeme)) => IsNumber(lexeme)
    case Lit(_) => true
    case Input => true
    case Array(elements) => AllWellSpelled(elements)
    case Object(entries) => EntriesWellSpelled(entries)
    case Unary(_, operand) => WellSpelled(operand)
    case Binary(_, left, right) => WellSpelled(left) && WellSpelled(right)
    case Conditional(condition, whenTrue, whenFalse) =>
      WellSpelled(condition) && WellSpelled(whenTrue) && WellSpelled(whenFalse)
  }

  predicate AllWellSpelled(elements: seq<Expr>)
    decreases elements, 0
  {
    elements == [] || (WellSpelled(elements[0]) && AllWellSpelled(elements[1..]))
  }

  predicate EntriesWellSpelled(entries: seq<Entry>)
    decreases entries, 0
  {
    entries == [] || (WellSpelled(entries[0].value) && EntriesWellSpelled(entries[1..]))
  }

  lemma {:induction false} PrintIsWritable(v: string, e: Expr, level: nat)
    requires IsName(v) && WellSpelled(e)
    ensures AllWritable(Print(v, e, level))
    decreases e, 1, if Precedence(e) < level then 1 else 0
  {
    SymbolsAreWritable();
    hide Writable, IsSymbol, AllWritable;
    if Precedence(e) < level {
      PrintIsWritable(v, e, CONDITIONAL);
      Wrapped(Punct("("), Print(v, e, CONDITIONAL), Punct(")"));
    } else {
      match e
      case Lit(literal) =>
        LiteralIsWritable(literal);
        One(PrintLiteral(literal));
      case Input =>
        VariableIsWritable(v);
        One(Token(Identifier, v));
      case Array(elements) =>
        if elements != [] {
          PrintElementsIsWritable(v, elements);
        }
        Wrapped(Punct("["), if elements == [] then [] else PrintElements(v, elements), Punct("]"));
      case Object(entries) =>
        if entries != [] {
          PrintEntriesIsWritable(v, entries);
        }
        Wrapped(Punct("{"), if entries == [] then [] else PrintEntries(v, entries), Punct("}"));
      case Unary(op, operand) =>
        PrintIsWritable(v, operand, UNARY);
        One(Token(Operator, UnarySymbol(op)));
        Both([Token(Operator, UnarySymbol(op))], Print(v, operand, UNARY));
      case Binary(op, left, right) =>
        PrintIsWritable(v, left, Level(op));
        PrintIsWritable(v, right, Level(op) + 1);
        Between(Print(v, left, Level(op)), Token(Operator, Symbol(op)), Print(v, right, Level(op) + 1));
      case Conditional(condition, whenTrue, whenFalse) =>
        PrintIsWritable(v, condition, 1);
        PrintIsWritable(v, whenTrue, CONDITIONAL);
        PrintIsWritable(v, whenFalse, CONDITIONAL);
        Between(Print(v, condition, 1), Punct("?"), Print(v, whenTrue, CONDITIONAL));
        Between(Print(v, condition, 1) + [Punct("?")] + Print(v, whenTrue, CONDITIONAL), Punct(":"),
                Print(v, whenFalse, CONDITIONAL));
    }
  }

  lemma {:induction false} One(t: Token)
    requires Writable(t)
    ensures AllWritable([t])
  {
  }

  lemma {:induction false} Both(a: seq<Token>, b: seq<Token>)
    requires AllWritable(a) && AllWritable(b)
    ensures AllWritable(a + b)
  {
  }

  lemma {:induction false} Between(a: seq<Token>, t: Token, b: seq<Token>)
    requires AllWritable(a) && Writable(t) && AllWritable(b)
    ensures AllWritable(a + [t] + b)
  {
    hide Writable;
  }

  lemma {:induction false} Wrapped(open: Token, middle: seq<Token>, close: Token)
    requires Writable(open) && (middle != [] ==> AllWritable(middle)) && Writable(close)
    ensures AllWritable([open] + middle + [close])
  {
    hide Writable;
  }

  lemma {:induction false} SymbolsAreWritable()
    ensures Writable(Punct("(")) && Writable(Punct(")")) && Writable(Punct("[")) && Writable(Punct("]"))
    ensures Writable(Punct("{")) && Writable(Punct("}"))
    ensures Writable(Punct("?")) && Writable(Punct(":")) && Writable(Punct(","))
    ensures forall op :: Writable(Token(Operator, Symbol(op)))
    ensures forall op :: Writable(Token(Operator, UnarySymbol(op)))
  {
  }

  lemma {:induction false} VariableIsWritable(v: string)
    requires IsName(v)
    ensures Writable(Token(Identifier, v))
  {
  }

  lemma {:induction false} LiteralIsWritable(literal: Literal)
    requires literal.Number? ==> IsNumber(literal.lexeme)
    ensures Writable(PrintLiteral(literal))
  {
    assert NameEnd("true", 1) == NameEnd("true", 2) == NameEnd("true", 3) == 4;
    assert NameEnd("false", 1) == NameEnd("false", 2) == NameEnd("false", 3) == NameEnd("false", 4) == 5;
    assert NameEnd("null", 1) == NameEnd("null", 2) == NameEnd("null", 3) == 4;
  }

  lemma {:induction false} PrintElementsIsWritable(v: string, elements: seq<Expr>)
    requires IsName(v) && elements != [] && AllWellSpelled(elements)
    ensures AllWritable(PrintElements(v, elements))
    decreases elements, 0
  {
    hide Writable;
    SymbolsAreWritable();
    PrintIsWritable(v, elements[0], CONDITIONAL);
    if |elements| > 1 {
      PrintElementsIsWritable(v, elements[1..]);
    }
  }

  lemma {:induction false} PrintEntriesIsWritable(v: string, entries: seq<Entry>)
    requires IsName(v) && entries != [] && EntriesWellSpelled(entries)
    ensures AllWritable(PrintEntries(v, entries))
    decreases entries, 0
  {
    assert Writable(Token(StringLiteral, entries[0].key));
    hide Writable;
    SymbolsAreWritable();
    PrintIsWritable(v, entries[0].value, CONDITIONAL);
    if |entries| > 1 {
      PrintEntriesIsWritable(v, entries[1..]);
    }
  }

  /** The source text of an expression. */
  function Source(variable: string, e: Expr): string {
    Render(Print(variable, e, CONDITIONAL))
  }

  /** From expression to source text, and back through tokenizer and parser: exactly for the faithful expressions. */
  lemma {:induction false} SourceRoundTrip(g: Parser.Grammar, e: Expr)
    requires !g.strict && GoodVariable(g) && IsName(g.variable) && WellSpelled(e)
    ensures var spans := TokensFrom(Source(g.variable, e), 0);
            && spans.Ok? && TokensOf(spans.value) == PrintAll(g.variable, e)
            && (Parser.Parse(g, TokensOf(spans.value)) == Ok(e) <==> Faithful(g, e))
  {
    var s, ts := Source(g.variable, e), Print(g.variable, e, CONDITIONAL);
    PrintIsWritable(g.variable, e, CONDITIONAL);
    assert s[0..] == Render(ts);
    TokenizeRendered(s, 0, ts);
    RoundTrip(g, e);
  }
}
