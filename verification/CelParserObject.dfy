/** The parser as the object it is: a cursor over a token list, moved by every method. */
module CelParserObject {
  import opened Wrappers
  import opened CelSyntax
  import Spec = CelParser

  type ParseResult = Result<Expr, Spec.Error>

  /** What the tokenizer hands over: one end token, last, with an empty value. */
  predicate EndTerminated(tokens: seq<Token>) {
    && tokens != []
    && tokens[|tokens| - 1] == END
    && forall i :: 0 <= i < |tokens| - 1 ==> tokens[i].kind != Eof
  }

  class Parser {
    const tokens: seq<Token>
    const grammar: Spec.Grammar
    var index: nat

    /** The cursor never passes the end token. */
    ghost predicate Valid()
      reads this
    {
      EndTerminated(tokens) && index < |tokens| && !grammar.strict
    }

    ghost function Rest(): (ts: seq<Token>)
      requires index <= |tokens|
      reads this
    {
      tokens[index..]
    }

    ghost predicate Matches(r: ParseResult, outcome: Spec.Outcome)
      reads this
    {
      match outcome
      case Parsed(e, rest) => r == Ok(e) && index <= |tokens| && tokens[index..] == rest
      case Failed(error) => r == Err(error)
    }

    constructor (tokens: seq<Token>, variable: string, safe: string -> bool)
      requires EndTerminated(tokens)
      ensures Valid() && index == 0 && this.tokens == tokens && grammar == Spec.Grammar(variable, safe, false)
    {
      this.tokens := tokens;
      this.grammar := Spec.Grammar(variable, safe, false);
      index := 0;
    }

    function Current(): (t: Token)
      requires Valid()
      reads this
      ensures t == Spec.Current(Rest())
    {
      tokens[index]
    }

    method Advance() returns (token: Token)
      requires Valid()
      modifies this
      ensures Valid() && token == old(Current())
      ensures Rest() == if token.kind == Eof then old(Rest()) else old(Rest())[1..]
    {
      token := Current();
      if token.kind != Eof {
        index := index + 1;
      }
    }

    /** Compares the value only: a string literal with this text is consumed as well. */
    method Consume(value: string) returns (consumed: bool)
      requires Valid() && value != ""
      modifies this
      ensures Valid() && (consumed <==> old(Current()).value == value)
      ensures Rest() == if consumed then old(Rest())[1..] else old(Rest())
    {
      if Current().value != value {
        return false;
      }
      index := index + 1;
      return true;
    }

    /** The whole list: success means every token up to the end token was used. */
    method Parse() returns (r: ParseResult)
      requires Valid() && index == 0
      modifies this
      ensures Valid() && r == Spec.Parse(grammar, tokens)
      ensures r.Ok? ==> index == |tokens| - 1
    {
      assert Rest() == tokens;
      var expression := ParseConditional();
      if expression.Err? {
        return expression;
      }
      var trailing := Current();
      if trailing.kind != Eof {
        if trailing.value == "." {
          return Err(Spec.MemberAccess);
        }
        if trailing.value == "(" {
          return Err(Spec.FunctionCall);
        }
        return Err(Spec.UnexpectedToken);
      }
      return expression;
    }

    method ParseConditional() returns (r: ParseResult)
      requires Valid()
      modifies this
      ensures Valid() && Matches(r, Spec.ParseConditional(grammar, old(Rest())))
      decreases |tokens| - index, 9
    {
      var condition := ParseBinary(1);
      if condition.Err? {
        return condition;
      }
      var asked := Consume("?");
      if !asked {
        return condition;
      }
      var whenTrue := ParseConditional();
      if whenTrue.Err? {
        return whenTrue;
      }
      var found := Consume(":");
      if !found {
        return Err(Spec.Expected(":"));
      }
      var whenFalse := ParseConditional();
      if whenFalse.Err? {
        return whenFalse;
      }
      return Ok(Conditional(condition.value, whenTrue.value, whenFalse.value));
    }

    /** The six binary levels share one loop, over the operand of the next level and the operators of this one. */
    method ParseBinary(level: nat) returns (r: ParseResult)
      requires Valid() && 1 <= level <= 6
      modifies this
      ensures Valid() && Matches(r, Spec.ParseBinary(grammar, level, old(Rest())))
      decreases |tokens| - index, 8 - level, 1
    {
      var expression := ParseOperand(level);
      if expression.Err? {
        return expression;
      }
      while Current().kind == Operator && IsOperatorOf(Current().value, level)
        invariant Valid() && expression.Ok? && index > old(index)
        invariant Spec.ParseBinary(grammar, level, old(Rest()))
               == Spec.BinaryLoop(grammar, level, expression.value, Rest())
        decreases |tokens| - index
      {
        var operator := Advance();
        var right := ParseOperand(level);
        if right.Err? {
          return right;
        }
        expression := Ok(Binary(OperatorOf(operator.value), expression.value, right.value));
      }
      return expression;
    }

    method ParseOperand(level: nat) returns (r: ParseResult)
      requires Valid() && 1 <= level <= 6
      modifies this
      ensures Valid() && Matches(r, Spec.ParseOperand(grammar, level, old(Rest())))
      decreases |tokens| - index, 8 - level, 0
    {
      if level == 6 {
        r := ParseUnary();
      } else {
        r := ParseBinary(level + 1);
      }
    }

    method ParseUnary() returns (r: ParseResult)
      requires Valid()
      modifies this
      ensures Valid() && Matches(r, Spec.ParseUnary(grammar, old(Rest())))
      decreases |tokens| - index, 1
    {
      var token := Current();
      if token.kind == Operator && (token.value == "!" || token.value == "-" || token.value == "+") {
        var _ := Advance();
        var operand := ParseUnary();
        if operand.Err? {
          return operand;
        }
        return Ok(Unary(Spec.UnaryOf(token.value), operand.value));
      }
      r := ParsePrimary();
    }

    method ParsePrimary() returns (r: ParseResult)
      requires Valid()
      modifies this
      ensures Valid() && Matches(r, Spec.ParsePrimary(grammar, old(Rest())))
      decreases |tokens| - index, 0
    {
      var token := Advance();
      if token.kind == NumberLiteral {
        if !grammar.safe(token.value) {
          return Err(Spec.UnsafeNumber);
        }
        return Ok(Lit(Number(token.value)));
      }
      if token.kind == StringLiteral {
        return Ok(Lit(Text(token.value)));
      }
      if token.kind == Identifier {
        if Current().value == "(" {
          return Err(Spec.FunctionCall);
        }
        if token.value == grammar.variable {
          return Ok(Input);
        }
        if token.value == "true" || token.value == "false" {
          return Ok(Lit(Boolean(token.value == "true")));
        }
        if token.value == "null" {
          return Ok(Lit(Null));
        }
        return Err(Spec.UnknownIdentifier);
      }
      if token.value == "(" {
        var expression := ParseConditional();
        if expression.Err? {
          return expression;
        }
        var closed := Consume(")");
        if !closed {
          return Err(Spec.Expected(")"));
        }
        return expression;
      }
      if token.value == "[" {
        r := ParseArray();
        return;
      }
      if token.value == "{" {
        r := ParseObject();
        return;
      }
      return Err(Spec.UnexpectedToken);
    }

    method ParseArray() returns (r: ParseResult)
      requires Valid()
      modifies this
      ensures Valid() && Matches(r, Spec.ParseArray(grammar, old(Rest())))
      decreases |tokens| - index, 10
    {
      var elements := [];
      var empty := Consume("]");
      if !empty {
        while true
          invariant Valid() && index >= old(index)
          invariant Spec.ParseArray(grammar, old(Rest())) == Spec.ParseElements(grammar, elements, Rest())
          decreases |tokens| - index
        {
          var element := ParseConditional();
          if element.Err? {
            return element;
          }
          elements := elements + [element.value];
          var more := Consume(",");
          if !more {
            break;
          }
        }
        var closed := Consume("]");
        if !closed {
          return Err(Spec.Expected("]"));
        }
      }
      return Ok(Array(elements));
    }

    method ParseObject() returns (r: ParseResult)
      requires Valid()
      modifies this
      ensures Valid() && Matches(r, Spec.ParseObject(grammar, old(Rest())))
      decreases |tokens| - index, 10
    {
      var entries := [];
      var empty := Consume("}");
      if !empty {
        while true
          invariant Valid() && index >= old(index)
          invariant Spec.ParseObject(grammar, old(Rest())) == Spec.ParseEntries(grammar, entries, Rest())
          decreases |tokens| - index
        {
          var key := ParseKey(entries);
          if key.Err? {
            return Err(key.error);
          }
          var value := ParseConditional();
          if value.Err? {
            return value;
          }
          entries := entries + [Entry(key.value, value.value)];
          var more := Consume(",");
          if !more {
            break;
          }
        }
        var closed := Consume("}");
        if !closed {
          return Err(Spec.Expected("}"));
        }
      }
      return Ok(Object(entries));
    }

    /** A new string key and the colon after it. */
    method ParseKey(entries: seq<Entry>) returns (r: Result<string, Spec.Error>)
      requires Valid()
      modifies this
      ensures Valid() && index >= old(index)
      ensures var ts, key := old(Rest()), old(Current());
              if key.kind != StringLiteral then r == Err(Spec.KeyIsNotAString)
              else if Spec.HasKey(entries, key.value) then r == Err(Spec.DuplicateKey)
              else if !Spec.Sees(ts[1..], ":") then r == Err(Spec.Expected(":"))
              else r == Ok(key.value) && Rest() == ts[2..]
    {
      var key := Advance();
      if key.kind != StringLiteral {
        return Err(Spec.KeyIsNotAString);
      }
      if Spec.HasKey(entries, key.value) {
        return Err(Spec.DuplicateKey);
      }
      var found := Consume(":");
      if !found {
        return Err(Spec.Expected(":"));
      }
      return Ok(key.value);
    }
  }
}
