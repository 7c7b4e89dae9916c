/**
 The parser beside a strict reader of the same tokens. The two can differ only where a string literal stands where the
 grammar has punctuation: the parser takes it for the punctuation, the strict reader fails. Such a literal is used up
 without becoming part of the expression, so counting leaves tells the two apart: every token that is a literal, a name
 or a key becomes at most one leaf of the expression, and where each becomes exactly one, the parser has read as the
 strict reader does. One lemma for each function of the grammar, by induction on the tokens left.
 */
module CelStrictness {
  import opened CelSyntax
  import opened CelParser

  function Leaves(ts: seq<Token>): nat {
    if ts == [] then 0 else (if IsLeaf(ts[0]) then 1 else 0) + Leaves(ts[1..])
  }

  /** The literals, variables and keys of an expression. */
  function LeafCount(e: Expr): nat
    decreases e, 1
  {
    match e
    case Lit(_) => 1
    case Input => 1
    case Array(elements) => ElementLeaves(elements)
    case Object(entries) => EntryLeaves(entries)
    case Unary(_, operand) => LeafCount(operand)
    case Binary(_, left, right) => LeafCount(left) + LeafCount(right)
    case Conditional(condition, whenTrue, whenFalse) =>
      LeafCount(condition) + LeafCount(whenTrue) + LeafCount(whenFalse)
  }

  function ElementLeaves(elements: seq<Expr>): nat
    decreases elements, 0
  {
    if elements == [] then 0 else ElementLeaves(elements[..|elements| - 1]) + LeafCount(elements[|elements| - 1])
  }

  function EntryLeaves(entries: seq<Entry>): nat
    decreases entries, 0
  {
    if entries == [] then 0
    else EntryLeaves(entries[..|entries| - 1]) + 1 + LeafCount(entries[|entries| - 1].value)
  }

  function Strict(g: Grammar): Grammar {
    g.(strict := true)
  }

  /**
   `loose` and `strict` are the two readings of the same tokens, starting with `given` leaves of an expression already
   built. What the strict one reads the loose one reads too; the loose one uses each leaf token at most
   once; and where it uses every one of them in the expression, the strict one reads the same.
   */
  ghost predicate Compared(ts: seq<Token>, given: nat, loose: Outcome, strict: Outcome) {
    && (strict.Parsed? ==> loose == strict)
    && (loose.Parsed? ==> given + Leaves(ts) >= Leaves(loose.rest) + LeafCount(loose.expr))
    && (loose.Parsed? && given + Leaves(ts) == Leaves(loose.rest) + LeafCount(loose.expr) ==> strict == loose)
  }

  lemma {:induction false} CompareConditional(g: Grammar, ts: seq<Token>)
    requires !g.strict
    ensures Compared(ts, 0, ParseConditional(g, ts), ParseConditional(Strict(g), ts))
    decreases |ts|, 9
  {
    CompareBinary(g, 1, ts);
    var condition := ParseBinary(g, 1, ts);
    if condition.Parsed? && Sees(condition.rest, "?") {
      CompareConditional(g, condition.rest[1..]);
      var whenTrue := ParseConditional(g, condition.rest[1..]);
      if whenTrue.Parsed? && Sees(whenTrue.rest, ":") {
        CompareConditional(g, whenTrue.rest[1..]);
      }
    }
  }

  lemma {:induction false} CompareBinary(g: Grammar, level: nat, ts: seq<Token>)
    requires !g.strict && 1 <= level <= 6
    ensures Compared(ts, 0, ParseBinary(g, level, ts), ParseBinary(Strict(g), level, ts))
    decreases |ts|, 8 - level
  {
    CompareOperand(g, level, ts);
    var first := ParseOperand(g, level, ts);
    if first.Parsed? {
      CompareLoop(g, level, first.expr, first.rest);
    }
  }

  lemma {:induction false} CompareOperand(g: Grammar, level: nat, ts: seq<Token>)
    requires !g.strict && 1 <= level <= 6
    ensures Compared(ts, 0, ParseOperand(g, level, ts), ParseOperand(Strict(g), level, ts))
    decreases |ts|, 8 - level, 0
  {
    if level == 6 {
      CompareUnary(g, ts);
    } else {
      CompareBinary(g, level + 1, ts);
    }
  }

  lemma {:induction false} CompareLoop(g: Grammar, level: nat, left: Expr, ts: seq<Token>)
    requires !g.strict && 1 <= level <= 6
    ensures Compared(ts, LeafCount(left), BinaryLoop(g, level, left, ts), BinaryLoop(Strict(g), level, left, ts))
    decreases |ts|, 8 - level, 1
  {
    if SeesOperator(ts, level) {
      CompareOperand(g, level, ts[1..]);
      var right := ParseOperand(g, level, ts[1..]);
      if right.Parsed? {
        CompareLoop(g, level, Binary(OperatorOf(ts[0].value), left, right.expr), right.rest);
      }
    }
  }

  lemma {:induction false} CompareUnary(g: Grammar, ts: seq<Token>)
    requires !g.strict
    ensures Compared(ts, 0, ParseUnary(g, ts), ParseUnary(Strict(g), ts))
    decreases |ts|, 1
  {
    if SeesUnary(ts) {
      CompareUnary(g, ts[1..]);
    } else {
      ComparePrimary(g, ts);
    }
  }

  lemma {:induction false} ComparePrimary(g: Grammar, ts: seq<Token>)
    requires !g.strict
    ensures Compared(ts, 0, ParsePrimary(g, ts), ParsePrimary(Strict(g), ts))
    decreases |ts|, 0
  {
    var token := Current(ts);
    if token.kind != Eof && !IsLeaf(token) {
      if token.value == "(" {
        CompareConditional(g, ts[1..]);
      } else if token.value == "[" {
        CompareArray(g, ts[1..]);
      } else if token.value == "{" {
        CompareObject(g, ts[1..]);
      }
    }
  }

  lemma {:induction false} CompareArray(g: Grammar, ts: seq<Token>)
    requires !g.strict
    ensures Compared(ts, 0, ParseArray(g, ts), ParseArray(Strict(g), ts))
    decreases |ts|, 11
  {
    if !Sees(ts, "]") {
      CompareElements(g, [], ts);
    }
  }

  lemma {:induction false} CompareElements(g: Grammar, elements: seq<Expr>, ts: seq<Token>)
    requires !g.strict
    ensures Compared(ts, ElementLeaves(elements), ParseElements(g, elements, ts),
                     ParseElements(Strict(g), elements, ts))
    decreases |ts|, 10
  {
    CompareConditional(g, ts);
    var element := ParseConditional(g, ts);
    if element.Parsed? {
      assert (elements + [element.expr])[..|elements|] == elements;
      if Sees(element.rest, ",") {
        CompareElements(g, elements + [element.expr], element.rest[1..]);
      }
    }
  }

  lemma {:induction false} CompareObject(g: Grammar, ts: seq<Token>)
    requires !g.strict
    ensures Compared(ts, 0, ParseObject(g, ts), ParseObject(Strict(g), ts))
    decreases |ts|, 11
  {
    if !Sees(ts, "}") {
      CompareEntries(g, [], ts);
    }
  }

  lemma {:induction false} CompareEntries(g: Grammar, entries: seq<Entry>, ts: seq<Token>)
    requires !g.strict
    ensures Compared(ts, EntryLeaves(entries), ParseEntries(g, entries, ts), ParseEntries(Strict(g), entries, ts))
    decreases |ts|, 10
  {
    var key := Current(ts);
    if key.kind == StringLiteral && !HasKey(entries, key.value) && Sees(ts[1..], ":") {
      assert ts[1..][1..] == ts[2..];
      CompareConditional(g, ts[2..]);
      var value := ParseConditional(g, ts[2..]);
      if value.Parsed? {
        var entries' := entries + [Entry(key.value, value.expr)];
        assert entries'[..|entries|] == entries;
        if Sees(value.rest, ",") {
          CompareEntries(g, entries', value.rest[1..]);
        }
      }
    }
  }
}
