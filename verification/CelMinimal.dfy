/**
 The printer uses the fewest tokens: no list of tokens that is parsed to an expression is shorter than the printed one.
 One lemma for each function of the grammar, by induction on the tokens left: what it uses up is at least what printing
 the expression takes where an operand of that level is needed. In a list, each element counts with the comma or bracket
 after it, and each entry of an object with its key, its colon and the comma or brace after it, so that the elements
 read so far and the tokens used so far grow together. The end token is never used up.
 */
module CelMinimal {
  import opened CelSyntax
  import opened CelParser
  import opened CelRoundTrip
  import opened Wrappers

  /** The end token, where the list ends with it, is never used up. */
  ghost predicate KeepsEnd(ts: seq<Token>, rest: seq<Token>) {
    ts != [] && ts[|ts| - 1] == END ==> rest != [] && rest[|rest| - 1] == END
  }

  /** Printing the outcome takes no more than the tokens used up, and those given already. */
  ghost predicate Covered(v: string, level: nat, ts: seq<Token>, r: Outcome, given: nat) {
    r.Parsed? ==> |Print(v, r.expr, level)| <= given + |ts| - |r.rest| && KeepsEnd(ts, r.rest)
  }

  /** One token with a value is used up. */
  lemma {:induction false} UsesOne(ts: seq<Token>, rest: seq<Token>)
    requires KeepsEnd(ts, rest) && rest != [] && rest[0] != END
    ensures KeepsEnd(ts, rest[1..])
  {
  }

  /** A lower level never takes more. */
  lemma {:induction false} LowerIsShorter(v: string, e: Expr, k: nat, level: nat)
    requires k <= level
    ensures |Print(v, e, k)| <= |Print(v, e, level)| <= |Print(v, e, k)| + 2
  {
    if Precedence(e) < level && Precedence(e) >= k {
      InParentheses(v, e, level);
      if k > 0 {
        SameAtBoth(v, e, 0, k);
      }
    } else if Precedence(e) >= level {
      SameAtBoth(v, e, k, level);
    }
  }

  lemma {:induction false} InParentheses(v: string, e: Expr, level: nat)
    requires Precedence(e) < level
    ensures |Print(v, e, level)| == |Print(v, e, CONDITIONAL)| + 2
  {
  }

  lemma {:induction false} SameAtBoth(v: string, e: Expr, k: nat, level: nat)
    requires k <= level <= Precedence(e)
    ensures Print(v, e, k) == Print(v, e, level)
  {
  }

  // ---------- the levels

  lemma {:induction false} CoversConditional(g: Grammar, ts: seq<Token>)
    ensures Covered(g.variable, CONDITIONAL, ts, ParseConditional(g, ts), 0)
    decreases |ts|, 9
  {
    hide Print, ParseBinary, WellBuilt;
    var v, condition := g.variable, ParseBinary(g, 1, ts);
    CoversBinary(g, 1, ts);
    if condition.Parsed? {
      LowerIsShorter(v, condition.expr, CONDITIONAL, 1);
      if Sees(condition.rest, "?") {
        UsesOne(ts, condition.rest);
        var whenTrue := ParseConditional(g, condition.rest[1..]);
        CoversConditional(g, condition.rest[1..]);
        if whenTrue.Parsed? && Sees(whenTrue.rest, ":") {
          UsesOne(condition.rest[1..], whenTrue.rest);
          var whenFalse := ParseConditional(g, whenTrue.rest[1..]);
          CoversConditional(g, whenTrue.rest[1..]);
          if whenFalse.Parsed? {
            ConditionalLength(v, condition.expr, whenTrue.expr, whenFalse.expr);
          }
        }
      }
    }
  }

  lemma {:induction false} ConditionalLength(v: string, condition: Expr, whenTrue: Expr, whenFalse: Expr)
    ensures |Print(v, Conditional(condition, whenTrue, whenFalse), CONDITIONAL)|
         == |Print(v, condition, 1)| + 1 + |Print(v, whenTrue, CONDITIONAL)| + 1 + |Print(v, whenFalse, CONDITIONAL)|
  {
  }

  lemma {:induction false} CoversBinary(g: Grammar, level: nat, ts: seq<Token>)
    requires 1 <= level <= 6
    ensures Covered(g.variable, level, ts, ParseBinary(g, level, ts), 0)
    decreases |ts|, 8 - level
  {
    CoversOperand(g, level, ts);
    var first := ParseOperand(g, level, ts);
    if first.Parsed? {
      LowerIsShorter(g.variable, first.expr, level, level + 1);
      CoversLoop(g, level, first.expr, first.rest);
    }
    hide Print, ParseOperand, BinaryLoop;
  }

  lemma {:induction false} CoversOperand(g: Grammar, level: nat, ts: seq<Token>)
    requires 1 <= level <= 6
    ensures Covered(g.variable, level + 1, ts, ParseOperand(g, level, ts), 0)
    decreases |ts|, 8 - level, 0
  {
    if level == 6 {
      CoversUnary(g, ts);
    } else {
      CoversBinary(g, level + 1, ts);
    }
  }

  lemma {:induction false} CoversLoop(g: Grammar, level: nat, left: Expr, ts: seq<Token>)
    requires 1 <= level <= 6
    ensures Covered(g.variable, level, ts, BinaryLoop(g, level, left, ts), |Print(g.variable, left, level)|)
    decreases |ts|, 8 - level, 1
  {
    if SeesOperator(ts, level) {
      CoversOperand(g, level, ts[1..]);
      UsesOne(ts, ts);
      var right := ParseOperand(g, level, ts[1..]);
      if right.Parsed? {
        BinaryLength(g.variable, level, OperatorOf(ts[0].value), left, right.expr);
        OperatorLevel(ts[0].value, level);
        CoversLoop(g, level, Binary(OperatorOf(ts[0].value), left, right.expr), right.rest);
      }
    }
    hide Print, ParseOperand, IsOperatorOf, OperatorOf;
  }

  lemma {:induction false} OperatorLevel(value: string, level: nat)
    requires IsOperatorOf(value, level)
    ensures Level(OperatorOf(value)) == level
  {
  }

  lemma {:induction false} BinaryLength(v: string, level: nat, op: BinaryOp, left: Expr, right: Expr)
    ensures Level(op) == level ==>
              |Print(v, Binary(op, left, right), level)| == |Print(v, left, level)| + 1 + |Print(v, right, level + 1)|
  {
  }

  lemma {:induction false} CoversUnary(g: Grammar, ts: seq<Token>)
    ensures Covered(g.variable, UNARY, ts, ParseUnary(g, ts), 0)
    decreases |ts|, 1
  {
    if SeesUnary(ts) {
      UsesOne(ts, ts);
      CoversUnary(g, ts[1..]);
      var operand := ParseUnary(g, ts[1..]);
      if operand.Parsed? {
        UnaryLength(g.variable, UnaryOf(ts[0].value), operand.expr);
      }
    } else {
      CoversPrimary(g, ts);
      var r := ParsePrimary(g, ts);
      if r.Parsed? {
        LowerIsShorter(g.variable, r.expr, UNARY, PRIMARY);
      }
    }
    hide Print, ParsePrimary;
  }

  lemma {:induction false} UnaryLength(v: string, op: UnaryOp, operand: Expr)
    ensures |Print(v, Unary(op, operand), UNARY)| == 1 + |Print(v, operand, UNARY)|
  {
  }

  lemma {:induction false} CoversPrimary(g: Grammar, ts: seq<Token>)
    ensures Covered(g.variable, PRIMARY, ts, ParsePrimary(g, ts), 0)
    decreases |ts|, 0
  {
    var token := Current(ts);
    if token.kind != Eof {
      UsesOne(ts, ts);
      if !IsLeaf(token) {
        if token.value == "(" {
          CoversConditional(g, ts[1..]);
          CoversParenthesised(g, ts);
        } else if token.value == "[" {
          CoversArray(g, ts[1..]);
        } else if token.value == "{" {
          CoversObject(g, ts[1..]);
        }
        hide ParseConditional, ParseArray, ParseObject, Print;
      } else {
        CoversLeaf(g, ts);
      }
    }
  }

  lemma {:induction false} CoversLeaf(g: Grammar, ts: seq<Token>)
    requires IsLeaf(Current(ts))
    ensures Covered(g.variable, PRIMARY, ts, ParsePrimary(g, ts), 0)
  {
    UsesOne(ts, ts);
    hide ParseConditional, ParseArray, ParseObject;
  }

  lemma {:induction false} CoversParenthesised(g: Grammar, ts: seq<Token>)
    requires ts != [] && !IsLeaf(ts[0]) && ts[0].kind != Eof && ts[0].value == "("
    requires Covered(g.variable, CONDITIONAL, ts[1..], ParseConditional(g, ts[1..]), 0)
    ensures Covered(g.variable, PRIMARY, ts, ParsePrimary(g, ts), 0)
  {
    var inner := ParseConditional(g, ts[1..]);
    UsesOne(ts, ts);
    if inner.Parsed? && Sees(inner.rest, ")") {
      LowerIsShorter(g.variable, inner.expr, CONDITIONAL, PRIMARY);
      UsesOne(ts[1..], inner.rest);
    }
    hide ParseConditional, Print;
  }

  // ---------- lists

  /** Each element with what comes after it: a comma, or the end of the list. */
  function ElementsLength(v: string, elements: seq<Expr>): nat {
    if elements == [] then 0 else |Print(v, elements[0], CONDITIONAL)| + 1 + ElementsLength(v, elements[1..])
  }

  /** Each entry with its key, its colon, and what comes after it. */
  function EntriesLength(v: string, entries: seq<Entry>): nat {
    if entries == [] then 0 else |Print(v, entries[0].value, CONDITIONAL)| + 3 + EntriesLength(v, entries[1..])
  }

  lemma {:induction false} ElementsSnoc(v: string, elements: seq<Expr>, e: Expr)
    ensures ElementsLength(v, elements + [e]) == ElementsLength(v, elements) + |Print(v, e, CONDITIONAL)| + 1
  {
    hide Print;
    if elements != [] {
      assert (elements + [e])[1..] == elements[1..] + [e];
      ElementsSnoc(v, elements[1..], e);
    }
  }

  lemma {:induction false} EntriesSnoc(v: string, entries: seq<Entry>, e: Entry)
    ensures EntriesLength(v, entries + [e]) == EntriesLength(v, entries) + |Print(v, e.value, CONDITIONAL)| + 3
  {
    hide Print;
    if entries != [] {
      assert (entries + [e])[1..] == entries[1..] + [e];
      EntriesSnoc(v, entries[1..], e);
    }
  }

  lemma {:induction false} PrintElementsLength(v: string, elements: seq<Expr>)
    requires elements != []
    ensures |PrintElements(v, elements)| + 1 == ElementsLength(v, elements)
  {
    hide Print;
    if |elements| > 1 {
      PrintElementsLength(v, elements[1..]);
    } else {
      assert elements[1..] == [];
    }
  }

  lemma {:induction false} PrintEntriesLength(v: string, entries: seq<Entry>)
    requires entries != []
    ensures |PrintEntries(v, entries)| + 1 == EntriesLength(v, entries)
  {
    hide Print;
    if |entries| > 1 {
      PrintEntriesLength(v, entries[1..]);
    } else {
      assert entries[1..] == [];
    }
  }

  lemma {:induction false} ArrayLength(v: string, elements: seq<Expr>)
    ensures |Print(v, Array(elements), PRIMARY)| == if elements == [] then 2 else 1 + ElementsLength(v, elements)
  {
    if elements != [] {
      PrintElementsLength(v, elements);
    }
    hide PrintElements, ElementsLength;
  }

  lemma {:induction false} ObjectLength(v: string, entries: seq<Entry>)
    ensures |Print(v, Object(entries), PRIMARY)| == if entries == [] then 2 else 1 + EntriesLength(v, entries)
  {
    if entries != [] {
      PrintEntriesLength(v, entries);
    }
    hide PrintEntries, EntriesLength;
  }

  lemma {:induction false} CoversArray(g: Grammar, ts: seq<Token>)
    ensures Covered(g.variable, PRIMARY, ts, ParseArray(g, ts), 1)
    decreases |ts|, 11
  {
    if Sees(ts, "]") {
      ArrayLength(g.variable, []);
      UsesOne(ts, ts);
    } else {
      CoversElements(g, [], ts);
      var r := ParseElements(g, [], ts);
      if r.Parsed? {
        ArrayLength(g.variable, r.expr.elements);
      }
    }
    hide Print, ParseElements;
  }

  ghost predicate ElementsCovered(v: string, ts: seq<Token>, r: Outcome, given: nat) {
    r.Parsed? ==>
      && r.expr.Array? && r.expr.elements != []
      && ElementsLength(v, r.expr.elements) <= given + |ts| - |r.rest| && KeepsEnd(ts, r.rest)
  }

  lemma {:induction false} CoversElements(g: Grammar, elements: seq<Expr>, ts: seq<Token>)
    ensures ElementsCovered(g.variable, ts, ParseElements(g, elements, ts), ElementsLength(g.variable, elements))
    decreases |ts|, 10
  {
    CoversConditional(g, ts);
    var element := ParseConditional(g, ts);
    if element.Parsed? {
      ElementsSnoc(g.variable, elements, element.expr);
      if Sees(element.rest, ",") {
        UsesOne(ts, element.rest);
        CoversElements(g, elements + [element.expr], element.rest[1..]);
      } else if Sees(element.rest, "]") {
        UsesOne(ts, element.rest);
      }
    }
    hide Print, ParseConditional, ElementsLength;
  }

  lemma {:induction false} CoversObject(g: Grammar, ts: seq<Token>)
    ensures Covered(g.variable, PRIMARY, ts, ParseObject(g, ts), 1)
    decreases |ts|, 11
  {
    if Sees(ts, "}") {
      ObjectLength(g.variable, []);
      UsesOne(ts, ts);
    } else {
      CoversEntries(g, [], ts);
      var r := ParseEntries(g, [], ts);
      if r.Parsed? {
        ObjectLength(g.variable, r.expr.entries);
      }
    }
    hide Print, ParseEntries;
  }

  ghost predicate EntriesCovered(v: string, ts: seq<Token>, r: Outcome, given: nat) {
    r.Parsed? ==>
      && r.expr.Object? && r.expr.entries != []
      && EntriesLength(v, r.expr.entries) <= given + |ts| - |r.rest| && KeepsEnd(ts, r.rest)
  }

  lemma {:induction false} CoversEntries(g: Grammar, entries: seq<Entry>, ts: seq<Token>)
    ensures EntriesCovered(g.variable, ts, ParseEntries(g, entries, ts), EntriesLength(g.variable, entries))
    decreases |ts|, 10
  {
    var key := Current(ts);
    if key.kind == StringLiteral && !HasKey(entries, key.value) && Sees(ts[1..], ":") {
      UsesOne(ts, ts);
      UsesOne(ts, ts[1..]);
      assert ts[1..][1..] == ts[2..];
      CoversConditional(g, ts[2..]);
      var value := ParseConditional(g, ts[2..]);
      if value.Parsed? {
        var entry := Entry(key.value, value.expr);
        EntriesSnoc(g.variable, entries, entry);
        if Sees(value.rest, ",") {
          UsesOne(ts[2..], value.rest);
          CoversEntries(g, entries + [entry], value.rest[1..]);
        } else if Sees(value.rest, "}") {
          UsesOne(ts[2..], value.rest);
        }
      }
    }
    hide Print, ParseConditional, EntriesLength, HasKey, WellBuilt;
  }

  // ---------- main result

  /** A list of tokens that ends with the end token and is parsed to `e` is at least as long as what is printed. */
  lemma {:induction false} PrintIsShortest(g: Grammar, ts: seq<Token>, e: Expr)
    requires ts != [] && ts[|ts| - 1] == END && Parse(g, ts) == Ok(e)
    ensures |PrintAll(g.variable, e)| <= |ts|
  {
    CoversConditional(g, ts);
    hide Print, ParseConditional;
  }
}
