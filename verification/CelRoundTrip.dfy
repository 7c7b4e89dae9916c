/**
 A printer with the fewest parentheses, and the exact condition under which the parser reads back what it prints.
 */
module CelRoundTrip {
  import opened Wrappers
  import opened CelSyntax
  import opened CelParser
  import opened CelStrictness

  function Punct(value: string): Token {
    Token(Punctuation, value)
  }

  function Precedence(e: Expr): (level: nat)
    ensures level <= PRIMARY
  {
    match e
    case Conditional(_, _, _) => CONDITIONAL
    case Binary(op, _, _) => Level(op)
    case Unary(_, _) => UNARY
    case _ => PRIMARY
  }

  function PrintLiteral(literal: Literal): Token {
    match literal
    case Text(text) => Token(StringLiteral, text)
    case Number(lexeme) => Token(NumberLiteral, lexeme)
    case Boolean(truth) => Token(Identifier, if truth then "true" else "false")
    case Null => Token(Identifier, "null")
  }

  /** The tokens of an expression where an operand of at least this precedence is needed. */
  function Print(variable: string, e: Expr, level: nat): (ts: seq<Token>)
    ensures ts != []
    decreases e, if Precedence(e) < level then 1 else 0
  {
    if Precedence(e) < level then [Punct("(")] + Print(variable, e, CONDITIONAL) + [Punct(")")]
    else
      match e
      case Lit(literal) => [PrintLiteral(literal)]
      case Input => [Token(Identifier, variable)]
      case Array(elements) =>
        [Punct("[")] + (if elements == [] then [] else PrintElements(variable, elements)) + [Punct("]")]
      case Object(entries) =>
        [Punct("{")] + (if entries == [] then [] else PrintEntries(variable, entries)) + [Punct("}")]
      case Unary(op, operand) => [Token(Operator, UnarySymbol(op))] + Print(variable, operand, UNARY)
      case Binary(op, left, right) =>
        Print(variable, left, Level(op)) + [Token(Operator, Symbol(op))] + Print(variable, right, Level(op) + 1)
      case Conditional(condition, whenTrue, whenFalse) =>
        Print(variable, condition, 1) + [Punct("?")] + Print(variable, whenTrue, CONDITIONAL)
        + [Punct(":")] + Print(variable, whenFalse, CONDITIONAL)
  }

  function PrintElements(variable: string, elements: seq<Expr>): (ts: seq<Token>)
    requires elements != []
    ensures ts != []
    decreases elements, 0
  {
    Print(variable, elements[0], CONDITIONAL)
    + if |elements| == 1 then [] else [Punct(",")] + PrintElements(variable, elements[1..])
  }

  function PrintEntries(variable: string, entries: seq<Entry>): (ts: seq<Token>)
    requires entries != []
    ensures ts != []
    decreases entries, 0
  {
    [Token(StringLiteral, entries[0].key), Punct(":")] + Print(variable, entries[0].value, CONDITIONAL)
    + if |entries| == 1 then [] else [Punct(",")] + PrintEntries(variable, entries[1..])
  }

  // ---------- the side condition

  /**
   Number literals are JSON-safe, object keys are distinct, no array begins with a token whose value is "]" and no
   object begins with the key "}": exactly the expressions that survive printing and parsing.
   */
  predicate Faithful(g: Grammar, e: Expr)
    decreases e, 1
  {
    match e
    case Lit(Number(lexeme)) => g.safe(lexeme)
    case Lit(_) => true
    case Input => true
    case Array(elements) =>
      && (elements != [] ==> Print(g.variable, elements[0], CONDITIONAL)[0].value != "]")
      && AllFaithful(g, elements)
    case Object(entries) =>
      && (entries != [] ==> entries[0].key != "}")
      && DistinctKeys(entries)
      && EntriesFaithful(g, entries)
    case Unary(_, operand) => Faithful(g, operand)
    case Binary(_, left, right) => Faithful(g, left) && Faithful(g, right)
    case Conditional(condition, whenTrue, whenFalse) =>
      Faithful(g, condition) && Faithful(g, whenTrue) && Faithful(g, whenFalse)
  }

  predicate AllFaithful(g: Grammar, elements: seq<Expr>)
    decreases elements, 0
  {
    elements == [] || (Faithful(g, elements[0]) && AllFaithful(g, elements[1..]))
  }

  predicate EntriesFaithful(g: Grammar, entries: seq<Entry>)
    decreases entries, 0
  {
    entries == [] || (Faithful(g, entries[0].value) && EntriesFaithful(g, entries[1..]))
  }

  predicate GoodVariable(g: Grammar) {
    g.variable != "true" && g.variable != "false" && g.variable != "null"
  }

  // ---------- a strict grammar reads back the faithful expressions and fails on all others

  /** A token that cannot continue an expression printed at this level. */
  predicate Follows(t: Token, level: nat) {
    && t.value != "("
    && (level == 0 ==> t.value != "?")
    && (t.kind == Operator ==> forall k :: level <= k <= 6 ==> !IsOperatorOf(t.value, k))
  }

  ghost predicate ReadsBack(g: Grammar, e: Expr, rest: seq<Token>, r: Outcome) {
    if Faithful(g, e) then r == Parsed(e, rest) else r.Failed?
  }

  lemma {:induction false} FirstToken(variable: string, e: Expr, level: nat)
    ensures var t := Print(variable, e, level)[0];
            IsLeaf(t) || t.value in {"(", "[", "{", "!", "-", "+"}
    decreases e, if Precedence(e) < level then 1 else 0
  {
    if Precedence(e) >= level {
      match e
      case Binary(op, left, right) => FirstToken(variable, left, Level(op));
      case Conditional(condition, _, _) => FirstToken(variable, condition, 1);
      case _ =>
    }
  }

  /** The tokens of a printed expression followed by more, taken apart. */
  lemma {:induction false} BinaryTokens(variable: string, e: Expr, rest: seq<Token>)
    requires e.Binary?
    ensures Print(variable, e, Level(e.binaryOp)) + rest
         == Print(variable, e.left, Level(e.binaryOp))
            + ([Token(Operator, Symbol(e.binaryOp))] + (Print(variable, e.right, Level(e.binaryOp) + 1) + rest))
  {
  }

  lemma {:induction false} PrintReads(g: Grammar, e: Expr, level: nat, rest: seq<Token>)
    requires g.strict && GoodVariable(g) && level <= PRIMARY && Follows(Current(rest), level)
    ensures ReadsBack(g, e, rest, ParseAt(g, level, Print(g.variable, e, level) + rest))
    decreases e, if Precedence(e) < level then 1 else 0, 8 - level, 3
  {
    hide Print, Faithful, ParseConditional, ParseBinary, ParseUnary, ParsePrimary;
    if level == CONDITIONAL {
      ConditionalReads(g, e, rest);
    } else if level <= 6 {
      OperandThenLoop(g, e, level, rest);
    } else if level == UNARY {
      UnaryReads(g, e, rest);
    } else if Precedence(e) < PRIMARY {
      ParenthesisedReads(g, e, rest);
    } else {
      PrimaryReads(g, e, rest);
    }
  }

  lemma {:induction false} ParenthesisedReads(g: Grammar, e: Expr, rest: seq<Token>)
    requires g.strict && GoodVariable(g) && Precedence(e) < PRIMARY
    ensures ReadsBack(g, e, rest, ParsePrimary(g, Print(g.variable, e, PRIMARY) + rest))
    decreases e, 1, 0, 0
  {
    var inner, closing := Print(g.variable, e, CONDITIONAL), [Punct(")")] + rest;
    var ts := Print(g.variable, e, PRIMARY) + rest;
    assert ts == [Punct("(")] + (inner + closing);
    hide Print, Faithful, ParseConditional, WellBuilt;
    assert ts[1..] == inner + closing && closing[1..] == rest;
    PrintReads(g, e, CONDITIONAL, closing);
  }

  lemma {:induction false} ConditionalTokens(variable: string, e: Expr, rest: seq<Token>)
    requires e.Conditional?
    ensures Print(variable, e, CONDITIONAL) + rest
         == Print(variable, e.condition, 1)
            + ([Punct("?")] + (Print(variable, e.whenTrue, CONDITIONAL)
                               + ([Punct(":")] + (Print(variable, e.whenFalse, CONDITIONAL) + rest))))
  {
    var c, t, f := Print(variable, e.condition, 1), Print(variable, e.whenTrue, CONDITIONAL),
                   Print(variable, e.whenFalse, CONDITIONAL);
    assert Print(variable, e, CONDITIONAL) == c + [Punct("?")] + t + [Punct(":")] + f;
    hide Print;
    var question, colon := [Punct("?")], [Punct(":")];
    Associate(c + question + t + colon, f, rest);
    Regroup(c + question, t, colon, f + rest);
    Associate(c, question, t + (colon + (f + rest)));
  }

  lemma {:induction false} ConditionalReads(g: Grammar, e: Expr, rest: seq<Token>)
    requires g.strict && GoodVariable(g) && Follows(Current(rest), CONDITIONAL)
    ensures ReadsBack(g, e, rest, ParseConditional(g, Print(g.variable, e, CONDITIONAL) + rest))
    decreases e, 0, 8, 0
  {
    var v := g.variable;
    if e.Conditional? {
      var afterTrue := [Punct(":")] + (Print(v, e.whenFalse, CONDITIONAL) + rest);
      var afterCondition := [Punct("?")] + (Print(v, e.whenTrue, CONDITIONAL) + afterTrue);
      ConditionalTokens(v, e, rest);
      hide Print;
      PrintReads(g, e.condition, 1, afterCondition);
      PrintReads(g, e.whenTrue, CONDITIONAL, afterTrue);
      PrintReads(g, e.whenFalse, CONDITIONAL, rest);
      assert afterCondition[1..] == Print(v, e.whenTrue, CONDITIONAL) + afterTrue;
      assert afterTrue[1..] == Print(v, e.whenFalse, CONDITIONAL) + rest;
    } else {
      PrintReads(g, e, 1, rest);
    }
  }

  lemma {:induction false} SymbolFollows(op: BinaryOp)
    ensures Follows(Token(Operator, Symbol(op)), Level(op) + 1)
  {
    forall k | Level(op) + 1 <= k <= 6
      ensures !IsOperatorOf(Symbol(op), k)
    {
      SymbolsAreDistinct(op, k);
    }
  }

  lemma {:induction false} FirstIsCurrent(t: Token, ts: seq<Token>)
    ensures Current([t] + ts) == t
  {
  }

  /** One round of a level's loop. */
  lemma {:induction false} LoopStep(g: Grammar, op: BinaryOp, left: Expr, ts: seq<Token>)
    ensures BinaryLoop(g, Level(op), left, [Token(Operator, Symbol(op))] + ts)
         == var right := ParseAt(g, Level(op) + 1, ts);
            if right.Failed? then right else BinaryLoop(g, Level(op), Binary(op, left, right.expr), right.rest)
  {
    SymbolsAreDistinct(op, Level(op));
    assert ([Token(Operator, Symbol(op))] + ts)[1..] == ts;
    hide Symbol, IsOperatorOf, OperatorOf, ParseBinary, ParseUnary;
  }

  /** The left operand of a level, and then the loop of that level with what is left. */
  lemma {:induction false} LoopReads(g: Grammar, e: Expr, level: nat, rest: seq<Token>)
    requires g.strict && GoodVariable(g) && 1 <= level <= 6 && Follows(Current(rest), level + 1)
    ensures var r := ParseBinary(g, level, Print(g.variable, e, level) + rest);
            if Faithful(g, e) then r == BinaryLoop(g, level, e, rest) else r.Failed?
    decreases e, if Precedence(e) < level then 1 else 0, 8 - level, 1
  {
    hide ParseConditional, ParseUnary, ParsePrimary, WellBuilt, Symbol, IsOperatorOf, OperatorOf;
    if e.Binary? && Level(e.binaryOp) == level {
      hide *;
      LoopReadsOperator(g, e, level, rest);
    } else {
      PrintedAlike(g.variable, e, level);
      hide Print, Faithful;
      PrintReads(g, e, level + 1, rest);
    }
  }

  lemma {:induction false} LoopReadsOperator(g: Grammar, e: Expr, level: nat, rest: seq<Token>)
    requires g.strict && GoodVariable(g) && 1 <= level <= 6 && Follows(Current(rest), level + 1)
    requires e.Binary? && Level(e.binaryOp) == level
    ensures var r := ParseBinary(g, level, Print(g.variable, e, level) + rest);
            if Faithful(g, e) then r == BinaryLoop(g, level, e, rest) else r.Failed?
    decreases e, if Precedence(e) < level then 1 else 0, 8 - level, 0
  {
    hide Print, Faithful, Symbol, IsOperatorOf, OperatorOf, Follows, SeesOperator, Current, WellBuilt, ReadsBack,
         ParseAt, ParseConditional, ParseBinary, ParseOperand, BinaryLoop, ParseUnary, ParsePrimary;
    var v := g.variable;
    var afterOperator := Print(v, e.right, level + 1) + rest;
    var afterLeft := [Token(Operator, Symbol(e.binaryOp))] + afterOperator;
    FaithfulSides(g, e);
    BinaryTokens(v, e, rest);
    SymbolFollows(e.binaryOp);
    LoopStep(g, e.binaryOp, e.left, afterOperator);
    FirstIsCurrent(Token(Operator, Symbol(e.binaryOp)), afterOperator);
    LoopReads(g, e.left, level, afterLeft);
    PrintReads(g, e.right, level + 1, rest);
    ReadOrFailed(g, e.right, rest, ParseAt(g, level + 1, afterOperator));
  }

  lemma {:induction false} FaithfulSides(g: Grammar, e: Expr)
    requires e.Binary?
    ensures Faithful(g, e) == (Faithful(g, e.left) && Faithful(g, e.right))
  {
  }

  lemma {:induction false} ReadOrFailed(g: Grammar, e: Expr, rest: seq<Token>, r: Outcome)
    requires ReadsBack(g, e, rest, r)
    ensures if Faithful(g, e) then r == Parsed(e, rest) else r.Failed?
  {
    hide Faithful;
  }

  lemma {:induction false} PrintedAlike(v: string, e: Expr, level: nat)
    requires level <= 6 && !(e.Binary? && Level(e.binaryOp) == level) && Precedence(e) != level
    ensures Print(v, e, level) == Print(v, e, level + 1)
  {
  }

  lemma {:induction false} OperandThenLoop(g: Grammar, e: Expr, level: nat, rest: seq<Token>)
    requires g.strict && GoodVariable(g) && 1 <= level <= 6 && Follows(Current(rest), level)
    ensures ReadsBack(g, e, rest, ParseBinary(g, level, Print(g.variable, e, level) + rest))
    decreases e, if Precedence(e) < level then 1 else 0, 8 - level, 2
  {
    LoopReads(g, e, level, rest);
    assert !SeesOperator(rest, level);
  }

  lemma {:induction false} UnaryReads(g: Grammar, e: Expr, rest: seq<Token>)
    requires g.strict && GoodVariable(g) && Follows(Current(rest), UNARY)
    ensures ReadsBack(g, e, rest, ParseUnary(g, Print(g.variable, e, UNARY) + rest))
    decreases e, if Precedence(e) < UNARY then 1 else 0, 1, 0
  {
    var ts := Print(g.variable, e, UNARY) + rest;
    if e.Unary? {
      assert ts == [Token(Operator, UnarySymbol(e.unaryOp))] + (Print(g.variable, e.operand, UNARY) + rest);
      hide Print;
      assert ts[1..] == Print(g.variable, e.operand, UNARY) + rest;
      PrintReads(g, e.operand, UNARY, rest);
    } else {
      assert Print(g.variable, e, UNARY) == Print(g.variable, e, PRIMARY);
      assert !SeesUnary(ts);
      hide Print;
      PrintReads(g, e, PRIMARY, rest);
    }
  }

  lemma {:induction false} PrimaryReads(g: Grammar, e: Expr, rest: seq<Token>)
    requires g.strict && GoodVariable(g) && Follows(Current(rest), PRIMARY) && Precedence(e) == PRIMARY
    ensures ReadsBack(g, e, rest, ParsePrimary(g, Print(g.variable, e, PRIMARY) + rest))
    decreases e, 0, 0, 0
  {
    if e.Array? {
      ArrayReads(g, e.elements, rest);
    } else if e.Object? {
      ObjectReads(g, e.entries, rest);
    } else {
      assert (Print(g.variable, e, PRIMARY) + rest)[1..] == rest;
    }
  }

  lemma {:induction false} ArrayReads(g: Grammar, elements: seq<Expr>, rest: seq<Token>)
    requires g.strict && GoodVariable(g)
    ensures ReadsBack(g, Array(elements), rest, ParsePrimary(g, Print(g.variable, Array(elements), PRIMARY) + rest))
    decreases elements, 1, 0, 0
  {
    ArrayTokens(g.variable, elements, rest);
    hide Print, PrintElements, ParseElements, WellBuilt;
    var ts := Print(g.variable, Array(elements), PRIMARY) + rest;
    if elements == [] {
      assert ts[1..] == [Punct("]")] + rest;
    } else {
      var tail := PrintElements(g.variable, elements) + ([Punct("]")] + rest);
      assert ts[1..] == tail && Current(tail) == Print(g.variable, elements[0], CONDITIONAL)[0];
      FirstToken(g.variable, elements[0], CONDITIONAL);
      ElementsRead(g, [], elements, rest);
      assert [] + elements == elements;
      assert ParsePrimary(g, ts) == ParseArray(g, tail);
    }
  }

  lemma {:induction false} ArrayTokens(variable: string, elements: seq<Expr>, rest: seq<Token>)
    ensures elements == [] ==> Print(variable, Array(elements), PRIMARY) + rest == [Punct("[")] + ([Punct("]")] + rest)
    ensures elements != [] ==>
              && PrintElements(variable, elements)[0] == Print(variable, elements[0], CONDITIONAL)[0]
              && Print(variable, Array(elements), PRIMARY) + rest
                 == [Punct("[")] + (PrintElements(variable, elements) + ([Punct("]")] + rest))
  {
  }

  lemma {:induction false} ObjectReads(g: Grammar, entries: seq<Entry>, rest: seq<Token>)
    requires g.strict && GoodVariable(g)
    ensures ReadsBack(g, Object(entries), rest, ParsePrimary(g, Print(g.variable, Object(entries), PRIMARY) + rest))
    decreases entries, 1, 0, 0
  {
    if entries == [] {
      EmptyObjectReads(g, rest);
    } else {
      var tail := PrintEntries(g.variable, entries) + ([Punct("}")] + rest);
      EntriesRead(g, [], entries, rest);
      OpenObjectReads(g, entries, rest, ParseEntries(g, [], tail));
      hide *;
    }
  }

  lemma {:induction false} EmptyObjectReads(g: Grammar, rest: seq<Token>)
    requires g.strict
    ensures ReadsBack(g, Object([]), rest, ParsePrimary(g, Print(g.variable, Object([]), PRIMARY) + rest))
  {
    ObjectTokens(g.variable, [], rest);
    FaithfulObject(g, []);
    var ts := Print(g.variable, Object([]), PRIMARY) + rest;
    assert ts[1..] == [Punct("}")] + rest && ([Punct("}")] + rest)[1..] == rest;
    hide Print, ParseEntries, WellBuilt, HasKey, ParseConditional, Faithful;
  }

  /** An object with something in it, given what its entries are read as. */
  lemma {:induction false} OpenObjectReads(g: Grammar, entries: seq<Entry>, rest: seq<Token>, r: Outcome)
    requires g.strict && entries != []
    requires r == ParseEntries(g, [], PrintEntries(g.variable, entries) + ([Punct("}")] + rest))
    requires EntriesReadBack(g, [], entries, rest, r)
    ensures ReadsBack(g, Object(entries), rest, ParsePrimary(g, Print(g.variable, Object(entries), PRIMARY) + rest))
  {
    var ts := Print(g.variable, Object(entries), PRIMARY) + rest;
    var tail := PrintEntries(g.variable, entries) + ([Punct("}")] + rest);
    ObjectTokens(g.variable, entries, rest);
    FaithfulObject(g, entries);
    NothingIsNew(entries);
    assert ts[1..] == tail && Current(tail) == Token(StringLiteral, entries[0].key);
    OpeningBrace(g, ts, tail);
    hide Print, PrintEntries, ParseEntries, ParsePrimary, Faithful, EntriesFaithful, NewKeys, DistinctKeys;
    assert [] + entries == entries;
  }

  /** An object is opened: a key with the value of the closing brace is refused, any other is left to the entries. */
  lemma {:induction false} OpeningBrace(g: Grammar, ts: seq<Token>, tail: seq<Token>)
    requires g.strict && ts != [] && ts[0] == Punct("{") && ts[1..] == tail && Current(tail).kind == StringLiteral
    ensures ParsePrimary(g, ts)
         == if Current(tail).value == "}" then Failed(Misread) else ParseEntries(g, [], tail)
  {
    hide ParseEntries, ParseConditional;
  }

  lemma {:induction false} ObjectTokens(variable: string, entries: seq<Entry>, rest: seq<Token>)
    ensures entries == [] ==> Print(variable, Object(entries), PRIMARY) + rest == [Punct("{")] + ([Punct("}")] + rest)
    ensures entries != [] ==>
              && PrintEntries(variable, entries)[0] == Token(StringLiteral, entries[0].key)
              && Print(variable, Object(entries), PRIMARY) + rest
                 == [Punct("{")] + (PrintEntries(variable, entries) + ([Punct("}")] + rest))
  {
  }

  lemma {:induction false} ElementsRead(g: Grammar, done: seq<Expr>, elements: seq<Expr>, rest: seq<Token>)
    requires g.strict && GoodVariable(g) && elements != []
    ensures var r := ParseElements(g, done, PrintElements(g.variable, elements) + ([Punct("]")] + rest));
            if AllFaithful(g, elements) then r == Parsed(Array(done + elements), rest) else r.Failed?
    decreases elements, 0, 0, 0
  {
    var v, e, tail := g.variable, elements[0], [Punct("]")] + rest;
    ElementTokens(v, elements, tail);
    hide Print, PrintElements, WellBuilt, Faithful, ParseConditional;
    if |elements| == 1 {
      PrintReads(g, e, CONDITIONAL, tail);
      assert elements == [e] && tail[1..] == rest;
      assert AllFaithful(g, elements[1..]);
    } else {
      var more := [Punct(",")] + (PrintElements(v, elements[1..]) + tail);
      PrintReads(g, e, CONDITIONAL, more);
      assert more[1..] == PrintElements(v, elements[1..]) + tail;
      ElementsRead(g, done + [e], elements[1..], rest);
      assert done + [e] + elements[1..] == done + elements;
    }
  }

  lemma {:induction false} ElementTokens(v: string, elements: seq<Expr>, tail: seq<Token>)
    requires elements != []
    ensures PrintElements(v, elements) + tail
         == Print(v, elements[0], CONDITIONAL)
            + (if |elements| == 1 then tail else [Punct(",")] + (PrintElements(v, elements[1..]) + tail))
  {
    var first := Print(v, elements[0], CONDITIONAL);
    if |elements| == 1 {
      assert PrintElements(v, elements) == first + [];
    } else {
      var others := PrintElements(v, elements[1..]);
      assert PrintElements(v, elements) == first + ([Punct(",")] + others);
      hide Print, PrintElements;
      assert first + ([Punct(",")] + others) + tail == first + ([Punct(",")] + (others + tail));
    }
  }

  /** The keys are new, and differ from each other. */
  predicate NewKeys(done: seq<Entry>, entries: seq<Entry>) {
    DistinctKeys(entries) && forall i :: 0 <= i < |entries| ==> !HasKey(done, entries[i].key)
  }

  lemma {:induction false} FaithfulObject(g: Grammar, entries: seq<Entry>)
    ensures Faithful(g, Object(entries))
       <==> (entries != [] ==> entries[0].key != "}") && DistinctKeys(entries) && EntriesFaithful(g, entries)
  {
  }

  lemma {:induction false} NothingIsNew(entries: seq<Entry>)
    ensures NewKeys([], entries) <==> DistinctKeys(entries)
  {
  }

  lemma {:induction false} NewKeysStep(done: seq<Entry>, entries: seq<Entry>)
    requires entries != []
    ensures NewKeys(done, entries) <==> !HasKey(done, entries[0].key) && NewKeys(done + [entries[0]], entries[1..])
  {
    var done', tail := done + [entries[0]], entries[1..];
    assert forall key :: HasKey(done', key) <==> HasKey(done, key) || key == entries[0].key by {
      forall key
        ensures HasKey(done', key) <==> HasKey(done, key) || key == entries[0].key
      {
        HasKeySnoc(done, entries[0], key);
      }
    }
    assert forall i :: 0 <= i < |tail| ==> tail[i] == entries[i + 1];
    if !HasKey(done, entries[0].key) && NewKeys(done', tail) {
      forall i | 0 <= i < |entries|
        ensures !HasKey(done, entries[i].key)
      {
        if i > 0 {
          assert tail[i - 1] == entries[i];
        }
      }
      forall i, j | 0 <= i < j < |entries|
        ensures entries[i].key != entries[j].key
      {
        assert tail[j - 1] == entries[j];
        if i > 0 {
          assert tail[i - 1] == entries[i];
        }
      }
    }
  }

  lemma {:induction false} HasKeySnoc(done: seq<Entry>, entry: Entry, key: string)
    ensures HasKey(done + [entry], key) <==> HasKey(done, key) || key == entry.key
  {
    if HasKey(done, key) {
      var i :| 0 <= i < |done| && done[i].key == key;
      assert (done + [entry])[i].key == key;
    }
    if key == entry.key {
      assert (done + [entry])[|done|].key == key;
    }
  }

  ghost predicate EntriesReadBack(g: Grammar, done: seq<Entry>, entries: seq<Entry>, rest: seq<Token>, r: Outcome) {
    if NewKeys(done, entries) && EntriesFaithful(g, entries) then r == Parsed(Object(done + entries), rest)
    else r.Failed?
  }

  lemma {:induction false} EntriesRead(g: Grammar, done: seq<Entry>, entries: seq<Entry>, rest: seq<Token>)
    requires g.strict && GoodVariable(g) && entries != []
    ensures EntriesReadBack(g, done, entries, rest,
                            ParseEntries(g, done, PrintEntries(g.variable, entries) + ([Punct("}")] + rest)))
    decreases entries, 0, 0, 0
  {
    var v, e, tail := g.variable, entries[0], [Punct("}")] + rest;
    hide Print, PrintEntries, NewKeys, HasKey, ParseEntries, Faithful, ParseConditional, WellBuilt, DistinctKeys;
    var more := if |entries| == 1 then tail else [Punct(",")] + (PrintEntries(v, entries[1..]) + tail);
    EntryTokens(v, entries, tail, more);
    PrintReads(g, e.value, CONDITIONAL, more);
    if |entries| > 1 {
      assert more[1..] == PrintEntries(v, entries[1..]) + tail;
      EntriesRead(g, done + [e], entries[1..], rest);
    } else {
      assert more[1..] == rest;
    }
    hide EntriesReadBack;
    OneEntryRead(g, done, entries, rest, PrintEntries(v, entries) + tail, more);
  }

  /** One entry, given what its value and the entries after it are read as. */
  lemma {:induction false} OneEntryRead(g: Grammar, done: seq<Entry>, entries: seq<Entry>, rest: seq<Token>,
                                         ts: seq<Token>, more: seq<Token>)
    requires entries != [] && |ts| >= 2 && more != []
    requires ts[0] == Token(StringLiteral, entries[0].key) && ts[1..][0] == Punct(":")
    requires ReadsBack(g, entries[0].value, more, ParseConditional(g, ts[2..]))
    requires more[0] == Punct(if |entries| == 1 then "}" else ",")
    requires |entries| == 1 ==> more[1..] == rest
    requires |entries| > 1 ==>
               EntriesReadBack(g, done + [entries[0]], entries[1..], rest,
                               ParseEntries(g, done + [entries[0]], more[1..]))
    ensures EntriesReadBack(g, done, entries, rest, ParseEntries(g, done, ts))
  {
    var e := entries[0];
    NewKeysStep(done, entries);
    assert NewKeys(done + [e], []) && EntriesFaithful(g, []);
    hide NewKeys, HasKey, ParseEntries, Faithful, ParseConditional, WellBuilt, DistinctKeys;
    if HasKey(done, e.key) || !Faithful(g, e.value) {
      EntryFails(g, done, ts);
    } else if |entries| == 1 {
      EntryIsLast(g, done, ts, e, more);
      assert entries[1..] == [];
      assert entries == [e];
    } else {
      EntryThenMore(g, done, ts, e, more);
      assert done + [e] + entries[1..] == done + entries;
    }
  }

  lemma {:induction false} EntryFails(g: Grammar, done: seq<Entry>, ts: seq<Token>)
    requires |ts| >= 2 && ts[0].kind == StringLiteral
    requires HasKey(done, ts[0].value) || ParseConditional(g, ts[2..]).Failed?
    ensures ParseEntries(g, done, ts).Failed?
  {
  }

  lemma {:induction false} EntryIsLast(g: Grammar, done: seq<Entry>, ts: seq<Token>, e: Entry, more: seq<Token>)
    requires |ts| >= 2 && ts[0] == Token(StringLiteral, e.key) && ts[1..][0] == Punct(":") && !HasKey(done, e.key)
    requires ParseConditional(g, ts[2..]) == Parsed(e.value, more) && more != [] && more[0] == Punct("}")
    ensures ParseEntries(g, done, ts) == Parsed(Object(done + [e]), more[1..])
  {
  }

  lemma {:induction false} EntryThenMore(g: Grammar, done: seq<Entry>, ts: seq<Token>, e: Entry, more: seq<Token>)
    requires |ts| >= 2 && ts[0] == Token(StringLiteral, e.key) && ts[1..][0] == Punct(":") && !HasKey(done, e.key)
    requires ParseConditional(g, ts[2..]) == Parsed(e.value, more) && more != [] && more[0] == Punct(",")
    ensures ParseEntries(g, done, ts) == ParseEntries(g, done + [e], more[1..])
  {
  }

  lemma {:induction false} EntryTokens(v: string, entries: seq<Entry>, tail: seq<Token>, more: seq<Token>)
    requires entries != []
    requires more == if |entries| == 1 then tail else [Punct(",")] + (PrintEntries(v, entries[1..]) + tail)
    ensures var ts := PrintEntries(v, entries) + tail;
            && |ts| >= 2 && ts[0] == Token(StringLiteral, entries[0].key) && ts[1..][0] == Punct(":")
            && ts[2..] == Print(v, entries[0].value, CONDITIONAL) + more
  {
    var head, value := [Token(StringLiteral, entries[0].key), Punct(":")], Print(v, entries[0].value, CONDITIONAL);
    var others := if |entries| == 1 then [] else [Punct(",")] + PrintEntries(v, entries[1..]);
    assert PrintEntries(v, entries) == head + value + others;
    hide Print, PrintEntries;
    assert more == others + tail;
    Regroup(head, value, others, tail);
    AfterTwo(head[0], head[1], value + more);
  }

  lemma {:induction false} Regroup(a: seq<Token>, b: seq<Token>, c: seq<Token>, d: seq<Token>)
    ensures a + b + c + d == a + (b + (c + d))
  {
  }

  lemma {:induction false} Associate(a: seq<Token>, b: seq<Token>, c: seq<Token>)
    ensures a + b + c == a + (b + c)
  {
  }

  lemma {:induction false} AfterTwo(a: Token, b: Token, rest: seq<Token>)
    ensures ([a, b] + rest)[0] == a && ([a, b] + rest)[1..][0] == b && ([a, b] + rest)[2..] == rest
  {
  }

  // ---------- the leaves of what is printed

  lemma {:induction false} LeavesConcat(a: seq<Token>, b: seq<Token>)
    ensures Leaves(a + b) == Leaves(a) + Leaves(b)
  {
    if a == [] {
      assert a + b == b;
    } else {
      assert (a + b)[1..] == a[1..] + b;
      LeavesConcat(a[1..], b);
    }
  }

  lemma {:induction false} ElementLeavesFront(elements: seq<Expr>)
    requires elements != []
    ensures ElementLeaves(elements) == LeafCount(elements[0]) + ElementLeaves(elements[1..])
    decreases |elements|
  {
    if |elements| > 1 {
      var shorter := elements[..|elements| - 1];
      ElementLeavesFront(shorter);
      assert elements[1..][..|elements| - 2] == shorter[1..];
    }
  }

  lemma {:induction false} EntryLeavesFront(entries: seq<Entry>)
    requires entries != []
    ensures EntryLeaves(entries) == 1 + LeafCount(entries[0].value) + EntryLeaves(entries[1..])
    decreases |entries|
  {
    if |entries| > 1 {
      var shorter := entries[..|entries| - 1];
      EntryLeavesFront(shorter);
      assert entries[1..][..|entries| - 2] == shorter[1..];
    }
  }

  lemma {:induction false} Around(a: Token, middle: seq<Token>, b: Token)
    requires !IsLeaf(a) && !IsLeaf(b)
    ensures Leaves([a] + middle + [b]) == Leaves(middle)
  {
    LeavesConcat([a] + middle, [b]);
    LeavesConcat([a], middle);
  }

  /** Printing adds no leaves and loses none. */
  lemma {:induction false} PrintedLeaves(v: string, e: Expr, level: nat)
    ensures Leaves(Print(v, e, level)) == LeafCount(e)
    decreases e, 1, if Precedence(e) < level then 1 else 0
  {
    if Precedence(e) < level {
      PrintedLeaves(v, e, CONDITIONAL);
      Around(Punct("("), Print(v, e, CONDITIONAL), Punct(")"));
    } else {
      match e
      case Lit(_) =>
      case Input =>
      case Array(elements) =>
        if elements == [] {
          Around(Punct("["), [], Punct("]"));
        } else {
          PrintedElementLeaves(v, elements);
          Around(Punct("["), PrintElements(v, elements), Punct("]"));
        }
      case Object(entries) =>
        if entries == [] {
          Around(Punct("{"), [], Punct("}"));
        } else {
          PrintedEntryLeaves(v, entries);
          Around(Punct("{"), PrintEntries(v, entries), Punct("}"));
        }
      case Unary(op, operand) =>
        PrintedLeaves(v, operand, UNARY);
        LeavesConcat([Token(Operator, UnarySymbol(op))], Print(v, operand, UNARY));
      case Binary(op, left, right) =>
        PrintedLeaves(v, left, Level(op));
        PrintedLeaves(v, right, Level(op) + 1);
        Joined(Print(v, left, Level(op)), Token(Operator, Symbol(op)), Print(v, right, Level(op) + 1));
      case Conditional(condition, whenTrue, whenFalse) =>
        PrintedLeaves(v, condition, 1);
        PrintedLeaves(v, whenTrue, CONDITIONAL);
        PrintedLeaves(v, whenFalse, CONDITIONAL);
        Joined(Print(v, condition, 1), Punct("?"), Print(v, whenTrue, CONDITIONAL));
        Joined(Print(v, condition, 1) + [Punct("?")] + Print(v, whenTrue, CONDITIONAL), Punct(":"),
               Print(v, whenFalse, CONDITIONAL));
    }
  }

  lemma {:induction false} Joined(a: seq<Token>, t: Token, b: seq<Token>)
    requires !IsLeaf(t)
    ensures Leaves(a + [t] + b) == Leaves(a) + Leaves(b)
  {
    LeavesConcat(a + [t], b);
    LeavesConcat(a, [t]);
  }

  lemma {:induction false} PrintedElementLeaves(v: string, elements: seq<Expr>)
    requires elements != []
    ensures Leaves(PrintElements(v, elements)) == ElementLeaves(elements)
    decreases elements, 0
  {
    PrintedLeaves(v, elements[0], CONDITIONAL);
    ElementLeavesFront(elements);
    if |elements| == 1 {
      assert PrintElements(v, elements) == Print(v, elements[0], CONDITIONAL);
    } else {
      PrintedElementLeaves(v, elements[1..]);
      Joined(Print(v, elements[0], CONDITIONAL), Punct(","), PrintElements(v, elements[1..]));
      assert PrintElements(v, elements)
          == Print(v, elements[0], CONDITIONAL) + [Punct(",")] + PrintElements(v, elements[1..]);
    }
  }

  lemma {:induction false} PrintedEntryLeaves(v: string, entries: seq<Entry>)
    requires entries != []
    ensures Leaves(PrintEntries(v, entries)) == EntryLeaves(entries)
    decreases entries, 0
  {
    hide Print, PrintEntries, Leaves, EntryLeaves, LeafCount, IsLeaf;
    var value := Print(v, entries[0].value, CONDITIONAL);
    var first := [Token(StringLiteral, entries[0].key)] + [Punct(":")] + value;
    PrintedEntry(v, entries);
    PrintedLeaves(v, entries[0].value, CONDITIONAL);
    EntryLeavesFront(entries);
    PairLeaves(entries[0].key, value);
    if |entries| > 1 {
      PrintedEntryLeaves(v, entries[1..]);
      Joined(first, Punct(","), PrintEntries(v, entries[1..]));
    }
  }

  lemma {:induction false} PairLeaves(key: string, value: seq<Token>)
    ensures Leaves([Token(StringLiteral, key)] + [Punct(":")] + value) == 1 + Leaves(value)
  {
    Joined([Token(StringLiteral, key)], Punct(":"), value);
  }

  lemma {:induction false} PrintedEntry(v: string, entries: seq<Entry>)
    requires entries != []
    ensures var value := Print(v, entries[0].value, CONDITIONAL);
            var first := [Token(StringLiteral, entries[0].key)] + [Punct(":")] + value;
            if |entries| == 1 then PrintEntries(v, entries) == first && EntryLeaves(entries[1..]) == 0
            else PrintEntries(v, entries) == first + [Punct(",")] + PrintEntries(v, entries[1..])
    ensures forall t :: t == Punct(",") ==> !IsLeaf(t)
  {
    hide Print;
  }

  // ---------- main results

  /** The tokens of a whole expression. */
  function PrintAll(variable: string, e: Expr): seq<Token> {
    Print(variable, e, CONDITIONAL) + [END]
  }

  /**
   Printing and parsing give back the expression exactly when it is faithful: number literals JSON-safe, object keys
   distinct, no array beginning with the literal "]", no object beginning with the key "}".
   */
  lemma {:induction false} RoundTrip(g: Grammar, e: Expr)
    requires !g.strict && GoodVariable(g)
    ensures Parse(g, PrintAll(g.variable, e)) == Ok(e) <==> Faithful(g, e)
  {
    hide Print, Faithful, ParseConditional;
    var ts, strict := PrintAll(g.variable, e), Strict(g);
    FaithfulIgnoresStrictness(g, e);
    PrintReads(strict, e, CONDITIONAL, [END]);
    CompareConditional(g, ts);
    if Parse(g, ts) == Ok(e) {
      var r := ParseConditional(g, ts);
      PrintedLeaves(g.variable, e, CONDITIONAL);
      LeavesConcat(Print(g.variable, e, CONDITIONAL), [END]);
      assert ParseConditional(strict, ts) == r;
    }
  }

  lemma {:induction false} FaithfulIgnoresStrictness(g: Grammar, e: Expr)
    ensures Faithful(Strict(g), e) <==> Faithful(g, e)
    decreases e, 1
  {
    match e
    case Lit(_) =>
    case Input =>
    case Array(elements) => AllIgnoreStrictness(g, elements);
    case Object(entries) => EntriesIgnoreStrictness(g, entries);
    case Unary(_, operand) => FaithfulIgnoresStrictness(g, operand);
    case Binary(_, left, right) =>
      FaithfulIgnoresStrictness(g, left);
      FaithfulIgnoresStrictness(g, right);
    case Conditional(condition, whenTrue, whenFalse) =>
      FaithfulIgnoresStrictness(g, condition);
      FaithfulIgnoresStrictness(g, whenTrue);
      FaithfulIgnoresStrictness(g, whenFalse);
  }

  lemma {:induction false} AllIgnoreStrictness(g: Grammar, elements: seq<Expr>)
    ensures AllFaithful(Strict(g), elements) <==> AllFaithful(g, elements)
    decreases elements, 0
  {
    if elements != [] {
      FaithfulIgnoresStrictness(g, elements[0]);
      AllIgnoreStrictness(g, elements[1..]);
    }
  }

  lemma {:induction false} EntriesIgnoreStrictness(g: Grammar, entries: seq<Entry>)
    ensures EntriesFaithful(Strict(g), entries) <==> EntriesFaithful(g, entries)
    decreases entries, 0
  {
    if entries != [] {
      FaithfulIgnoresStrictness(g, entries[0].value);
      EntriesIgnoreStrictness(g, entries[1..]);
    }
  }

  /** The two failing shapes: the list of one string "]" is refused, and so is the object whose first key is "}". */
  lemma {:induction false} FailingShapes(g: Grammar)
    requires !g.strict && GoodVariable(g)
    ensures var list, record := Array([Lit(Text("]"))]), Object([Entry("}", Lit(Null))]);
            && Parse(g, PrintAll(g.variable, list)) == Err(UnexpectedToken)
            && Parse(g, PrintAll(g.variable, record)) == Err(UnexpectedToken)
  {
    var bracket, brace := Token(StringLiteral, "]"), Token(StringLiteral, "}");
    var list, record := Array([Lit(Text("]"))]), Object([Entry("}", Lit(Null))]);
    assert PrintAll(g.variable, list)
        == [Punct("["), bracket] + [Punct("]"), END]
        == [Punct("["), bracket, Punct("]"), END];
    assert PrintAll(g.variable, record)
        == [Punct("{"), brace] + [Punct(":"), Token(Identifier, "null"), Punct("}"), END]
        == [Punct("{"), brace, Punct(":"), Token(Identifier, "null"), Punct("}"), END];
    EmptyThenMore(g, Punct("["), bracket, [Punct("]"), END]);
    EmptyThenMore(g, Punct("{"), brace, [Punct(":"), Token(Identifier, "null"), Punct("}"), END]);
  }

  /** An opening bracket directly followed by anything whose value closes it is a whole primary expression. */
  lemma {:induction false} EmptyThenMore(g: Grammar, open: Token, close: Token, rest: seq<Token>)
    requires !g.strict && rest != [] && rest[0].kind == Punctuation
    requires (open == Punct("[") && close.value == "]") || (open == Punct("{") && close.value == "}")
    requires !Sees(rest, "?") && !Sees(rest, ".") && !Sees(rest, "(")
    ensures Parse(g, [open, close] + rest) == Err(UnexpectedToken)
  {
    var ts := [open, close] + rest;
    assert ts[1..] == [close] + rest && ts[1..][1..] == rest;
    var e := if open.value == "[" then Array([]) else Object([]);
    assert ts[0] == open && Current(ts[1..]) == close;
    assert ParsePrimary(g, ts) == Parsed(e, rest);
    assert ParseUnary(g, ts) == Parsed(e, rest);
    assert ParseBinary(g, 6, ts) == Parsed(e, rest);
    assert ParseBinary(g, 5, ts) == Parsed(e, rest);
    assert ParseBinary(g, 4, ts) == Parsed(e, rest);
    assert ParseBinary(g, 3, ts) == Parsed(e, rest);
    assert ParseBinary(g, 2, ts) == Parsed(e, rest);
    assert ParseBinary(g, 1, ts) == Parsed(e, rest);
  }
}
