/**
 What the parser reads, said by the ways of writing an expression: parentheses wherever one likes, and chains of binary
 operators that group by how tightly each of them binds. Every proper way of writing is read as what it means.
 */
module CelGrammar {
  import opened Wrappers
  import opened CelSyntax
  import opened CelParser

  datatype Written =
    | Leaf(token: Token)
    | Parens(inner: Written)
    | Brackets(items: seq<Written>)
    | Braces(keys: seq<string>, values: seq<Written>)
    | Signed(sign: string, operand: Written)
    | Chain(operands: seq<Written>, symbols: seq<string>)
    | Choice(condition: Written, whenTrue: Written, whenFalse: Written)

  function Mark(value: string): Token {
    Token(Punctuation, value)
  }

  // ---------- how tightly a binary operator binds, and which operation it stands for

  function Tightness(symbol: string): nat {
    if symbol == "||" then 1
    else if symbol == "&&" then 2
    else if symbol == "==" || symbol == "!=" then 3
    else if symbol == "<" || symbol == "<=" || symbol == ">" || symbol == ">=" then 4
    else if symbol == "+" || symbol == "-" then 5
    else if symbol == "*" || symbol == "/" || symbol == "%" then 6
    else 0
  }

  function Operation(symbol: string): BinaryOp {
    match symbol
    case "||" => Or
    case "&&" => And
    case "==" => Eq
    case "!=" => Ne
    case "<" => Lt
    case "<=" => Le
    case ">" => Gt
    case ">=" => Ge
    case "+" => Add
    case "-" => Sub
    case "*" => Mul
    case "/" => Div
    case _ => Mod
  }

  lemma {:induction false} OperatorsAsWritten(symbol: string, level: nat)
    requires 1 <= level <= 6
    ensures IsOperatorOf(symbol, level) <==> Tightness(symbol) == level
    ensures Tightness(symbol) > 0 ==> OperatorOf(symbol) == Operation(symbol)
  {
  }

  /** The last of the operators that bind the least. */
  function Weakest(symbols: seq<string>): (k: nat)
    requires symbols != []
    ensures k < |symbols|
    ensures forall i :: 0 <= i < k ==> Tightness(symbols[k]) <= Tightness(symbols[i])
    ensures forall i :: k < i < |symbols| ==> Tightness(symbols[k]) < Tightness(symbols[i])
  {
    var n := |symbols| - 1;
    if n == 0 then 0
    else
      var k := Weakest(symbols[..n]);
      if Tightness(symbols[n]) <= Tightness(symbols[k]) then n else k
  }

  /** A chain is split where it binds the least, and where several bind alike, at the last of them. */
  function Grouped(operands: seq<Expr>, symbols: seq<string>): Expr
    requires |operands| == |symbols| + 1
    decreases |symbols|
  {
    if symbols == [] then operands[0]
    else
      var k := Weakest(symbols);
      Binary(Operation(symbols[k]), Grouped(operands[..k + 1], symbols[..k]),
             Grouped(operands[k + 1..], symbols[k + 1..]))
  }

  // ---------- the tokens of a way of writing, and what it means

  function Spelled(w: Written): seq<Token>
    decreases w, 1
  {
    match w
    case Leaf(token) => [token]
    case Parens(inner) => [Mark("(")] + (Spelled(inner) + [Mark(")")])
    case Brackets(items) => [Mark("[")] + (SpelledItems(items) + [Mark("]")])
    case Braces(keys, values) => [Mark("{")] + (SpelledPairs(keys, values) + [Mark("}")])
    case Signed(sign, operand) => [Token(Operator, sign)] + Spelled(operand)
    case Chain(operands, symbols) => SpelledChain(operands, symbols)
    case Choice(condition, whenTrue, whenFalse) =>
      Spelled(condition) + ([Mark("?")] + (Spelled(whenTrue) + ([Mark(":")] + Spelled(whenFalse))))
  }

  function SpelledItems(items: seq<Written>): seq<Token>
    decreases items, 0
  {
    if items == [] then []
    else if |items| == 1 then Spelled(items[0])
    else Spelled(items[0]) + ([Mark(",")] + SpelledItems(items[1..]))
  }

  function SpelledPairs(keys: seq<string>, values: seq<Written>): seq<Token>
    decreases values, 0
  {
    if values == [] || |keys| != |values| then []
    else
      var first := [Token(StringLiteral, keys[0]), Mark(":")] + Spelled(values[0]);
      if |values| == 1 then first else first + ([Mark(",")] + SpelledPairs(keys[1..], values[1..]))
  }

  function SpelledChain(operands: seq<Written>, symbols: seq<string>): seq<Token>
    decreases operands, 0
  {
    if operands == [] then []
    else if |operands| == 1 || symbols == [] then Spelled(operands[0])
    else Spelled(operands[0]) + ([Token(Operator, symbols[0])] + SpelledChain(operands[1..], symbols[1..]))
  }

  function LeafMeans(variable: string, token: Token): Expr {
    match token.kind
    case NumberLiteral => Lit(Number(token.value))
    case StringLiteral => Lit(Text(token.value))
    case _ =>
      if token.value == variable then Input
      else if token.value == "true" then Lit(Boolean(true))
      else if token.value == "false" then Lit(Boolean(false))
      else Lit(Null)
  }

  function SignMeans(sign: string): UnaryOp {
    match sign
    case "!" => Not
    case "-" => Minus
    case _ => Plus
  }

  function Means(variable: string, w: Written): Expr
    decreases w, 1
  {
    match w
    case Leaf(token) => LeafMeans(variable, token)
    case Parens(inner) => Means(variable, inner)
    case Brackets(items) => Array(MeansAll(variable, items))
    case Braces(keys, values) => Object(MeansPairs(variable, keys, values))
    case Signed(sign, operand) => Unary(SignMeans(sign), Means(variable, operand))
    case Chain(operands, symbols) =>
      if |operands| != |symbols| + 1 then Lit(Null) else Grouped(MeansAll(variable, operands), symbols)
    case Choice(condition, whenTrue, whenFalse) =>
      Conditional(Means(variable, condition), Means(variable, whenTrue), Means(variable, whenFalse))
  }

  function MeansAll(variable: string, ws: seq<Written>): (es: seq<Expr>)
    ensures |es| == |ws| && forall i :: 0 <= i < |ws| ==> es[i] == Means(variable, ws[i])
    decreases ws, 0
  {
    seq(|ws|, i requires 0 <= i < |ws| => Means(variable, ws[i]))
  }

  function MeansPairs(variable: string, keys: seq<string>, values: seq<Written>): (entries: seq<Entry>)
    ensures |keys| == |values| ==>
              |entries| == |keys|
              && forall i :: 0 <= i < |keys| ==> entries[i] == Entry(keys[i], Means(variable, values[i]))
    decreases values, 0
  {
    if |keys| != |values| then []
    else seq(|keys|, i requires 0 <= i < |keys| => Entry(keys[i], Means(variable, values[i])))
  }

  /** What may stand beside a binary operator without parentheses. */
  predicate IsOperand(w: Written) {
    !w.Chain? && !w.Choice?
  }

  predicate ProperLeaf(g: Grammar, token: Token) {
    match token.kind
    case NumberLiteral => g.safe(token.value)
    case StringLiteral => true
    case Identifier => token.value in {g.variable, "true", "false", "null"}
    case _ => false
  }

  /**
   A proper way of writing. An array may not begin with a token of the value "]", nor an object with the key "}": the
   parser takes them for the closing ones.
   */
  predicate Proper(g: Grammar, w: Written)
    decreases w
  {
    match w
    case Leaf(token) => ProperLeaf(g, token)
    case Parens(inner) => Proper(g, inner)
    case Brackets(items) =>
      && (forall i :: 0 <= i < |items| ==> Proper(g, items[i]))
      && (items != [] ==> Current(Spelled(items[0])).value != "]")
    case Braces(keys, values) =>
      && |keys| == |values|
      && (forall i :: 0 <= i < |values| ==> Proper(g, values[i]))
      && (forall i, j :: 0 <= i < j < |keys| ==> keys[i] != keys[j])
      && (keys != [] ==> keys[0] != "}")
    case Signed(sign, operand) => sign in {"!", "-", "+"} && IsOperand(operand) && Proper(g, operand)
    case Chain(operands, symbols) =>
      && |operands| == |symbols| + 1
      && (forall i :: 0 <= i < |operands| ==> IsOperand(operands[i]) && Proper(g, operands[i]))
      && (forall i :: 0 <= i < |symbols| ==> Tightness(symbols[i]) > 0)
    case Choice(condition, whenTrue, whenFalse) =>
      !condition.Choice? && Proper(g, condition) && Proper(g, whenTrue) && Proper(g, whenFalse)
  }

  // ---------- every proper way of writing is read as what it means

  /** After this token no operand goes on, and no operator binds more tightly than this level. */
  predicate Ends(t: Token, level: nat) {
    t.value != "(" && (t.kind == Operator ==> Tightness(t.value) <= level)
  }

  lemma {:induction false} LoopEnds(g: Grammar, level: nat, e: Expr, rest: seq<Token>)
    requires 1 <= level <= 6 && Ends(Current(rest), level - 1)
    ensures BinaryLoop(g, level, e, rest) == Parsed(e, rest)
  {
    OperatorsAsWritten(Current(rest).value, level);
  }

  /** From an operand alone up to the loop of any level. */
  lemma {:induction false} Climb(g: Grammar, level: nat, ts: seq<Token>, e: Expr, rest: seq<Token>)
    requires 1 <= level <= 6 && ParseUnary(g, ts) == Parsed(e, rest) && Ends(Current(rest), level)
    ensures ParseBinary(g, level, ts) == BinaryLoop(g, level, e, rest)
    decreases 8 - level
  {
    if level < 6 {
      Climb(g, level + 1, ts, e, rest);
      LoopEnds(g, level + 1, e, rest);
    }
  }

  lemma {:induction false} ChainSplits(operands: seq<Written>, symbols: seq<string>, k: nat)
    requires |operands| == |symbols| + 1 && k < |symbols|
    ensures SpelledChain(operands, symbols)
         == SpelledChain(operands[..k + 1], symbols[..k])
            + ([Token(Operator, symbols[k])] + SpelledChain(operands[k + 1..], symbols[k + 1..]))
    decreases k
  {
    if k > 0 {
      ChainSplits(operands[1..], symbols[1..], k - 1);
      assert operands[1..][..k] == operands[..k + 1][1..] && symbols[1..][..k - 1] == symbols[..k][1..];
      assert operands[1..][k..] == operands[k + 1..] && symbols[1..][k..] == symbols[k + 1..];
    }
  }

  predicate ProperChain(g: Grammar, operands: seq<Written>, symbols: seq<string>, level: nat) {
    && |operands| == |symbols| + 1
    && (forall i :: 0 <= i < |operands| ==> IsOperand(operands[i]) && Proper(g, operands[i]))
    && (forall i :: 0 <= i < |symbols| ==> Tightness(symbols[i]) >= level)
  }

  /** A level reads a chain of operators that bind at least as tightly, and goes on with its loop. */
  lemma {:induction false} ChainReads(g: Grammar, operands: seq<Written>, symbols: seq<string>, level: nat,
                                      rest: seq<Token>)
    requires 1 <= level <= 6 && ProperChain(g, operands, symbols, level) && Ends(Current(rest), level)
    ensures ParseBinary(g, level, SpelledChain(operands, symbols) + rest)
         == BinaryLoop(g, level, Grouped(MeansAll(g.variable, operands), symbols), rest)
    decreases operands, 8 - level, 1
  {
    if symbols == [] {
      OneOperand(g, operands);
      hide *;
      OperandReads(g, operands[0], rest);
      Climb(g, level, Spelled(operands[0]) + rest, Means(g.variable, operands[0]), rest);
    } else if Tightness(symbols[Weakest(symbols)]) > level {
      RightSideReads(g, operands, symbols, level, rest);
      hide SpelledChain, Grouped;
    } else {
      SplitChainReads(g, operands, symbols, level, rest);
    }
  }

  lemma {:induction false} OneOperand(g: Grammar, operands: seq<Written>)
    requires |operands| == 1
    ensures SpelledChain(operands, []) == Spelled(operands[0])
    ensures Grouped(MeansAll(g.variable, operands), []) == Means(g.variable, operands[0])
  {
  }

  /** The two sides of the last of the weakest operators. */
  lemma {:induction false} SplitChainReads(g: Grammar, operands: seq<Written>, symbols: seq<string>, level: nat,
                                           rest: seq<Token>)
    requires 1 <= level <= 6 && ProperChain(g, operands, symbols, level) && Ends(Current(rest), level)
    requires symbols != [] && Tightness(symbols[Weakest(symbols)]) == level
    ensures ParseBinary(g, level, SpelledChain(operands, symbols) + rest)
         == BinaryLoop(g, level, Grouped(MeansAll(g.variable, operands), symbols), rest)
    decreases operands, 0, 0
  {
    var v, k := g.variable, Weakest(symbols);
    var before, after := operands[..k + 1], operands[k + 1..];
    var left, right := Grouped(MeansAll(v, before), symbols[..k]), Grouped(MeansAll(v, after), symbols[k + 1..]);
    var next := SpelledChain(after, symbols[k + 1..]) + rest;
    var loop := [Token(Operator, symbols[k])] + next;
    SidesOfChain(g, operands, symbols, level);
    Associate(SpelledChain(before, symbols[..k]), [Token(Operator, symbols[k])], SpelledChain(after, symbols[k + 1..]),
              rest);
    OperatorEnds(symbols[k], next);
    hide *;
    ChainReads(g, before, symbols[..k], level, loop);
    RightSideReads(g, after, symbols[k + 1..], level, rest);
    LoopStep(g, level, left, symbols[k], next, right, rest);
  }

  lemma {:induction false} Associate(a: seq<Token>, b: seq<Token>, c: seq<Token>, rest: seq<Token>)
    ensures a + (b + c) + rest == a + (b + (c + rest))
  {
  }

  lemma {:induction false} SidesOfChain(g: Grammar, operands: seq<Written>, symbols: seq<string>, level: nat)
    requires ProperChain(g, operands, symbols, level) && symbols != []
    requires Tightness(symbols[Weakest(symbols)]) == level
    ensures var k, v := Weakest(symbols), g.variable;
            var before, after := operands[..k + 1], operands[k + 1..];
            && ProperChain(g, before, symbols[..k], level) && ProperChain(g, after, symbols[k + 1..], level + 1)
            && SpelledChain(operands, symbols)
            == SpelledChain(before, symbols[..k])
               + ([Token(Operator, symbols[k])] + SpelledChain(after, symbols[k + 1..]))
            && Grouped(MeansAll(v, operands), symbols)
            == Binary(Operation(symbols[k]), Grouped(MeansAll(v, before), symbols[..k]),
                      Grouped(MeansAll(v, after), symbols[k + 1..]))
  {
    hide *;
    ProperSides(g, operands, symbols, level);
    ChainSplits(operands, symbols, Weakest(symbols));
    GroupedSides(g.variable, operands, symbols);
  }

  lemma {:induction false} ProperSides(g: Grammar, operands: seq<Written>, symbols: seq<string>, level: nat)
    requires ProperChain(g, operands, symbols, level) && symbols != []
    requires Tightness(symbols[Weakest(symbols)]) == level
    ensures var k := Weakest(symbols);
            && k < |symbols| && |operands| == |symbols| + 1
            && ProperChain(g, operands[..k + 1], symbols[..k], level)
            && ProperChain(g, operands[k + 1..], symbols[k + 1..], level + 1)
  {
    hide Proper, Tightness;
  }

  lemma {:induction false} GroupedSides(v: string, operands: seq<Written>, symbols: seq<string>)
    requires |operands| == |symbols| + 1 && symbols != []
    ensures Grouped(MeansAll(v, operands), symbols)
         == var k := Weakest(symbols);
            Binary(Operation(symbols[k]), Grouped(MeansAll(v, operands[..k + 1]), symbols[..k]),
                   Grouped(MeansAll(v, operands[k + 1..]), symbols[k + 1..]))
  {
    hide Operation, Means;
    var k := Weakest(symbols);
    assert MeansAll(v, operands[..k + 1]) == MeansAll(v, operands)[..k + 1];
    assert MeansAll(v, operands[k + 1..]) == MeansAll(v, operands)[k + 1..];
  }

  lemma {:induction false} RightSideReads(g: Grammar, operands: seq<Written>, symbols: seq<string>, level: nat,
                                          rest: seq<Token>)
    requires 1 <= level <= 6 && ProperChain(g, operands, symbols, level + 1) && Ends(Current(rest), level)
    ensures ParseOperand(g, level, SpelledChain(operands, symbols) + rest)
         == Parsed(Grouped(MeansAll(g.variable, operands), symbols), rest)
    decreases operands, 8 - level, 0
  {
    if level < 6 {
      hide Grouped, SpelledChain, Proper, ProperChain, Tightness, BinaryLoop, ParseBinary;
      ChainReads(g, operands, symbols, level + 1, rest);
      LoopEnds(g, level + 1, Grouped(MeansAll(g.variable, operands), symbols), rest);
    } else {
      NothingBindsTighter(symbols);
      hide Proper, Tightness, ParseUnary, SpelledChain, Grouped, Spelled, Means;
      OneOperand(g, operands);
      OperandReads(g, operands[0], rest);
    }
  }

  lemma {:induction false} OperatorEnds(symbol: string, ts: seq<Token>)
    requires Tightness(symbol) > 0
    ensures Ends(Current([Token(Operator, symbol)] + ts), Tightness(symbol))
  {
  }

  lemma {:induction false} NothingBindsTighter(symbols: seq<string>)
    ensures symbols != [] ==> Tightness(symbols[0]) <= 6
  {
  }

  /** One round of a level's loop. */
  lemma {:induction false} LoopStep(g: Grammar, level: nat, left: Expr, symbol: string, ts: seq<Token>, right: Expr,
                                    rest: seq<Token>)
    requires 1 <= level <= 6 && Tightness(symbol) == level && ParseOperand(g, level, ts) == Parsed(right, rest)
    ensures BinaryLoop(g, level, left, [Token(Operator, symbol)] + ts)
         == BinaryLoop(g, level, Binary(Operation(symbol), left, right), rest)
  {
    OperatorsAsWritten(symbol, level);
    assert ([Token(Operator, symbol)] + ts)[1..] == ts;
  }

  lemma {:induction false} OperandReads(g: Grammar, w: Written, rest: seq<Token>)
    requires Proper(g, w) && IsOperand(w) && Current(rest).value != "("
    ensures ParseUnary(g, Spelled(w) + rest) == Parsed(Means(g.variable, w), rest)
    decreases w, 1
  {
    match w
    case Leaf(token) => LeafReads(g, token, rest);
    case Parens(inner) =>
      var closing := [Mark(")")] + rest;
      assert Spelled(w) + rest == [Mark("(")] + (Spelled(inner) + closing);
      WholeReads(g, inner, closing);
      ParenthesesRead(g, Spelled(inner) + closing, Means(g.variable, inner), closing);
      assert closing[1..] == rest;
    case Brackets(items) => BracketsRead(g, items, rest);
    case Braces(keys, values) => BracesRead(g, keys, values, rest);
    case Signed(sign, operand) =>
      OperandReads(g, operand, rest);
      assert Spelled(w) + rest == [Token(Operator, sign)] + (Spelled(operand) + rest);
      SignReads(g, sign, Spelled(operand) + rest, Means(g.variable, operand), rest);
  }

  lemma {:induction false} LeafReads(g: Grammar, token: Token, rest: seq<Token>)
    requires ProperLeaf(g, token) && Current(rest).value != "("
    ensures ParseUnary(g, [token] + rest) == Parsed(LeafMeans(g.variable, token), rest)
  {
    assert ([token] + rest)[1..] == rest;
  }

  /** Whatever stands in parentheses is read as it is read alone. */
  lemma {:induction false} ParenthesesRead(g: Grammar, ts: seq<Token>, e: Expr, closing: seq<Token>)
    requires ParseConditional(g, ts) == Parsed(e, closing) && closing != [] && closing[0] == Mark(")")
    ensures ParsePrimary(g, [Mark("(")] + ts) == ParseUnary(g, [Mark("(")] + ts) == Parsed(e, closing[1..])
  {
    assert ([Mark("(")] + ts)[1..] == ts;
    hide ParseConditional, WellBuilt;
  }

  lemma {:induction false} SignReads(g: Grammar, sign: string, ts: seq<Token>, e: Expr, rest: seq<Token>)
    requires sign in {"!", "-", "+"} && ParseUnary(g, ts) == Parsed(e, rest)
    ensures ParseUnary(g, [Token(Operator, sign)] + ts) == Parsed(Unary(SignMeans(sign), e), rest)
  {
    assert ([Token(Operator, sign)] + ts)[1..] == ts;
  }

  lemma {:induction false} BracketsRead(g: Grammar, items: seq<Written>, rest: seq<Token>)
    requires Proper(g, Brackets(items))
    ensures ParseUnary(g, Spelled(Brackets(items)) + rest) == Parsed(Array(MeansAll(g.variable, items)), rest)
    decreases items, 5
  {
    var ts := SpelledItems(items) + ([Mark("]")] + rest);
    assert Spelled(Brackets(items)) + rest == [Mark("[")] + ts && ([Mark("[")] + ts)[1..] == ts;
    assert ParseUnary(g, [Mark("[")] + ts) == ParseArray(g, ts);
    hide ParseUnary, Proper;
    if items == [] {
      assert ts == [Mark("]")] + rest && ts[1..] == rest;
    } else {
      FirstOfItems(g, items, [Mark("]")] + rest);
      ItemsRead(g, [], items, rest);
      assert [] + MeansAll(g.variable, items) == MeansAll(g.variable, items);
    }
  }

  /** No proper way of writing is empty. */
  lemma {:induction false} SomethingSpelled(g: Grammar, w: Written)
    requires Proper(g, w)
    ensures Spelled(w) != []
    decreases w
  {
    match w
    case Chain(operands, _) =>
      SomethingSpelled(g, operands[0]);
      assert Spelled(w) == SpelledChain(operands, w.symbols);
    case Choice(condition, _, _) => SomethingSpelled(g, condition);
    case _ =>
  }

  lemma {:induction false} FirstOfItems(g: Grammar, items: seq<Written>, rest: seq<Token>)
    requires Proper(g, Brackets(items)) && items != []
    ensures !Sees(SpelledItems(items) + rest, "]")
  {
    SomethingSpelled(g, items[0]);
    assert SpelledItems(items)[0] == Spelled(items[0])[0];
    assert (SpelledItems(items) + rest)[0] == Spelled(items[0])[0];
    hide Spelled, SpelledItems;
  }

  lemma {:induction false} ItemsRead(g: Grammar, before: seq<Expr>, items: seq<Written>, rest: seq<Token>)
    requires items != [] && forall i :: 0 <= i < |items| ==> Proper(g, items[i])
    ensures ParseElements(g, before, SpelledItems(items) + ([Mark("]")] + rest))
         == Parsed(Array(before + MeansAll(g.variable, items)), rest)
    decreases items, 4
  {
    hide *;
    var v, closing := g.variable, [Mark("]")] + rest;
    var e, tail := Means(v, items[0]), SpelledItems(items[1..]) + closing;
    var after := if |items| == 1 then closing else [Mark(",")] + tail;
    ItemsSpelled(items, closing);
    ItemsMean(v, items);
    MarkEnds("]", rest);
    MarkEnds(",", tail);
    WholeReads(g, items[0], after);
    ItemReads(g, before, Spelled(items[0]) + after, e, after);
    if |items| > 1 {
      ItemsRead(g, before + [e], items[1..], rest);
      assert before + [e] + MeansAll(v, items[1..]) == before + ([e] + MeansAll(v, items[1..]));
    } else {
      assert [e] + [] == [e];
    }
  }

  lemma {:induction false} ItemsSpelled(items: seq<Written>, closing: seq<Token>)
    requires items != []
    ensures SpelledItems(items) + closing
         == Spelled(items[0]) + if |items| == 1 then closing
                                else [Mark(",")] + (SpelledItems(items[1..]) + closing)
  {
    hide Spelled;
    if |items| > 1 {
      Associate(Spelled(items[0]), [Mark(",")], SpelledItems(items[1..]), closing);
    }
  }

  lemma {:induction false} ItemsMean(v: string, items: seq<Written>)
    requires items != []
    ensures MeansAll(v, items) == [Means(v, items[0])] + if |items| == 1 then [] else MeansAll(v, items[1..])
  {
    hide Means;
  }

  /** One element, and what comes after it. */
  lemma {:induction false} ItemReads(g: Grammar, before: seq<Expr>, ts: seq<Token>, e: Expr, rest: seq<Token>)
    requires ParseConditional(g, ts) == Parsed(e, rest) && rest != []
    ensures rest[0] == Mark(",") ==> ParseElements(g, before, ts) == ParseElements(g, before + [e], rest[1..])
    ensures rest[0] == Mark("]") ==> ParseElements(g, before, ts) == Parsed(Array(before + [e]), rest[1..])
  {
    hide ParseConditional, WellBuilt;
  }

  lemma {:induction false} BracesRead(g: Grammar, keys: seq<string>, values: seq<Written>, rest: seq<Token>)
    requires Proper(g, Braces(keys, values))
    ensures ParseUnary(g, Spelled(Braces(keys, values)) + rest)
         == Parsed(Object(MeansPairs(g.variable, keys, values)), rest)
    decreases values, 5
  {
    var ts := SpelledPairs(keys, values) + ([Mark("}")] + rest);
    assert Spelled(Braces(keys, values)) + rest == [Mark("{")] + ts && ([Mark("{")] + ts)[1..] == ts;
    assert ParseUnary(g, [Mark("{")] + ts) == ParseObject(g, ts);
    hide ParseUnary;
    if values == [] {
      assert ts == [Mark("}")] + rest && ts[1..] == rest;
    } else {
      assert ts[0] == Token(StringLiteral, keys[0]);
      PairsRead(g, [], keys, values, rest);
      assert [] + MeansPairs(g.variable, keys, values) == MeansPairs(g.variable, keys, values);
    }
  }

  lemma {:induction false} PairsRead(g: Grammar, before: seq<Entry>, keys: seq<string>, values: seq<Written>,
                                     rest: seq<Token>)
    requires values != [] && |keys| == |values| && forall i :: 0 <= i < |values| ==> Proper(g, values[i])
    requires forall i, j :: 0 <= i < j < |keys| ==> keys[i] != keys[j]
    requires forall i :: 0 <= i < |keys| ==> !HasKey(before, keys[i])
    ensures ParseEntries(g, before, SpelledPairs(keys, values) + ([Mark("}")] + rest))
         == Parsed(Object(before + MeansPairs(g.variable, keys, values)), rest)
    decreases values, 4
  {
    hide *;
    var v, closing := g.variable, [Mark("}")] + rest;
    var entry := Entry(keys[0], Means(v, values[0]));
    var tail := SpelledPairs(keys[1..], values[1..]) + closing;
    var after := if |values| == 1 then closing else [Mark(",")] + tail;
    PairsSpelled(keys, values, closing);
    PairsMean(v, keys, values);
    KeysStayNew(before, entry, keys);
    MarkEnds("}", rest);
    MarkEnds(",", tail);
    WholeReads(g, values[0], after);
    EntryReads(g, before, keys[0], Spelled(values[0]) + after, entry.value, after);
    if |values| > 1 {
      MeansThen(before, entry, MeansPairs(v, keys[1..], values[1..]));
      PairsRead(g, before + [entry], keys[1..], values[1..], rest);
    } else {
      MeansThen(before, entry, []);
    }
  }

  lemma {:induction false} MeansThen(before: seq<Entry>, entry: Entry, more: seq<Entry>)
    ensures before + [entry] + more == before + ([entry] + more) && before + [entry] + [] == before + [entry]
  {
  }

  lemma {:induction false} MarkEnds(value: string, ts: seq<Token>)
    requires value != "(" && value != "?"
    ensures ([Mark(value)] + ts)[0] == Mark(value) && ([Mark(value)] + ts)[1..] == ts
    ensures EndsWhole(Current([Mark(value)] + ts))
  {
  }

  lemma {:induction false} PairsSpelled(keys: seq<string>, values: seq<Written>, closing: seq<Token>)
    requires values != [] && |keys| == |values|
    ensures SpelledPairs(keys, values) + closing
         == [Token(StringLiteral, keys[0]), Mark(":")]
            + (Spelled(values[0]) + if |values| == 1 then closing
                                    else [Mark(",")] + (SpelledPairs(keys[1..], values[1..]) + closing))
  {
    hide Spelled;
    var pair, value := [Token(StringLiteral, keys[0]), Mark(":")], Spelled(values[0]);
    if |values| > 1 {
      var more := SpelledPairs(keys[1..], values[1..]);
      assert SpelledPairs(keys, values) == (pair + value) + ([Mark(",")] + more);
      hide SpelledPairs;
      Associate(pair + value, [Mark(",")], more, closing);
      assert (pair + value) + ([Mark(",")] + (more + closing)) == pair + (value + ([Mark(",")] + (more + closing)));
    }
  }

  lemma {:induction false} PairsMean(variable: string, keys: seq<string>, values: seq<Written>)
    requires values != [] && |keys| == |values|
    ensures MeansPairs(variable, keys, values)
         == [Entry(keys[0], Means(variable, values[0]))]
            + if |values| == 1 then [] else MeansPairs(variable, keys[1..], values[1..])
  {
    hide Means;
  }

  lemma {:induction false} KeysStayNew(before: seq<Entry>, entry: Entry, keys: seq<string>)
    requires keys != [] && entry.key == keys[0]
    requires forall i, j :: 0 <= i < j < |keys| ==> keys[i] != keys[j]
    requires forall i :: 0 <= i < |keys| ==> !HasKey(before, keys[i])
    ensures forall i :: 0 <= i < |keys[1..]| ==> !HasKey(before + [entry], keys[1..][i])
  {
    forall i | 0 <= i < |keys| - 1
      ensures !HasKey(before + [entry], keys[1..][i])
    {
      assert !HasKey(before, keys[i + 1]) && keys[0] != keys[i + 1];
    }
  }

  /** One entry, and what comes after it. */
  lemma {:induction false} EntryReads(g: Grammar, before: seq<Entry>, key: string, ts: seq<Token>, e: Expr,
                                      rest: seq<Token>)
    requires ParseConditional(g, ts) == Parsed(e, rest) && !HasKey(before, key) && rest != []
    ensures var r := ParseEntries(g, before, [Token(StringLiteral, key), Mark(":")] + ts);
            && (rest[0] == Mark(",") ==> r == ParseEntries(g, before + [Entry(key, e)], rest[1..]))
            && (rest[0] == Mark("}") ==> r == Parsed(Object(before + [Entry(key, e)]), rest[1..]))
  {
    PairTokens(key, ts);
    hide ParseConditional, HasKey, WellBuilt;
  }

  lemma {:induction false} PairTokens(key: string, ts: seq<Token>)
    ensures var pair := [Token(StringLiteral, key), Mark(":")] + ts;
            Current(pair) == Token(StringLiteral, key) && pair[1..][0] == Mark(":") && pair[2..] == ts
  {
  }

  /** After this token no expression goes on. */
  predicate EndsWhole(t: Token) {
    Ends(t, 0) && t.value != "?"
  }

  lemma {:induction false} WholeReads(g: Grammar, w: Written, rest: seq<Token>)
    requires Proper(g, w) && EndsWhole(Current(rest))
    ensures ParseConditional(g, Spelled(w) + rest) == Parsed(Means(g.variable, w), rest)
    decreases w, 3
  {
    if w.Choice? {
      ChoiceReads(g, w, rest);
    } else {
      ConditionReads(g, w, rest);
    }
  }

  lemma {:induction false} ConditionReads(g: Grammar, w: Written, rest: seq<Token>)
    requires Proper(g, w) && !w.Choice? && Ends(Current(rest), 0)
    ensures ParseBinary(g, 1, Spelled(w) + rest) == Parsed(Means(g.variable, w), rest)
    decreases w, 2
  {
    if w.Chain? {
      ChainReads(g, w.operands, w.symbols, 1, rest);
    } else {
      OperandReads(g, w, rest);
      Climb(g, 1, Spelled(w) + rest, Means(g.variable, w), rest);
    }
    LoopEnds(g, 1, Means(g.variable, w), rest);
  }

  lemma {:induction false} ChoiceReads(g: Grammar, w: Written, rest: seq<Token>)
    requires w.Choice? && Proper(g, w) && EndsWhole(Current(rest))
    ensures ParseConditional(g, Spelled(w) + rest) == Parsed(Means(g.variable, w), rest)
    decreases w, 0
  {
    var c, t, f := Spelled(w.condition), Spelled(w.whenTrue), Spelled(w.whenFalse);
    var afterTrue := [Mark(":")] + (f + rest);
    var afterCondition := [Mark("?")] + (t + afterTrue);
    assert Spelled(w) == c + ([Mark("?")] + (t + ([Mark(":")] + f)));
    assert Means(g.variable, w) == Conditional(Means(g.variable, w.condition), Means(g.variable, w.whenTrue),
                                               Means(g.variable, w.whenFalse));
    QuestionEnds(t + afterTrue);
    MarkEnds(":", f + rest);
    hide Spelled, Means, ParseConditional, ParseBinary, Proper, EndsWhole, Ends;
    FiveParts(c, t, f, rest);
    ConditionReads(g, w.condition, afterCondition);
    WholeReads(g, w.whenTrue, afterTrue);
    WholeReads(g, w.whenFalse, rest);
    PartsRead(g, c + afterCondition, Means(g.variable, w.condition), t + afterTrue, Means(g.variable, w.whenTrue),
              f + rest, Means(g.variable, w.whenFalse), rest);
  }

  lemma {:induction false} QuestionEnds(ts: seq<Token>)
    ensures Ends(Current([Mark("?")] + ts), 0)
  {
  }

  lemma {:induction false} FiveParts(c: seq<Token>, t: seq<Token>, f: seq<Token>, rest: seq<Token>)
    ensures c + ([Mark("?")] + (t + ([Mark(":")] + f))) + rest
         == c + ([Mark("?")] + (t + ([Mark(":")] + (f + rest))))
  {
    var end := [Mark(":")] + f;
    Associate(c, [Mark("?")], t + end, rest);
    Associate(t, [Mark(":")], f, rest);
  }

  /** A condition, and after it the two branches. */
  lemma {:induction false} PartsRead(g: Grammar, ts: seq<Token>, c: Expr, afterQuestion: seq<Token>, t: Expr,
                                     afterColon: seq<Token>, f: Expr, rest: seq<Token>)
    requires ParseBinary(g, 1, ts) == Parsed(c, [Mark("?")] + afterQuestion)
    requires ParseConditional(g, afterQuestion) == Parsed(t, [Mark(":")] + afterColon)
    requires ParseConditional(g, afterColon) == Parsed(f, rest)
    ensures ParseConditional(g, ts) == Parsed(Conditional(c, t, f), rest)
  {
    assert ([Mark("?")] + afterQuestion)[1..] == afterQuestion && ([Mark(":")] + afterColon)[1..] == afterColon;
    hide ParseBinary, WellBuilt;
  }

  // ---------- whole token lists

  /** Every proper way of writing an expression is parsed, and to what it means. */
  lemma {:induction false} WrittenIsParsed(g: Grammar, w: Written)
    requires Proper(g, w)
    ensures Parse(g, Spelled(w) + [END]) == Ok(Means(g.variable, w))
  {
    WholeReads(g, w, [END]);
    hide Spelled, Means;
  }

  /** No token list has two meanings. */
  lemma {:induction false} NoTwoMeanings(g: Grammar, w: Written, w': Written)
    requires Proper(g, w) && Proper(g, w') && Spelled(w) == Spelled(w')
    ensures Means(g.variable, w) == Means(g.variable, w')
  {
    WrittenIsParsed(g, w);
    WrittenIsParsed(g, w');
  }

  /** Of two operators between three leaves the tighter one binds first, and of two alike the left one. */
  lemma {:induction false} TighterBindsFirst(g: Grammar, a: Token, symbol: string, b: Token, symbol': string, c: Token,
                                             x: Expr, y: Expr, z: Expr)
    requires ProperLeaf(g, a) && ProperLeaf(g, b) && ProperLeaf(g, c) && Tightness(symbol) > 0 && Tightness(symbol') > 0
    requires x == LeafMeans(g.variable, a) && y == LeafMeans(g.variable, b) && z == LeafMeans(g.variable, c)
    ensures Parse(g, [a, Token(Operator, symbol), b, Token(Operator, symbol'), c, END])
         == Ok(if Tightness(symbol') > Tightness(symbol)
               then Binary(Operation(symbol), x, Binary(Operation(symbol'), y, z))
               else Binary(Operation(symbol'), Binary(Operation(symbol), x, y), z))
  {
    var operands, symbols := [Leaf(a), Leaf(b), Leaf(c)], [symbol, symbol'];
    hide *;
    ThreeLeaves(a, symbol, b, symbol', c);
    ThreeAreProper(g, a, symbol, b, symbol', c);
    GroupedThree(x, symbol, y, symbol', z);
    WrittenIsParsed(g, Chain(operands, symbols));
  }

  lemma {:induction false} ThreeAreProper(g: Grammar, a: Token, symbol: string, b: Token, symbol': string, c: Token)
    requires ProperLeaf(g, a) && ProperLeaf(g, b) && ProperLeaf(g, c) && Tightness(symbol) > 0 && Tightness(symbol') > 0
    ensures var w := Chain([Leaf(a), Leaf(b), Leaf(c)], [symbol, symbol']);
            && Proper(g, w)
            && Means(g.variable, w) == Grouped([LeafMeans(g.variable, a), LeafMeans(g.variable, b),
                                                LeafMeans(g.variable, c)], [symbol, symbol'])
  {
    hide ProperLeaf, Tightness, Grouped, LeafMeans;
    var operands := [Leaf(a), Leaf(b), Leaf(c)];
    assert MeansAll(g.variable, operands)
        == [LeafMeans(g.variable, a), LeafMeans(g.variable, b), LeafMeans(g.variable, c)];
  }

  lemma {:induction false} ThreeLeaves(a: Token, symbol: string, b: Token, symbol': string, c: Token)
    ensures Spelled(Chain([Leaf(a), Leaf(b), Leaf(c)], [symbol, symbol'])) + [END]
         == [a, Token(Operator, symbol), b, Token(Operator, symbol'), c, END]
  {
    assert SpelledChain([Leaf(c)], []) == [c];
    assert [Leaf(b), Leaf(c)][1..] == [Leaf(c)] && [symbol'][1..] == [];
    assert SpelledChain([Leaf(b), Leaf(c)], [symbol']) == [b, Token(Operator, symbol'), c];
    assert [Leaf(a), Leaf(b), Leaf(c)][1..] == [Leaf(b), Leaf(c)] && [symbol, symbol'][1..] == [symbol'];
    assert SpelledChain([Leaf(a), Leaf(b), Leaf(c)], [symbol, symbol'])
        == [a, Token(Operator, symbol), b, Token(Operator, symbol'), c];
  }

  lemma {:induction false} GroupedThree(x: Expr, symbol: string, y: Expr, symbol': string, z: Expr)
    ensures Grouped([x, y, z], [symbol, symbol'])
         == if Tightness(symbol') > Tightness(symbol)
            then Binary(Operation(symbol), x, Binary(Operation(symbol'), y, z))
            else Binary(Operation(symbol'), Binary(Operation(symbol), x, y), z)
  {
    hide Tightness, Operation, Grouped;
    var symbols := [symbol, symbol'];
    assert symbols[0] == symbol && symbols[1] == symbol';
    if Weakest(symbols) == 0 {
      FirstIsWeakest(x, symbol, y, symbol', z);
      GroupedTwo(y, symbol', z);
    } else {
      SecondIsWeakest(x, symbol, y, symbol', z);
      GroupedTwo(x, symbol, y);
    }
  }

  lemma {:induction false} FirstIsWeakest(x: Expr, symbol: string, y: Expr, symbol': string, z: Expr)
    requires Weakest([symbol, symbol']) == 0
    ensures Grouped([x, y, z], [symbol, symbol']) == Binary(Operation(symbol), x, Grouped([y, z], [symbol']))
  {
    hide Weakest, Operation;
    var operands, symbols := [x, y, z], [symbol, symbol'];
    assert symbols[1..] == [symbol'] && operands[1..] == [y, z] && operands[..1] == [x] && symbols[..0] == [];
    assert Grouped([x], []) == x;
  }

  lemma {:induction false} SecondIsWeakest(x: Expr, symbol: string, y: Expr, symbol': string, z: Expr)
    requires Weakest([symbol, symbol']) == 1
    ensures Grouped([x, y, z], [symbol, symbol']) == Binary(Operation(symbol'), Grouped([x, y], [symbol]), z)
  {
    hide Weakest, Operation;
    var operands, symbols := [x, y, z], [symbol, symbol'];
    assert symbols[..1] == [symbol] && operands[..2] == [x, y] && operands[2..] == [z] && symbols[2..] == [];
    assert Grouped([z], []) == z;
  }

  lemma {:induction false} GroupedTwo(x: Expr, symbol: string, y: Expr)
    ensures Grouped([x, y], [symbol]) == Binary(Operation(symbol), x, y)
  {
    assert Weakest([symbol]) == 0;
    assert [x, y][..1] == [x] && [x, y][1..] == [y];
  }
}
