/**
 The converse of `CelGrammar`: whatever the parser takes is a proper way of writing the expression it returns, except
 that it looks at the values of punctuation only, so that another token of the same value may stand there.
 */
module CelReading {
  import opened Wrappers
  import opened CelSyntax
  import opened CelParser
  import opened CelGrammar

  /** A token that the parser takes for the one that is written. */
  predicate Resembles(token: Token, written: Token) {
    token == written || (written.kind == Punctuation && token.value == written.value)
  }

  /** The tokens begin as written, and these are left. */
  ghost predicate Begins(ts: seq<Token>, written: seq<Token>, rest: seq<Token>) {
    && |ts| == |written| + |rest| && ts[|written|..] == rest
    && forall i :: 0 <= i < |written| ==> Resembles(ts[i], written[i])
  }

  lemma {:induction false} BeginsThen(ts: seq<Token>, a: seq<Token>, middle: seq<Token>, b: seq<Token>,
                                      rest: seq<Token>)
    requires Begins(ts, a, middle) && Begins(middle, b, rest)
    ensures Begins(ts, a + b, rest)
  {
    forall i | 0 <= i < |a + b|
      ensures Resembles(ts[i], (a + b)[i])
    {
      assert i >= |a| ==> ts[i] == middle[i - |a|];
    }
    hide Resembles;
  }

  lemma {:induction false} BeginsWith(ts: seq<Token>, token: Token)
    requires ts != [] && Resembles(ts[0], token)
    ensures Begins(ts, [token], ts[1..])
  {
  }

  ghost predicate Writes(g: Grammar, w: Written, ts: seq<Token>, r: Outcome) {
    r.Parsed? && Proper(g, w) && Means(g.variable, w) == r.expr && Begins(ts, Spelled(w), r.rest)
  }

  ghost predicate WritesChain(g: Grammar, operands: seq<Written>, symbols: seq<string>, level: nat, ts: seq<Token>,
                              r: Outcome) {
    && r.Parsed? && ProperChain(g, operands, symbols, level)
    && Grouped(MeansAll(g.variable, operands), symbols) == r.expr
    && Begins(ts, SpelledChain(operands, symbols), r.rest)
  }

  lemma {:induction false} WholeIsWritten(g: Grammar, ts: seq<Token>) returns (w: Written)
    requires ParseConditional(g, ts).Parsed?
    ensures Writes(g, w, ts, ParseConditional(g, ts))
    decreases |ts|, 9
  {
    var condition := ParseBinary(g, 1, ts);
    var operands, symbols := BinaryIsWritten(g, 1, ts);
    w := Chain(operands, symbols);
    ChainWrites(g, operands, symbols, ts, condition);
    if Sees(condition.rest, "?") {
      var whenTrue := ParseConditional(g, condition.rest[1..]);
      var t := WholeIsWritten(g, condition.rest[1..]);
      var whenFalse := ParseConditional(g, whenTrue.rest[1..]);
      var f := WholeIsWritten(g, whenTrue.rest[1..]);
      assert ParseConditional(g, ts)
          == Parsed(Conditional(condition.expr, whenTrue.expr, whenFalse.expr), whenFalse.rest);
      ChoiceWrites(g, w, t, f, ts, condition, whenTrue, whenFalse);
      w := Choice(w, t, f);
    }
  }

  lemma {:induction false} ChainWrites(g: Grammar, operands: seq<Written>, symbols: seq<string>, ts: seq<Token>,
                                       r: Outcome)
    requires WritesChain(g, operands, symbols, 1, ts, r)
    ensures Writes(g, Chain(operands, symbols), ts, r)
  {
    hide Begins, SpelledChain, Grouped, Tightness;
  }

  lemma {:induction false} ChoiceWrites(g: Grammar, c: Written, t: Written, f: Written, ts: seq<Token>,
                                        condition: Outcome, whenTrue: Outcome, whenFalse: Outcome)
    requires Writes(g, c, ts, condition) && !c.Choice? && Sees(condition.rest, "?")
    requires Writes(g, t, condition.rest[1..], whenTrue) && Sees(whenTrue.rest, ":")
    requires Writes(g, f, whenTrue.rest[1..], whenFalse)
    ensures Writes(g, Choice(c, t, f), ts,
                   Parsed(Conditional(condition.expr, whenTrue.expr, whenFalse.expr), whenFalse.rest))
  {
    var colon := [Mark(":")] + Spelled(f);
    BeginsWith(whenTrue.rest, Mark(":"));
    BeginsWith(condition.rest, Mark("?"));
    hide Resembles, Begins;
    BeginsThen(whenTrue.rest, [Mark(":")], whenTrue.rest[1..], Spelled(f), whenFalse.rest);
    BeginsThen(condition.rest[1..], Spelled(t), whenTrue.rest, colon, whenFalse.rest);
    BeginsThen(condition.rest, [Mark("?")], condition.rest[1..], Spelled(t) + colon, whenFalse.rest);
    BeginsThen(ts, Spelled(c), condition.rest, [Mark("?")] + (Spelled(t) + colon), whenFalse.rest);
  }

  lemma {:induction false} BinaryIsWritten(g: Grammar, level: nat, ts: seq<Token>)
    returns (operands: seq<Written>, symbols: seq<string>)
    requires 1 <= level <= 6 && ParseBinary(g, level, ts).Parsed?
    ensures WritesChain(g, operands, symbols, level, ts, ParseBinary(g, level, ts))
    decreases |ts|, 8 - level
  {
    var first := ParseOperand(g, level, ts);
    operands, symbols := OperandIsWritten(g, level, ts);
    Looser(g, operands, symbols, level, ts, first);
    operands, symbols := LoopIsWritten(g, level, operands, symbols, ts, first);
  }

  lemma {:induction false} Looser(g: Grammar, operands: seq<Written>, symbols: seq<string>, level: nat,
                                  ts: seq<Token>, r: Outcome)
    requires WritesChain(g, operands, symbols, level + 1, ts, r)
    ensures WritesChain(g, operands, symbols, level, ts, r)
  {
    hide Begins, Grouped, SpelledChain, Proper, Tightness;
  }

  lemma {:induction false} OperandIsWritten(g: Grammar, level: nat, ts: seq<Token>)
    returns (operands: seq<Written>, symbols: seq<string>)
    requires 1 <= level <= 6 && ParseOperand(g, level, ts).Parsed?
    ensures WritesChain(g, operands, symbols, level + 1, ts, ParseOperand(g, level, ts))
    decreases |ts|, 8 - level, 0
  {
    if level == 6 {
      var w := UnaryIsWritten(g, ts);
      operands, symbols := [w], [];
      AloneWrites(g, w, ts, ParseUnary(g, ts), 7);
    } else {
      operands, symbols := BinaryIsWritten(g, level + 1, ts);
    }
  }

  lemma {:induction false} AloneWrites(g: Grammar, w: Written, ts: seq<Token>, r: Outcome, level: nat)
    requires Writes(g, w, ts, r) && IsOperand(w)
    ensures WritesChain(g, [w], [], level, ts, r)
  {
    hide Begins, Proper;
  }

  /** `so` is what has been parsed from `ts` so far; the loop goes on from there. */
  lemma {:induction false} LoopIsWritten(g: Grammar, level: nat, operands: seq<Written>, symbols: seq<string>,
                                         ts: seq<Token>, so: Outcome)
    returns (operands': seq<Written>, symbols': seq<string>)
    requires 1 <= level <= 6 && WritesChain(g, operands, symbols, level, ts, so)
    requires BinaryLoop(g, level, so.expr, so.rest).Parsed?
    ensures WritesChain(g, operands', symbols', level, ts, BinaryLoop(g, level, so.expr, so.rest))
    decreases |so.rest|, 8 - level, 1
  {
    operands', symbols' := operands, symbols;
    if SeesOperator(so.rest, level) {
      var symbol := so.rest[0].value;
      var right := ParseOperand(g, level, so.rest[1..]);
      var more, moreSymbols := OperandIsWritten(g, level, so.rest[1..]);
      OperatorsAsWritten(symbol, level);
      JoinWrites(g, level, operands, symbols, ts, so, symbol, more, moreSymbols, right);
      operands', symbols' := operands + more, symbols + [symbol] + moreSymbols;
      var longer := Parsed(Binary(OperatorOf(symbol), so.expr, right.expr), right.rest);
      operands', symbols' := LoopIsWritten(g, level, operands', symbols', ts, longer);
    }
  }

  lemma {:induction false} JoinWrites(g: Grammar, level: nat, operands: seq<Written>, symbols: seq<string>,
                                      ts: seq<Token>, so: Outcome, symbol: string, more: seq<Written>,
                                      moreSymbols: seq<string>, right: Outcome)
    requires WritesChain(g, operands, symbols, level, ts, so)
    requires Current(so.rest) == Token(Operator, symbol) && Tightness(symbol) == level
    requires WritesChain(g, more, moreSymbols, level + 1, so.rest[1..], right)
    ensures WritesChain(g, operands + more, symbols + [symbol] + moreSymbols, level, ts,
                        Parsed(Binary(Operation(symbol), so.expr, right.expr), right.rest))
  {
    var a, b := SpelledChain(operands, symbols), SpelledChain(more, moreSymbols);
    BeginsWith(so.rest, Token(Operator, symbol));
    hide Begins, Resembles, Proper, Tightness, SpelledChain, Operation;
    BeginsThen(so.rest, [Token(Operator, symbol)], so.rest[1..], b, right.rest);
    BeginsThen(ts, a, so.rest, [Token(Operator, symbol)] + b, right.rest);
    GroupedJoins(g.variable, level, operands, symbols, symbol, more, moreSymbols);
  }

  lemma {:induction false} WeakestIs(symbols: seq<string>, k: nat)
    requires k < |symbols|
    requires forall i :: 0 <= i < k ==> Tightness(symbols[k]) <= Tightness(symbols[i])
    requires forall i :: k < i < |symbols| ==> Tightness(symbols[k]) < Tightness(symbols[i])
    ensures Weakest(symbols) == k
  {
    hide Tightness;
  }

  lemma {:induction false} WeakestJoins(level: nat, symbols: seq<string>, symbol: string, moreSymbols: seq<string>)
    requires forall i :: 0 <= i < |symbols| ==> Tightness(symbols[i]) >= level
    requires forall i :: 0 <= i < |moreSymbols| ==> Tightness(moreSymbols[i]) > level
    requires Tightness(symbol) == level
    ensures Weakest(symbols + [symbol] + moreSymbols) == |symbols|
  {
    hide Tightness, Weakest;
    var all, k := symbols + [symbol] + moreSymbols, |symbols|;
    assert forall i :: 0 <= i < k ==> all[i] == symbols[i];
    assert forall i :: k < i < |all| ==> all[i] == moreSymbols[i - k - 1];
    WeakestIs(all, k);
  }

  lemma {:induction false} GroupedJoins(v: string, level: nat, operands: seq<Written>, symbols: seq<string>,
                                        symbol: string, more: seq<Written>, moreSymbols: seq<string>)
    requires |operands| == |symbols| + 1 && |more| == |moreSymbols| + 1
    requires forall i :: 0 <= i < |symbols| ==> Tightness(symbols[i]) >= level
    requires forall i :: 0 <= i < |moreSymbols| ==> Tightness(moreSymbols[i]) > level
    requires Tightness(symbol) == level
    ensures Grouped(MeansAll(v, operands + more), symbols + [symbol] + moreSymbols)
         == Binary(Operation(symbol), Grouped(MeansAll(v, operands), symbols), Grouped(MeansAll(v, more), moreSymbols))
    ensures SpelledChain(operands + more, symbols + [symbol] + moreSymbols)
         == SpelledChain(operands, symbols) + ([Token(Operator, symbol)] + SpelledChain(more, moreSymbols))
  {
    var all, k, joined := symbols + [symbol] + moreSymbols, |symbols|, operands + more;
    WeakestJoins(level, symbols, symbol, moreSymbols);
    hide *;
    assert all[..k] == symbols && all[k] == symbol && all[k + 1..] == moreSymbols;
    assert joined[..k + 1] == operands && joined[k + 1..] == more;
    ChainSplits(joined, all, k);
    GroupedSides(v, joined, all);
  }

  lemma {:induction false} UnaryIsWritten(g: Grammar, ts: seq<Token>) returns (w: Written)
    requires ParseUnary(g, ts).Parsed?
    ensures IsOperand(w) && Writes(g, w, ts, ParseUnary(g, ts))
    decreases |ts|, 1
  {
    if SeesUnary(ts) {
      var operand := UnaryIsWritten(g, ts[1..]);
      w := Signed(ts[0].value, operand);
      BeginsWith(ts, ts[0]);
      hide Begins, Resembles;
      BeginsThen(ts, [ts[0]], ts[1..], Spelled(operand), ParseUnary(g, ts[1..]).rest);
    } else {
      w := PrimaryIsWritten(g, ts);
    }
  }

  lemma {:induction false} PrimaryIsWritten(g: Grammar, ts: seq<Token>) returns (w: Written)
    requires ParsePrimary(g, ts).Parsed?
    ensures IsOperand(w) && Writes(g, w, ts, ParsePrimary(g, ts))
    decreases |ts|, 0
  {
    var token := ts[0];
    if IsLeaf(token) {
      w := Leaf(token);
      BeginsWith(ts, token);
    } else if token.value == "(" {
      w := ParensIsWritten(g, ts);
    } else if token.value == "[" {
      w := ArrayIsWritten(g, ts);
    } else {
      w := ObjectIsWritten(g, ts);
    }
  }

  lemma {:induction false} ParensIsWritten(g: Grammar, ts: seq<Token>) returns (w: Written)
    requires ts != [] && !IsLeaf(ts[0]) && ts[0].value == "(" && ParsePrimary(g, ts).Parsed?
    ensures IsOperand(w) && Writes(g, w, ts, ParsePrimary(g, ts))
    decreases |ts|, 0, 0
  {
    var inner := ParseConditional(g, ts[1..]);
    var content := WholeIsWritten(g, ts[1..]);
    w := Parens(content);
    BeginsWith(ts, Mark("("));
    BeginsWith(inner.rest, Mark(")"));
    assert ParsePrimary(g, ts) == Parsed(inner.expr, inner.rest[1..]);
    hide Begins, Resembles;
    BeginsThen(ts[1..], Spelled(content), inner.rest, [Mark(")")], inner.rest[1..]);
    BeginsThen(ts, [Mark("(")], ts[1..], Spelled(content) + [Mark(")")], inner.rest[1..]);
  }

  lemma {:induction false} ArrayIsWritten(g: Grammar, ts: seq<Token>) returns (w: Written)
    requires ts != [] && !IsLeaf(ts[0]) && ts[0].value == "[" && ParsePrimary(g, ts).Parsed?
    ensures IsOperand(w) && Writes(g, w, ts, ParsePrimary(g, ts))
    decreases |ts|, 0, 0
  {
    var inner := ts[1..];
    BeginsWith(ts, Mark("["));
    assert ParsePrimary(g, ts) == ParseArray(g, inner);
    var items: seq<Written> := [];
    if Sees(inner, "]") {
      BeginsWith(inner, Mark("]"));
    } else {
      items := ElementsAreWritten(g, [], inner);
      ItemsBegin(g, items, inner, ParseArray(g, inner).rest);
    }
    w := Brackets(items);
    BeginsThen(ts, [Mark("[")], inner, SpelledItems(items) + [Mark("]")], ParseArray(g, inner).rest);
  }

  /** The first token of an array decides whether it is empty. */
  lemma {:induction false} ItemsBegin(g: Grammar, items: seq<Written>, ts: seq<Token>, rest: seq<Token>)
    requires items != [] && forall i :: 0 <= i < |items| ==> Proper(g, items[i])
    requires Begins(ts, SpelledItems(items) + [Mark("]")], rest) && !Sees(ts, "]")
    ensures Proper(g, Brackets(items))
  {
    SomethingSpelled(g, items[0]);
    assert SpelledItems(items)[0] == Spelled(items[0])[0];
    assert (SpelledItems(items) + [Mark("]")])[0] == Spelled(items[0])[0];
    hide Spelled, SpelledItems;
  }

  /** The items of an array, with its closing bracket. */
  ghost predicate WritesItems(g: Grammar, items: seq<Written>, before: seq<Expr>, ts: seq<Token>, r: Outcome) {
    && items != [] && (forall i :: 0 <= i < |items| ==> Proper(g, items[i]))
    && r.Parsed? && r.expr == Array(before + MeansAll(g.variable, items))
    && Begins(ts, SpelledItems(items) + [Mark("]")], r.rest)
  }

  lemma {:induction false} ElementsAreWritten(g: Grammar, before: seq<Expr>, ts: seq<Token>)
    returns (items: seq<Written>)
    requires ParseElements(g, before, ts).Parsed?
    ensures WritesItems(g, items, before, ts, ParseElements(g, before, ts))
    decreases |ts|, 10
  {
    var element := ParseConditional(g, ts);
    var first := WholeIsWritten(g, ts);
    if Sees(element.rest, ",") {
      var more := ElementsAreWritten(g, before + [element.expr], element.rest[1..]);
      items := [first] + more;
      MoreItems(g, first, more, before, ts, element, ParseElements(g, before, ts));
    } else {
      items := [first];
      LastItem(g, first, before, ts, element);
    }
  }

  lemma {:induction false} LastItem(g: Grammar, w: Written, before: seq<Expr>, ts: seq<Token>, element: Outcome)
    requires Writes(g, w, ts, element) && Sees(element.rest, "]")
    ensures WritesItems(g, [w], before, ts, Parsed(Array(before + [element.expr]), element.rest[1..]))
  {
    BeginsWith(element.rest, Mark("]"));
    assert SpelledItems([w]) == Spelled(w) && MeansAll(g.variable, [w]) == [element.expr];
    hide Begins, Resembles;
    BeginsThen(ts, Spelled(w), element.rest, [Mark("]")], element.rest[1..]);
  }

  lemma {:induction false} MoreItems(g: Grammar, w: Written, more: seq<Written>, before: seq<Expr>, ts: seq<Token>,
                                     element: Outcome, r: Outcome)
    requires Writes(g, w, ts, element) && Sees(element.rest, ",")
    requires WritesItems(g, more, before + [element.expr], element.rest[1..], r)
    ensures WritesItems(g, [w] + more, before, ts, r)
  {
    hide *;
    MoreItemsBegin(g, w, more, before, ts, element, r);
    MoreItemsMean(g, w, more, before, ts, element, r);
    WholeArray(g, [w] + more, before, ts, r);
  }

  lemma {:induction false} WholeArray(g: Grammar, items: seq<Written>, before: seq<Expr>, ts: seq<Token>, r: Outcome)
    requires items != [] && (forall i :: 0 <= i < |items| ==> Proper(g, items[i])) && r.Parsed?
    requires r.expr == Array(before + MeansAll(g.variable, items))
    requires Begins(ts, SpelledItems(items) + [Mark("]")], r.rest)
    ensures WritesItems(g, items, before, ts, r)
  {
  }

  lemma {:induction false} MoreItemsBegin(g: Grammar, w: Written, more: seq<Written>, before: seq<Expr>, ts: seq<Token>,
                                          element: Outcome, r: Outcome)
    requires Writes(g, w, ts, element) && Sees(element.rest, ",")
    requires WritesItems(g, more, before + [element.expr], element.rest[1..], r)
    ensures r.Parsed? && Begins(ts, SpelledItems([w] + more) + [Mark("]")], r.rest)
  {
    var items, end := [w] + more, SpelledItems(more) + [Mark("]")];
    BeginsWith(element.rest, Mark(","));
    assert items[1..] == more;
    hide Begins, Resembles, Spelled, SpelledItems, Means, Proper, MeansAll;
    BeginsThen(element.rest, [Mark(",")], element.rest[1..], end, r.rest);
    BeginsThen(ts, Spelled(w), element.rest, [Mark(",")] + end, r.rest);
    ItemsSpelled(items, [Mark("]")]);
  }

  lemma {:induction false} MoreItemsMean(g: Grammar, w: Written, more: seq<Written>, before: seq<Expr>, ts: seq<Token>,
                                         element: Outcome, r: Outcome)
    requires Writes(g, w, ts, element) && element.rest != []
    requires WritesItems(g, more, before + [element.expr], element.rest[1..], r)
    ensures r.Parsed? && r.expr == Array(before + MeansAll(g.variable, [w] + more))
    ensures forall i :: 0 <= i < |[w] + more| ==> Proper(g, ([w] + more)[i])
  {
    hide Begins, Spelled, SpelledItems, Means, Proper, MeansAll;
    var meaning := MeansAll(g.variable, more);
    assert ([w] + more)[1..] == more;
    ItemsMean(g.variable, [w] + more);
    assert before + [element.expr] + meaning == before + ([element.expr] + meaning);
  }

  lemma {:induction false} ObjectIsWritten(g: Grammar, ts: seq<Token>) returns (w: Written)
    requires ts != [] && !IsLeaf(ts[0]) && ts[0].value == "{" && ParsePrimary(g, ts).Parsed?
    ensures IsOperand(w) && Writes(g, w, ts, ParsePrimary(g, ts))
    decreases |ts|, 0, 0
  {
    var inner := ts[1..];
    BeginsWith(ts, Mark("{"));
    assert ParsePrimary(g, ts) == ParseObject(g, inner);
    var keys: seq<string>, values: seq<Written> := [], [];
    if Sees(inner, "}") {
      BeginsWith(inner, Mark("}"));
    } else {
      keys, values := EntriesAreWritten(g, [], inner);
      PairsBegin(g, keys, values, inner, ParseObject(g, inner));
    }
    w := Braces(keys, values);
    BeginsThen(ts, [Mark("{")], inner, SpelledPairs(keys, values) + [Mark("}")], ParseObject(g, inner).rest);
  }

  /** The entries of an object, with its closing brace. */
  ghost predicate WritesPairs(g: Grammar, keys: seq<string>, values: seq<Written>, before: seq<Entry>, ts: seq<Token>,
                              r: Outcome) {
    && ProperPairs(g, keys, values, before)
    && r.Parsed? && r.expr == Object(before + MeansPairs(g.variable, keys, values))
    && Begins(ts, SpelledPairs(keys, values) + [Mark("}")], r.rest)
  }

  lemma {:induction false} PairsBegin(g: Grammar, keys: seq<string>, values: seq<Written>, ts: seq<Token>, r: Outcome)
    requires WritesPairs(g, keys, values, [], ts, r) && !Sees(ts, "}")
    ensures Proper(g, Braces(keys, values)) && r.expr == Object(MeansPairs(g.variable, keys, values))
  {
    assert (SpelledPairs(keys, values) + [Mark("}")])[0] == Token(StringLiteral, keys[0]);
    assert [] + MeansPairs(g.variable, keys, values) == MeansPairs(g.variable, keys, values);
    hide SpelledPairs;
  }

  lemma {:induction false} EntriesAreWritten(g: Grammar, before: seq<Entry>, ts: seq<Token>)
    returns (keys: seq<string>, values: seq<Written>)
    requires ParseEntries(g, before, ts).Parsed?
    ensures WritesPairs(g, keys, values, before, ts, ParseEntries(g, before, ts))
    decreases |ts|, 10
  {
    var key := ts[0].value;
    var value := ParseConditional(g, ts[2..]);
    var first := WholeIsWritten(g, ts[2..]);
    if Sees(value.rest, ",") {
      var moreKeys, more := EntriesAreWritten(g, before + [Entry(key, value.expr)], value.rest[1..]);
      keys, values := [key] + moreKeys, [first] + more;
      MorePairs(g, key, first, moreKeys, more, before, ts, value, ParseEntries(g, before, ts));
    } else {
      keys, values := [key], [first];
      LastPair(g, key, first, before, ts, value);
    }
  }

  /** A key, a colon and a value. */
  lemma {:induction false} PairWrites(g: Grammar, key: string, w: Written, ts: seq<Token>, value: Outcome)
    requires |ts| >= 2 && ts[0] == Token(StringLiteral, key) && ts[1].value == ":" && Writes(g, w, ts[2..], value)
    ensures Begins(ts, [Token(StringLiteral, key), Mark(":")] + Spelled(w), value.rest)
  {
    assert Begins(ts, [Token(StringLiteral, key), Mark(":")], ts[2..]);
    hide Begins, Resembles;
    BeginsThen(ts, [Token(StringLiteral, key), Mark(":")], ts[2..], Spelled(w), value.rest);
  }

  lemma {:induction false} LastPair(g: Grammar, key: string, w: Written, before: seq<Entry>, ts: seq<Token>,
                                    value: Outcome)
    requires |ts| >= 2 && ts[0] == Token(StringLiteral, key) && ts[1].value == ":" && Writes(g, w, ts[2..], value)
    requires Sees(value.rest, "}") && !HasKey(before, key)
    ensures WritesPairs(g, [key], [w], before, ts,
                        Parsed(Object(before + [Entry(key, value.expr)]), value.rest[1..]))
  {
    var pair := [Token(StringLiteral, key), Mark(":")] + Spelled(w);
    PairWrites(g, key, w, ts, value);
    BeginsWith(value.rest, Mark("}"));
    assert SpelledPairs([key], [w]) == pair;
    assert MeansPairs(g.variable, [key], [w]) == [Entry(key, value.expr)];
    hide Begins, Resembles, SpelledPairs, HasKey, Spelled;
    BeginsThen(ts, pair, value.rest, [Mark("}")], value.rest[1..]);
  }

  lemma {:induction false} MorePairs(g: Grammar, key: string, w: Written, keys: seq<string>, more: seq<Written>,
                                     before: seq<Entry>, ts: seq<Token>, value: Outcome, r: Outcome)
    requires |ts| >= 2 && ts[0] == Token(StringLiteral, key) && ts[1].value == ":" && Writes(g, w, ts[2..], value)
    requires Sees(value.rest, ",") && !HasKey(before, key)
    requires WritesPairs(g, keys, more, before + [Entry(key, value.expr)], value.rest[1..], r)
    ensures WritesPairs(g, [key] + keys, [w] + more, before, ts, r)
  {
    hide *;
    MorePairsBegin(g, key, w, keys, more, before, ts, value, r);
    MorePairsMean(g, key, w, keys, more, before, ts, value, r);
    WholeObject(g, [key] + keys, [w] + more, before, ts, r);
  }

  lemma {:induction false} WholeObject(g: Grammar, keys: seq<string>, values: seq<Written>, before: seq<Entry>,
                                       ts: seq<Token>, r: Outcome)
    requires ProperPairs(g, keys, values, before) && r.Parsed?
    requires r.expr == Object(before + MeansPairs(g.variable, keys, values))
    requires Begins(ts, SpelledPairs(keys, values) + [Mark("}")], r.rest)
    ensures WritesPairs(g, keys, values, before, ts, r)
  {
  }

  ghost predicate ProperPairs(g: Grammar, keys: seq<string>, values: seq<Written>, before: seq<Entry>) {
    && values != [] && |keys| == |values| && (forall i :: 0 <= i < |values| ==> Proper(g, values[i]))
    && (forall i, j :: 0 <= i < j < |keys| ==> keys[i] != keys[j])
    && (forall i :: 0 <= i < |keys| ==> !HasKey(before, keys[i]))
  }

  lemma {:induction false} MorePairsBegin(g: Grammar, key: string, w: Written, keys: seq<string>, more: seq<Written>,
                                          before: seq<Entry>, ts: seq<Token>, value: Outcome, r: Outcome)
    requires |ts| >= 2 && ts[0] == Token(StringLiteral, key) && ts[1].value == ":" && Writes(g, w, ts[2..], value)
    requires Sees(value.rest, ",")
    requires WritesPairs(g, keys, more, before + [Entry(key, value.expr)], value.rest[1..], r)
    ensures r.Parsed? && Begins(ts, SpelledPairs([key] + keys, [w] + more) + [Mark("}")], r.rest)
  {
    var pair, end := [Token(StringLiteral, key), Mark(":")] + Spelled(w), SpelledPairs(keys, more) + [Mark("}")];
    PairWrites(g, key, w, ts, value);
    BeginsWith(value.rest, Mark(","));
    MorePairsSpelled(g.variable, key, w, keys, more);
    hide Begins, Resembles, SpelledPairs, HasKey, Spelled, Means, MeansPairs, Proper;
    BeginsThen(value.rest, [Mark(",")], value.rest[1..], end, r.rest);
    BeginsThen(ts, pair, value.rest, [Mark(",")] + end, r.rest);
    assert SpelledPairs([key] + keys, [w] + more) + [Mark("}")] == pair + ([Mark(",")] + end);
  }

  lemma {:induction false} MorePairsMean(g: Grammar, key: string, w: Written, keys: seq<string>, more: seq<Written>,
                                         before: seq<Entry>, ts: seq<Token>, value: Outcome, r: Outcome)
    requires |ts| >= 2 && Writes(g, w, ts[2..], value) && value.rest != [] && !HasKey(before, key)
    requires WritesPairs(g, keys, more, before + [Entry(key, value.expr)], value.rest[1..], r)
    ensures r.expr == Object(before + MeansPairs(g.variable, [key] + keys, [w] + more))
    ensures ProperPairs(g, [key] + keys, [w] + more, before)
  {
    hide Begins, SpelledPairs, HasKey, Spelled, Means, MeansPairs, Proper, ProperPairs;
    var entry := Entry(key, value.expr);
    SomePairs(g, keys, more, before + [entry]);
    MorePairsSpelled(g.variable, key, w, keys, more);
    ProperWithFirst(g, key, w, keys, more, before, entry);
    MeansThen(before, entry, MeansPairs(g.variable, keys, more));
  }

  lemma {:induction false} SomePairs(g: Grammar, keys: seq<string>, values: seq<Written>, before: seq<Entry>)
    requires ProperPairs(g, keys, values, before)
    ensures values != [] && |keys| == |values|
  {
  }

  lemma {:induction false} ProperWithFirst(g: Grammar, key: string, w: Written, keys: seq<string>, more: seq<Written>,
                                           before: seq<Entry>, entry: Entry)
    requires entry.key == key && Proper(g, w) && !HasKey(before, key)
    requires ProperPairs(g, keys, more, before + [entry])
    ensures ProperPairs(g, [key] + keys, [w] + more, before)
  {
    NewKeys(before, entry, keys);
    hide HasKey, Proper;
  }

  lemma {:induction false} MorePairsSpelled(v: string, key: string, w: Written, keys: seq<string>, more: seq<Written>)
    requires more != [] && |keys| == |more|
    ensures SpelledPairs([key] + keys, [w] + more)
         == [Token(StringLiteral, key), Mark(":")] + Spelled(w) + ([Mark(",")] + SpelledPairs(keys, more))
    ensures MeansPairs(v, [key] + keys, [w] + more) == [Entry(key, Means(v, w))] + MeansPairs(v, keys, more)
  {
    hide Spelled, Means, MeansPairs, SpelledPairs;
    var pair, value, rest := [Token(StringLiteral, key), Mark(":")], Spelled(w), SpelledPairs(keys, more);
    assert ([key] + keys)[1..] == keys && ([w] + more)[1..] == more;
    PairsSpelled([key] + keys, [w] + more, []);
    PairsMean(v, [key] + keys, [w] + more);
    assert SpelledPairs([key] + keys, [w] + more) + [] == SpelledPairs([key] + keys, [w] + more) && rest + [] == rest;
    assert pair + (value + ([Mark(",")] + rest)) == pair + value + ([Mark(",")] + rest);
  }

  lemma {:induction false} NewKeys(before: seq<Entry>, entry: Entry, keys: seq<string>)
    requires !HasKey(before, entry.key) && forall i :: 0 <= i < |keys| ==> !HasKey(before + [entry], keys[i])
    ensures forall i :: 0 <= i < |keys| ==> keys[i] != entry.key && !HasKey(before, keys[i])
  {
    forall i | 0 <= i < |keys|
      ensures keys[i] != entry.key && !HasKey(before, keys[i])
    {
      var all := before + [entry];
      assert all[|before|] == entry;
      assert forall j :: 0 <= j < |before| ==> all[j] == before[j];
    }
  }

  // ---------- whole token lists

  /** Whatever is parsed is a proper way of writing the expression, followed by the end. */
  lemma {:induction false} ParsedIsWritten(g: Grammar, ts: seq<Token>) returns (w: Written, end: seq<Token>)
    requires Parse(g, ts).Ok?
    ensures Proper(g, w) && Parse(g, ts) == Ok(Means(g.variable, w))
    ensures Begins(ts, Spelled(w), end) && Current(end).kind == Eof
  {
    w := WholeIsWritten(g, ts);
    end := ParseConditional(g, ts).rest;
  }
}
