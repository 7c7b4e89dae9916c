/** What is reported for a text that is no expression: the kinds of mistakes, each with the error it gives. */
module CelMistakes {
  import opened Wrappers
  import opened CelSyntax
  import opened CelParser
  import opened CelGrammar
  import Tokens = CelTokenizer
  import Layout = CelLayout

  // ---------- mistakes of grammar

  /** An expression is followed by something that cannot belong to it. */
  lemma {:induction false} TokenLeftOver(g: Grammar, w: Written, t: Token, rest: seq<Token>)
    requires Proper(g, w) && EndsWhole(t) && t.kind != Eof
    ensures Parse(g, Spelled(w) + ([t] + rest)) == Err(if t.value == "." then MemberAccess else UnexpectedToken)
  {
    WholeReads(g, w, [t] + rest);
    hide ParseConditional, Spelled, Means, Proper;
  }

  /** A mistake in the first operand is what is reported. */
  lemma {:induction false} OperandFails(g: Grammar, level: nat, ts: seq<Token>, error: Error)
    requires 1 <= level <= 6 && ParseUnary(g, ts) == Failed(error)
    ensures ParseBinary(g, level, ts) == Failed(error)
    decreases 8 - level
  {
    if level < 6 {
      OperandFails(g, level + 1, ts, error);
    }
  }

  lemma {:induction false} FirstFails(g: Grammar, ts: seq<Token>, error: Error)
    requires ParseUnary(g, ts) == Failed(error)
    ensures ParseConditional(g, ts) == Failed(error) && Parse(g, ts) == Err(error)
  {
    OperandFails(g, 1, ts, error);
    hide ParseBinary, ParseUnary;
  }

  /** No function is known, and no name but the variable and the three constants. */
  lemma {:induction false} UnknownName(g: Grammar, name: string, ts: seq<Token>)
    requires Sees(ts, "(") || name !in {g.variable, "true", "false", "null"}
    ensures Parse(g, [Token(Identifier, name)] + ts) == Err(if Sees(ts, "(") then FunctionCall else UnknownIdentifier)
  {
    var all := [Token(Identifier, name)] + ts;
    assert all[1..] == ts;
    FirstFails(g, all, if Sees(ts, "(") then FunctionCall else UnknownIdentifier);
  }

  lemma {:induction false} UnsafeLiteral(g: Grammar, lexeme: string, ts: seq<Token>)
    requires !g.safe(lexeme)
    ensures Parse(g, [Token(NumberLiteral, lexeme)] + ts) == Err(UnsafeNumber)
  {
    FirstFails(g, [Token(NumberLiteral, lexeme)] + ts, UnsafeNumber);
  }

  /** Nothing, an operator that is no sign, or a mark that opens nothing. */
  lemma {:induction false} NoOperand(g: Grammar, t: Token, ts: seq<Token>)
    requires t.kind == Eof || (t.kind == Operator && t.value !in {"!", "-", "+", "(", "[", "{"})
             || (t.kind == Punctuation && t.value !in {"(", "[", "{"})
    ensures Parse(g, [t] + ts) == Err(UnexpectedToken)
  {
    FirstFails(g, [t] + ts, UnexpectedToken);
  }

  lemma {:induction false} ParenthesisOpen(g: Grammar, w: Written, t: Token, rest: seq<Token>)
    requires Proper(g, w) && EndsWhole(t) && t.value != ")"
    ensures Parse(g, [Mark("(")] + (Spelled(w) + ([t] + rest))) == Err(Expected(")"))
  {
    var inner := Spelled(w) + ([t] + rest);
    assert ([Mark("(")] + inner)[1..] == inner;
    WholeReads(g, w, [t] + rest);
    assert ParseUnary(g, [Mark("(")] + inner) == Failed(Expected(")")) by {
      hide ParseConditional, Spelled, Means, Proper;
    }
    FirstFails(g, [Mark("(")] + inner, Expected(")"));
  }

  lemma {:induction false} BracketOpen(g: Grammar, w: Written, t: Token, rest: seq<Token>)
    requires Proper(g, w) && EndsWhole(t) && t.value != "]" && t.value != "," && Current(Spelled(w)).value != "]"
    ensures Parse(g, [Mark("[")] + (Spelled(w) + ([t] + rest))) == Err(Expected("]"))
  {
    var inner := Spelled(w) + ([t] + rest);
    assert ([Mark("[")] + inner)[1..] == inner;
    SomethingSpelled(g, w);
    assert inner[0] == Spelled(w)[0];
    WholeReads(g, w, [t] + rest);
    assert ParseElements(g, [], inner) == Failed(Expected("]")) by {
      hide ParseConditional, Spelled, Means, Proper;
    }
    assert ParseUnary(g, [Mark("[")] + inner) == ParseArray(g, inner);
    hide ParseUnary, ParseConditional;
    FirstFails(g, [Mark("[")] + inner, Expected("]"));
  }

  /** A key that is no text, or a text without a colon. */
  lemma {:induction false} BadKey(g: Grammar, key: Token, ts: seq<Token>)
    requires key.value != "}" && (key.kind != StringLiteral || !Sees(ts, ":"))
    ensures Parse(g, [Mark("{")] + ([key] + ts))
         == Err(if key.kind != StringLiteral then KeyIsNotAString else Expected(":"))
  {
    var inner := [key] + ts;
    assert ([Mark("{")] + inner)[1..] == inner && inner[1..] == ts;
    ObjectFails(g, inner, if key.kind != StringLiteral then KeyIsNotAString else Expected(":"));
  }

  /** The same key again, right behind its first entry. */
  lemma {:induction false} KeyAgain(g: Grammar, key: string, w: Written, ts: seq<Token>)
    requires Proper(g, w) && key != "}"
    ensures Parse(g, [Mark("{"), Token(StringLiteral, key), Mark(":")]
                     + (Spelled(w) + ([Mark(","), Token(StringLiteral, key)] + ts)))
         == Err(DuplicateKey)
  {
    var again := [Token(StringLiteral, key)] + ts;
    var after := [Mark(",")] + again;
    var inner := [Token(StringLiteral, key), Mark(":")] + (Spelled(w) + after);
    assert [Mark(","), Token(StringLiteral, key)] + ts == after;
    assert [Mark("{"), Token(StringLiteral, key), Mark(":")] + (Spelled(w) + after) == [Mark("{")] + inner;
    MarkEnds(",", again);
    WholeReads(g, w, after);
    EntryReads(g, [], key, Spelled(w) + after, Means(g.variable, w), after);
    assert after[1..] == again;
    KnownKey(g, [Entry(key, Means(g.variable, w))], key, ts);
    assert [] + [Entry(key, Means(g.variable, w))] == [Entry(key, Means(g.variable, w))];
    ObjectFails(g, inner, DuplicateKey);
  }

  lemma {:induction false} KnownKey(g: Grammar, before: seq<Entry>, key: string, ts: seq<Token>)
    requires before != [] && before[0].key == key
    ensures ParseEntries(g, before, [Token(StringLiteral, key)] + ts) == Failed(DuplicateKey)
  {
    assert HasKey(before, key);
  }

  lemma {:induction false} ObjectFails(g: Grammar, inner: seq<Token>, error: Error)
    requires ParseEntries(g, [], inner) == Failed(error) && !Sees(inner, "}")
    ensures Parse(g, [Mark("{")] + inner) == Err(error)
  {
    assert ([Mark("{")] + inner)[1..] == inner;
    hide ParseEntries;
    assert ParseUnary(g, [Mark("{")] + inner) == ParseObject(g, inner);
    hide ParseUnary;
    FirstFails(g, [Mark("{")] + inner, error);
  }

  lemma {:induction false} BranchMissing(g: Grammar, c: Written, w: Written, t: Token, rest: seq<Token>)
    requires Proper(g, c) && !c.Choice? && Proper(g, w) && EndsWhole(t) && t.value != ":"
    ensures Parse(g, Spelled(c) + ([Mark("?")] + (Spelled(w) + ([t] + rest)))) == Err(Expected(":"))
  {
    var after := Spelled(w) + ([t] + rest);
    QuestionEnds(after);
    ConditionReads(g, c, [Mark("?")] + after);
    WholeReads(g, w, [t] + rest);
    assert ([Mark("?")] + after)[1..] == after;
    hide ParseBinary, Spelled, Means, Proper;
  }

  // ---------- mistakes of spelling

  /** Where this many characters of a literal are in order, an error behind them is the error of the literal. */
  lemma {:induction false} GlyphsThen(s: string, i: nat, glyphs: seq<Layout.Glyph>, quote: char)
    requires (quote == '\'' || quote == '\"') && Layout.AllProper(glyphs, quote)
    requires Layout.Stands(s, i, Layout.Spellings(glyphs))
    ensures var rest := Tokens.ReadString(s, i + |Layout.Spellings(glyphs)|, quote);
            rest.Err? ==> Tokens.ReadString(s, i, quote) == rest
    decreases |glyphs|
  {
    hide *;
    if glyphs == [] {
      Layout.NoGlyphs();
    } else {
      var first, rest := Layout.Spelling(glyphs[0]), Layout.Spellings(glyphs[1..]);
      Layout.FirstGlyph(glyphs, quote);
      Parts(s, i, first, rest);
      GlyphsThen(s, i + |first|, glyphs[1..], quote);
      Layout.GlyphReads(s, i, glyphs[0], quote);
      PrependFails(Layout.Meaning(glyphs[0]), Tokens.ReadString(s, i + |first|, quote));
    }
  }

  lemma {:induction false} Parts(s: string, i: nat, a: string, b: string)
    requires Layout.Stands(s, i, a + b)
    ensures Layout.Stands(s, i, a) && Layout.Stands(s, i + |a|, b)
  {
    var both := s[i..i + |a| + |b|];
    assert s[i..i + |a|] == both[..|a|] == a;
    assert s[i + |a|..i + |a| + |b|] == both[|a|..] == b;
  }

  lemma {:induction false} PrependFails(c: char, r: Result<(string, nat), Tokens.Error>)
    ensures r.Err? ==> Tokens.Prepend(c, r) == r
  {
  }

  /** Four hexadecimal digits stand here. */
  predicate FourDigits(s: string, i: nat) {
    i + 4 <= |s| && forall k :: i <= k < i + 4 ==> Tokens.IsHexDigit(s[k])
  }

  /** What can be wrong behind the characters that are in order: the end, a line end, or a bad escape. */
  lemma {:induction false} LiteralMistakes(s: string, i: nat, glyphs: seq<Layout.Glyph>, quote: char)
    requires (quote == '\'' || quote == '\"') && Layout.AllProper(glyphs, quote)
    requires Layout.Stands(s, i, Layout.Spellings(glyphs))
    ensures var j := i + |Layout.Spellings(glyphs)|;
            && (j == |s| || s[j] == '\n' || s[j] == '\r' ==>
                  Tokens.ReadString(s, i, quote) == Err(Tokens.UnterminatedString))
            && (j + 1 == |s| && s[j] == '\\' ==> Tokens.ReadString(s, i, quote) == Err(Tokens.UnterminatedEscape))
            && (j + 1 < |s| && s[j] == '\\' && s[j + 1] !in "bfnrtu\'\"\\" ==>
                  Tokens.ReadString(s, i, quote) == Err(Tokens.UnsupportedEscape))
            && (j + 1 < |s| && s[j] == '\\' && s[j + 1] == 'u' && !FourDigits(s, j + 2) ==>
                  Tokens.ReadString(s, i, quote) == Err(Tokens.InvalidUnicodeEscape))
  {
    hide *;
    GlyphsThen(s, i, glyphs, quote);
    Mistakes(s, i + |Layout.Spellings(glyphs)|, quote);
  }

  lemma {:induction false} Mistakes(s: string, j: nat, quote: char)
    requires j <= |s| && (quote == '\'' || quote == '\"')
    ensures j == |s| || s[j] == '\n' || s[j] == '\r' ==>
              Tokens.ReadString(s, j, quote) == Err(Tokens.UnterminatedString)
    ensures j + 1 == |s| && s[j] == '\\' ==> Tokens.ReadString(s, j, quote) == Err(Tokens.UnterminatedEscape)
    ensures j + 1 < |s| && s[j] == '\\' && s[j + 1] !in "bfnrtu\'\"\\" ==>
              Tokens.ReadString(s, j, quote) == Err(Tokens.UnsupportedEscape)
    ensures j + 1 < |s| && s[j] == '\\' && s[j + 1] == 'u' && !FourDigits(s, j + 2) ==>
              Tokens.ReadString(s, j, quote) == Err(Tokens.InvalidUnicodeEscape)
  {
  }
}
