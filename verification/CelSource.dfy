/**
 From source text to meaning, whole: every proper way of writing an expression, in every layout, compiles to what it
 means for the option, and whatever compiles was written so.
 */
module CelSource {
  import opened Wrappers
  import opened CelSyntax
  import opened CelTokenizer
  import opened CelLayout
  import opened CelCompiler
  import Parser = CelParser
  import Grammar = CelGrammar
  import Reading = CelReading
  import Trimming = CelTrim
  import Lexemes = CelLexemes

  /** The variable that an expression may use is named like its option. */
  lemma {:induction false} WrittenCompiles(option: OptionName, w: Grammar.Written, lead: string, pieces: seq<Piece>)
    requires AllWhite(lead) && WellLaid(pieces)
    requires TokensOfPieces(pieces) == Grammar.Spelled(w) && Grammar.Proper(GrammarFor(option), w)
    ensures var r := Compiled(lead + Laid(pieces), option);
            var variable := if option.ReasoningLevel? then "reasoningLevel" else "maxOutputTokens";
            r.Ok? && r.value.expression == Grammar.Means(variable, w)
  {
    var source, g := lead + Laid(pieces), GrammarFor(option);
    assert g.variable == if option.ReasoningLevel? then "reasoningLevel" else "maxOutputTokens";
    hide *;
    LayoutReads(lead, pieces);
    Trimming.TrimKeepsTokens(source);
    Grammar.WrittenIsParsed(g, w);
    Grammar.SomethingSpelled(g, w);
    CompiledFromTokens(source, option, Grammar.Spelled(w) + [END]);
  }

  lemma {:induction false} OnlyTheEnd()
    ensures TokensFrom("", 0) == Ok([Span(END, 0, 0)])
  {
  }

  /** An option's own name is the variable that stands for its value. */
  lemma {:induction false} OwnVariable(lead: string, gap: string)
    requires AllWhite(lead) && AllWhite(gap)
    ensures var r := Compiled(lead + ("reasoningLevel" + gap), ReasoningLevel); r.Ok? && r.value.expression == Input
    ensures var r := Compiled(lead + ("maxOutputTokens" + gap), MaxOutputTokens); r.Ok? && r.value.expression == Input
  {
    VariableCompiles(ReasoningLevel, "reasoningLevel", lead, gap);
    VariableCompiles(MaxOutputTokens, "maxOutputTokens", lead, gap);
    hide *;
  }

  lemma {:induction false} VariableCompiles(option: OptionName, name: string, lead: string, gap: string)
    requires AllWhite(lead) && AllWhite(gap)
    requires name == if option.ReasoningLevel? then "reasoningLevel" else "maxOutputTokens"
    ensures var r := Compiled(lead + (name + gap), option); r.Ok? && r.value.expression == Input
  {
    var token := Token(Identifier, name);
    var w, pieces := Grammar.Leaf(token), [Piece(Bare(token), gap)];
    Trimming.NamesAreNames(option);
    assert name == NameOf(option) == GrammarFor(option).variable;
    assert Grammar.Proper(GrammarFor(option), w) && Grammar.Means(name, w) == Input && Grammar.Spelled(w) == [token];
    hide *;
    OnePiece(token, gap);
    WrittenCompiles(option, w, lead, pieces);
  }

  lemma {:induction false} OnePiece(token: Token, gap: string)
    requires token.kind == Identifier && Lexemes.IsName(token.value) && AllWhite(gap)
    ensures var pieces := [Piece(Bare(token), gap)];
            WellLaid(pieces) && Laid(pieces) == token.value + gap && TokensOfPieces(pieces) == [token]
  {
    hide Lexemes.IsName, White;
    assert gap + "" == gap;
    assert ProperLexeme(Bare(token));
  }

  /** What compiles when the trimmed source has these tokens. */
  lemma {:induction false} CompiledFromTokens(source: string, option: OptionName, ts: seq<Token>)
    requires TokensFrom(Trim(source), 0).Ok? && TokensOf(TokensFrom(Trim(source), 0).value) == ts && |ts| > 1
    requires Parser.Parse(GrammarFor(option), ts).Ok?
    ensures Compiled(source, option).Ok?
    ensures Compiled(source, option).value.expression == Parser.Parse(GrammarFor(option), ts).value
  {
    OnlyTheEnd();
    hide Trim, TokensFrom, GrammarFor;
  }

  /** Whatever compiles is written properly, but for the kinds of tokens that stand for punctuation. */
  lemma {:induction false} CompiledIsWritten(option: OptionName, source: string)
    returns (w: Grammar.Written, end: seq<Token>)
    requires Compiled(source, option).Ok?
    ensures Grammar.Proper(GrammarFor(option), w)
    ensures Compiled(source, option).value.expression == Grammar.Means(NameOf(option), w)
    ensures TokensFrom(Trim(source), 0).Ok? && Parser.Current(end).kind == Eof
    ensures Reading.Begins(TokensOf(TokensFrom(Trim(source), 0).value), Grammar.Spelled(w), end)
  {
    var ts := TokensOf(TokensFrom(Trim(source), 0).value);
    assert Parser.Parse(GrammarFor(option), ts) == Ok(Compiled(source, option).value.expression);
    assert GrammarFor(option).variable == NameOf(option);
    hide *;
    w, end := Reading.ParsedIsWritten(GrammarFor(option), ts);
  }

  /** What a program keeps of its source: all but the white space around it. */
  lemma {:induction false} SourceIsTrimmed(source: string, option: OptionName) returns (lead: string, end: string)
    requires Compiled(source, option).Ok?
    ensures var kept := Compiled(source, option).value.source;
            && source == lead + kept + end && AllWhite(lead) && AllWhite(end)
            && kept != "" && !White(kept[0]) && !White(kept[|kept| - 1])
  {
    KeptSource(source, option);
    hide *;
    lead, end := TrimParts(source);
    WhiteIsSpace(Trim(source)[0]);
    WhiteIsSpace(Trim(source)[|Trim(source)| - 1]);
  }

  lemma {:induction false} KeptSource(source: string, option: OptionName)
    requires Compiled(source, option).Ok?
    ensures Compiled(source, option).value.source == Trim(source) != ""
    ensures !IsSpace(Trim(source)[0]) && !IsSpace(Trim(source)[|Trim(source)| - 1])
  {
    FirstIsKept(TrimStart(source));
    hide TokensFrom, GrammarFor;
  }

  /** Nothing but white space is an empty source, and every other source is taken to the tokenizer. */
  lemma {:induction false} EmptyExactly(source: string, option: OptionName)
    ensures Compiled(source, option) == Err(EmptySource) <==> AllWhite(source)
  {
    var lead, end := TrimParts(source);
    if Trim(source) == "" {
      assert source == lead + end;
      assert AllWhite(lead + end);
    } else {
      var kept := Trim(source);
      WhiteIsSpace(kept[0]);
      FirstIsKept(TrimStart(source));
      assert source[|lead|] == kept[0];
    }
    hide TrimStart, TrimEnd, White, TokensFrom;
  }

  lemma {:induction false} TrimParts(source: string) returns (lead: string, end: string)
    ensures source == lead + Trim(source) + end && AllWhite(lead) && AllWhite(end)
  {
    var d := Trimming.TrimStartSkips(source);
    var rest := source[d..];
    lead, end := source[..d], rest[|Trim(source)|..];
    forall k | 0 <= k < |lead|
      ensures White(lead[k])
    {
      WhiteIsSpace(source[k]);
    }
    forall k | 0 <= k < |end|
      ensures White(end[k])
    {
      WhiteIsSpace(rest[|Trim(source)| + k]);
    }
    hide *;
    assert rest == rest[..|Trim(source)|] + end;
    assert source == lead + rest;
  }

  lemma {:induction false} FirstIsKept(s: string)
    requires s == "" || !IsSpace(s[0])
    ensures s != "" ==> TrimEnd(s) != "" && TrimEnd(s)[0] == s[0]
  {
  }
}
