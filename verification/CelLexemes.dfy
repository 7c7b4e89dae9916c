/**
 Lexemes written out and read again: a quoted text is read as that text, a name, number or symbol followed by a space is
 read as itself, and so a list of tokens, each followed by a space, is tokenized to that list.
 */
module CelLexemes {
  import opened Wrappers
  import opened CelSyntax
  import opened CelTokenizer

  function EscapedChar(c: char, quote: char): string {
    if c == quote || c == '\\' then ['\\', c]
    else if c == '\n' then ['\\', 'n']
    else if c == '\r' then ['\\', 'r']
    else [c]
  }

  function Escaped(text: string, quote: char): string {
    if text == "" then "" else EscapedChar(text[0], quote) + Escaped(text[1..], quote)
  }

  /** A string literal for any text, in either kind of quotes. */
  function Quote(text: string, quote: char): string {
    [quote] + Escaped(text, quote) + [quote]
  }

  /** `part` stands in `s` at `i`, and a character comes after it. */
  predicate StandsAt(s: string, i: nat, part: string)
    ensures StandsAt(s, i, part) ==> i + |part| < |s|
  {
    i + |part| < |s| && s[i..i + |part|] == part
  }

  /** Quoting and then reading gives back the text, unchanged, for every text. */
  lemma {:induction false} ReadStringOfEscaped(s: string, i: nat, text: string, quote: char)
    requires quote == '\'' || quote == '\"'
    requires StandsAt(s, i, Escaped(text, quote)) && s[i + |Escaped(text, quote)|] == quote
    ensures ReadString(s, i, quote) == Ok((text, i + |Escaped(text, quote)| + 1))
    decreases |text|
  {
    hide ReadString, EscapedChar, StandsAt;
    if text == "" {
      ClosingQuote(s, i, quote);
    } else {
      var first, rest := EscapedChar(text[0], quote), Escaped(text[1..], quote);
      StandsApart(s, i, first, rest);
      ReadStringOfEscaped(s, i + |first|, text[1..], quote);
      ReadEscapedChar(s, i, text[0], quote);
      assert [text[0]] + text[1..] == text;
    }
  }

  lemma {:induction false} ClosingQuote(s: string, i: nat, quote: char)
    requires i < |s| && s[i] == quote
    ensures ReadString(s, i, quote) == Ok(("", i + 1))
  {
  }

  lemma {:induction false} StandsApart(s: string, i: nat, a: string, b: string)
    requires StandsAt(s, i, a + b)
    ensures StandsAt(s, i, a) && StandsAt(s, i + |a|, b)
  {
    var both := s[i..i + |a| + |b|];
    assert s[i..i + |a|] == both[..|a|] == a;
    assert s[i + |a|..i + |a| + |b|] == both[|a|..] == b;
  }

  lemma {:induction false} ReadEscapedChar(s: string, i: nat, c: char, quote: char)
    requires quote == '\'' || quote == '\"'
    requires StandsAt(s, i, EscapedChar(c, quote))
    ensures ReadString(s, i, quote) == Prepend(c, ReadString(s, i + |EscapedChar(c, quote)|, quote))
  {
    CharAt(s, i, EscapedChar(c, quote), 0);
    if |EscapedChar(c, quote)| == 2 {
      CharAt(s, i, EscapedChar(c, quote), 1);
    }
  }

  // ---------- lexemes

  /** After this character neither a name nor a number goes on. */
  predicate Stops(c: char) {
    !IsNamePart(c) && c != '.'
  }

  predicate IsName(name: string) {
    name != "" && IsNameStart(name[0]) && NameEnd(name, 1) == |name|
  }

  lemma {:induction false} DigitsEndAt(s: string, i: nat, part: string, k: nat)
    requires StandsAt(s, i, part) && Stops(s[i + |part|]) && k <= |part|
    ensures DigitsEnd(s, i + k) == i + DigitsEnd(part, k)
    decreases |part| - k
  {
    if k < |part| {
      assert s[i + k] == part[k];
      DigitsEndAt(s, i, part, k + 1);
    }
  }

  lemma {:induction false} NameEndAt(s: string, i: nat, part: string, k: nat)
    requires StandsAt(s, i, part) && Stops(s[i + |part|]) && k <= |part|
    ensures NameEnd(s, i + k) == i + NameEnd(part, k)
    decreases |part| - k
  {
    if k < |part| {
      assert s[i + k] == part[k];
      NameEndAt(s, i, part, k + 1);
    }
  }

  lemma {:induction false} CharAt(s: string, i: nat, part: string, k: nat)
    requires StandsAt(s, i, part) && k < |part|
    ensures s[i + k] == part[k]
  {
    assert s[i..i + |part|][k] == part[k];
  }

  lemma {:induction false} FractionEndAt(s: string, i: nat, part: string, k: nat)
    requires StandsAt(s, i, part) && Stops(s[i + |part|]) && k <= |part|
    ensures FractionEnd(s, i + k) == i + FractionEnd(part, k)
  {
    if k < |part| {
      CharAt(s, i, part, k);
    }
    if k + 1 < |part| {
      CharAt(s, i, part, k + 1);
    }
    if k + 2 <= |part| {
      DigitsEndAt(s, i, part, k + 2);
    }
  }

  lemma {:induction false} ExponentEndAt(s: string, i: nat, part: string, k: nat)
    requires StandsAt(s, i, part) && Stops(s[i + |part|]) && k <= |part| && ExponentEnd(part, k) == |part|
    ensures ExponentEnd(s, i + k) == i + |part|
  {
    if k < |part| {
      CharAt(s, i, part, k);
      if k + 1 < |part| {
        CharAt(s, i, part, k + 1);
      }
      var start := ExponentStart(part, k);
      assert ExponentStart(s, i + k) == i + start;
      if start < |part| {
        CharAt(s, i, part, start);
        DigitsEndAt(s, i, part, start + 1);
      }
    }
  }

  lemma {:induction false} IntegerEndAt(s: string, i: nat, part: string)
    requires StandsAt(s, i, part) && Stops(s[i + |part|]) && part != ""
    ensures IntegerEnd(s, i) == i + IntegerEnd(part, 0)
  {
    CharAt(s, i, part, 0);
    DigitsEndAt(s, i, part, 1);
    hide DigitsEnd;
  }

  lemma {:induction false} NumberEndAt(s: string, i: nat, part: string)
    requires StandsAt(s, i, part) && Stops(s[i + |part|]) && part != "" && NumberEnd(part, 0) == |part|
    ensures NumberEnd(s, i) == i + |part|
  {
    IntegerEndAt(s, i, part);
    hide IntegerEnd, FractionEnd, ExponentEnd, StandsAt;
    FractionEndAt(s, i, part, IntegerEnd(part, 0));
    ExponentEndAt(s, i, part, FractionEnd(part, IntegerEnd(part, 0)));
  }

  // ---------- rendering

  predicate IsSymbol(t: Token) {
    || (t.kind == Operator && t.value in DOUBLE_OPERATORS + SINGLE_OPERATORS)
    || (t.kind == Punctuation && t.value in PUNCTUATION)
  }

  /** A token some source text has. */
  predicate Writable(t: Token) {
    match t.kind
    case StringLiteral => true
    case NumberLiteral => IsNumber(t.value)
    case Identifier => IsName(t.value)
    case Eof => false
    case _ => IsSymbol(t)
  }

  function RenderToken(t: Token): string {
    if t.kind == StringLiteral then Quote(t.value, '\"') else t.value
  }

  /** Each token, followed by a space. */
  function Render(ts: seq<Token>): string {
    if ts == [] then "" else RenderToken(ts[0]) + [' '] + Render(ts[1..])
  }

  lemma {:induction false} StringTokenAt(s: string, i: nat, value: string)
    requires StandsAt(s, i, Quote(value, '\"'))
    ensures TokenAt(s, i) == Ok(Span(Token(StringLiteral, value), i, i + |Quote(value, '\"')|))
  {
    hide *;
    var quote, escaped := ['\"'], Escaped(value, '\"');
    QuoteParts(value, '\"');
    StandsApart(s, i, quote + escaped, quote);
    StandsApart(s, i, quote, escaped);
    CharAt(s, i, quote, 0);
    CharAt(s, i + |quote + escaped|, quote, 0);
    ReadStringOfEscaped(s, i + 1, value, '\"');
    QuotedTokenAt(s, i, value, i + |escaped| + 2);
  }

  lemma {:induction false} QuoteParts(text: string, quote: char)
    ensures Quote(text, quote) == [quote] + Escaped(text, quote) + [quote]
  {
  }

  lemma {:induction false} QuotedTokenAt(s: string, i: nat, value: string, end: nat)
    requires i < |s| && s[i] == '\"' && ReadString(s, i + 1, '\"') == Ok((value, end))
    ensures TokenAt(s, i) == Ok(Span(Token(StringLiteral, value), i, end))
  {
    hide ReadString;
  }

  lemma {:induction false} SymbolTokenAt(s: string, i: nat, t: Token)
    requires IsSymbol(t) && StandsAt(s, i, t.value) && s[i + |t.value|] != '='
    ensures TokenAt(s, i) == Ok(Span(t, i, i + |t.value|))
  {
    CharAt(s, i, t.value, 0);
    if |t.value| == 1 {
      assert s[i..i + 2] == [s[i], s[i + 1]];
    }
  }

  lemma {:induction false} TokenAtRendered(s: string, i: nat, t: Token)
    requires Writable(t) && StandsAt(s, i, RenderToken(t)) && s[i + |RenderToken(t)|] == ' '
    ensures TokenAt(s, i) == Ok(Span(t, i, i + |RenderToken(t)|))
  {
    match t.kind
    case StringLiteral => StringTokenAt(s, i, t.value);
    case NumberLiteral => NumberTokenAt(s, i, t.value);
    case Identifier => NameTokenAt(s, i, t.value);
    case _ => SymbolTokenAt(s, i, t);
  }

  lemma {:induction false} NumberTokenAt(s: string, i: nat, value: string)
    requires IsNumber(value) && StandsAt(s, i, value) && Stops(s[i + |value|])
    ensures TokenAt(s, i) == Ok(Span(Token(NumberLiteral, value), i, i + |value|))
  {
    CharAt(s, i, value, 0);
    NumberEndAt(s, i, value);
    hide NumberEnd, ReadString;
  }

  lemma {:induction false} NameTokenAt(s: string, i: nat, value: string)
    requires IsName(value) && StandsAt(s, i, value) && Stops(s[i + |value|])
    ensures TokenAt(s, i) == Ok(Span(Token(Identifier, value), i, i + |value|))
  {
    CharAt(s, i, value, 0);
    NameEndAt(s, i, value, 1);
    hide NameEnd, ReadString;
  }

  ghost predicate AllWritable(ts: seq<Token>) {
    forall j :: 0 <= j < |ts| ==> Writable(ts[j])
  }

  /** Tokenizing what was rendered gives back the tokens, and the end. */
  lemma {:induction false} TokenizeRendered(s: string, i: nat, ts: seq<Token>)
    requires AllWritable(ts) && i <= |s| && s[i..] == Render(ts)
    ensures TokensFrom(s, i).Ok? && TokensOf(TokensFrom(s, i).value) == ts + [END]
    decreases |ts|
  {
    if ts == [] {
      TokenizeNothing(s, i);
    } else {
      hide *;
      var next := i + |RenderToken(ts[0])| + 1;
      RenderedTail(s, i, ts);
      TokenizeRendered(s, next, ts[1..]);
      TokenizeFirst(s, i, ts, next);
    }
  }

  lemma {:induction false} TokenizeNothing(s: string, i: nat)
    requires i <= |s| && s[i..] == Render([])
    ensures TokensFrom(s, i).Ok? && TokensOf(TokensFrom(s, i).value) == [] + [END]
  {
    assert |s[i..]| == 0;
  }

  lemma {:induction false} RenderedTail(s: string, i: nat, ts: seq<Token>)
    requires ts != [] && AllWritable(ts) && i <= |s| && s[i..] == Render(ts)
    ensures var next := i + |RenderToken(ts[0])| + 1;
            && AllWritable(ts[1..]) && next <= |s| && s[next..] == Render(ts[1..])
            && StandsAt(s, i, RenderToken(ts[0])) && s[next - 1] == ' '
  {
    hide RenderToken, Writable;
    RenderedStands(s, i, RenderToken(ts[0]), Render(ts[1..]));
  }

  lemma {:induction false} TokenizeFirst(s: string, i: nat, ts: seq<Token>, next: nat)
    requires ts != [] && AllWritable(ts) && StandsAt(s, i, RenderToken(ts[0]))
    requires next == i + |RenderToken(ts[0])| + 1 <= |s| && s[next - 1] == ' '
    requires TokensFrom(s, next).Ok? && TokensOf(TokensFrom(s, next).value) == ts[1..] + [END]
    ensures TokensFrom(s, i).Ok? && TokensOf(TokensFrom(s, i).value) == ts + [END]
  {
    hide RenderToken, Writable, TokenAt, TokensFrom, TokensOf;
    TokenAtRendered(s, i, ts[0]);
    FirstIsNotSpace(s, i, ts[0]);
    OneTokenThenSpace(s, i, Span(ts[0], i, next - 1));
    assert [ts[0]] + (ts[1..] + [END]) == ts + [END];
  }

  lemma {:induction false} OneTokenThenSpace(s: string, i: nat, span: Span)
    requires i < span.end < |s| && !IsSpace(s[i]) && TokenAt(s, i) == Ok(span) && s[span.end] == ' '
    requires TokensFrom(s, span.end + 1).Ok?
    ensures TokensFrom(s, i).Ok?
    ensures TokensOf(TokensFrom(s, i).value) == [span.token] + TokensOf(TokensFrom(s, span.end + 1).value)
  {
    hide TokenAt;
    var rest := TokensFrom(s, span.end + 1);
    assert IsSpace(s[span.end]) && TokensFrom(s, span.end) == rest;
    assert TokensFrom(s, i) == Ok([span] + rest.value);
  }

  lemma {:induction false} RenderedStands(s: string, i: nat, part: string, tail: string)
    requires i <= |s| && s[i..] == part + [' '] + tail
    ensures StandsAt(s, i, part) && s[i + |part|] == ' ' && s[i + |part| + 1..] == tail
  {
    var whole := part + [' '] + tail;
    assert s[i + |part|] == s[i..][|part|] == whole[|part|];
    assert s[i..i + |part|] == s[i..][..|part|] == part;
    assert s[i + |part| + 1..] == s[i..][|part| + 1..] == tail;
  }

  lemma {:induction false} FirstIsNotSpace(s: string, i: nat, t: Token)
    requires Writable(t) && StandsAt(s, i, RenderToken(t))
    ensures !IsSpace(s[i])
  {
    CharAt(s, i, RenderToken(t), 0);
  }
}
