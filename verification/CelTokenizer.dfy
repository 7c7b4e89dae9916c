/**
 The tokenizer: spans of a source text. A source is a sequence of characters; a token knows where it begins and ends.
 */
module CelTokenizer {
  import opened Wrappers
  import opened CelSyntax

  datatype Span = Span(token: Token, offset: nat, end: nat)

  datatype Error = UnsupportedToken | UnterminatedString | UnterminatedEscape | InvalidUnicodeEscape | UnsupportedEscape
                 | SurrogateEscape  // a \u escape of a surrogate, which is not a character of the model

  type Tokens = Result<seq<Span>, Error>

  // ---------- character classes

  predicate IsSpace(c: char) {
    || c in {' ', '\t', '\n', '\r', '\U{0B}', '\U{0C}', '\U{A0}', '\U{1680}', '\U{2028}', '\U{2029}', '\U{202F}',
             '\U{205F}', '\U{3000}', '\U{FEFF}'}
    || '\U{2000}' <= c <= '\U{200A}'
  }

  predicate IsDigit(c: char) {
    '0' <= c <= '9'
  }

  predicate IsNameStart(c: char) {
    'A' <= c <= 'Z' || 'a' <= c <= 'z' || c == '_'
  }

  predicate IsNamePart(c: char) {
    IsNameStart(c) || IsDigit(c)
  }

  predicate IsHexDigit(c: char) {
    IsDigit(c) || 'A' <= c <= 'F' || 'a' <= c <= 'f'
  }

  function HexValue(c: char): (v: nat)
    requires IsHexDigit(c)
    ensures v < 16
  {
    if IsDigit(c) then c as int - '0' as int
    else if 'A' <= c <= 'F' then c as int - 'A' as int + 10
    else c as int - 'a' as int + 10
  }

  const DOUBLE_OPERATORS := {"&&", "||", "==", "!=", "<=", ">="}
  const SINGLE_OPERATORS := {"+", "-", "*", "/", "%", "!", "<", ">"}
  const PUNCTUATION := {"{", "}", "[", "]", "(", ")", ",", ":", "?", "."}

  // ---------- reading one token

  function NameEnd(s: string, i: nat): (end: nat)
    requires i <= |s|
    ensures i <= end <= |s|
    decreases |s| - i
  {
    if i < |s| && IsNamePart(s[i]) then NameEnd(s, i + 1) else i
  }

  function DigitsEnd(s: string, i: nat): (end: nat)
    requires i <= |s|
    ensures i <= end <= |s|
    decreases |s| - i
  {
    if i < |s| && IsDigit(s[i]) then DigitsEnd(s, i + 1) else i
  }

  /** A zero alone, or digits that do not begin with one. */
  function IntegerEnd(s: string, i: nat): (end: nat)
    requires i < |s|
    ensures i < end <= |s|
  {
    if s[i] == '0' then i + 1 else DigitsEnd(s, i + 1)
  }

  /** A point counts only with a digit after it. */
  function FractionEnd(s: string, i: nat): (end: nat)
    requires i <= |s|
    ensures i <= end <= |s|
  {
    if i + 1 < |s| && s[i] == '.' && IsDigit(s[i + 1]) then DigitsEnd(s, i + 2) else i
  }

  /** Where the digits of an exponent would begin. */
  function ExponentStart(s: string, i: nat): (start: nat)
    requires i < |s|
    ensures i < start <= |s|
  {
    if i + 1 < |s| && (s[i + 1] == '+' || s[i + 1] == '-') then i + 2 else i + 1
  }

  /** An exponent counts only with a digit after its sign. */
  function ExponentEnd(s: string, i: nat): (end: nat)
    requires i <= |s|
    ensures i <= end <= |s|
  {
    if i < |s| && (s[i] == 'e' || s[i] == 'E') && ExponentStart(s, i) < |s| && IsDigit(s[ExponentStart(s, i)]) then
      DigitsEnd(s, ExponentStart(s, i) + 1)
    else i
  }

  function NumberEnd(s: string, i: nat): (end: nat)
    requires i < |s|
    ensures i < end <= |s|
  {
    ExponentEnd(s, FractionEnd(s, IntegerEnd(s, i)))
  }

  /** A whole number literal. */
  predicate IsNumber(lexeme: string) {
    lexeme != "" && IsDigit(lexeme[0]) && NumberEnd(lexeme, 0) == |lexeme|
  }

  datatype Escape = Plain(c: char) | Unicode | Unsupported

  function EscapeOf(c: char): Escape {
    match c
    case '\'' => Plain('\'')
    case '\"' => Plain('\"')
    case '\\' => Plain('\\')
    case 'b' => Plain('\U{08}')
    case 'f' => Plain('\U{0C}')
    case 'n' => Plain('\n')
    case 'r' => Plain('\r')
    case 't' => Plain('\t')
    case 'u' => Unicode
    case _ => Unsupported
  }

  /** The rest of a string literal from the cursor on: its remaining value, and where the literal ends. */
  function ReadString(s: string, cursor: nat, quote: char): (r: Result<(string, nat), Error>)
    requires cursor <= |s|
    ensures r.Ok? ==> cursor < r.value.1 <= |s|
    decreases |s| - cursor
  {
    if cursor == |s| then Err(UnterminatedString)
    else if s[cursor] == quote then Ok(("", cursor + 1))
    else if s[cursor] == '\n' || s[cursor] == '\r' then Err(UnterminatedString)
    else if s[cursor] != '\\' then Prepend(s[cursor], ReadString(s, cursor + 1, quote))
    else if cursor + 1 == |s| then Err(UnterminatedEscape)
    else
      match EscapeOf(s[cursor + 1])
      case Plain(c) => Prepend(c, ReadString(s, cursor + 2, quote))
      case Unsupported => Err(UnsupportedEscape)
      case Unicode =>
        if cursor + 6 > |s| || exists k :: cursor + 2 <= k < cursor + 6 && !IsHexDigit(s[k]) then
          Err(InvalidUnicodeEscape)
        else
          var unit := ((HexValue(s[cursor + 2]) * 16 + HexValue(s[cursor + 3])) * 16 + HexValue(s[cursor + 4])) * 16
                      + HexValue(s[cursor + 5]);
          if 0xD800 <= unit < 0xE000 then Err(SurrogateEscape)
          else Prepend(unit as char, ReadString(s, cursor + 6, quote))
  }

  function Prepend(c: char, r: Result<(string, nat), Error>): (r': Result<(string, nat), Error>)
    ensures r'.Ok? <==> r.Ok?
    ensures r.Ok? ==> r'.value == ([c] + r.value.0, r.value.1)
  {
    if r.Ok? then Ok(([c] + r.value.0, r.value.1)) else r
  }

  /** The token that begins at a character which is not white space. */
  function TokenAt(s: string, i: nat): (r: Result<Span, Error>)
    requires i < |s|
    ensures r.Ok? ==> r.value.offset == i < r.value.end <= |s| && r.value.token.kind != Eof
  {
    var c := s[i];
    if c == '\'' || c == '\"' then
      var text := ReadString(s, i + 1, c);
      if text.Ok? then Ok(Span(Token(StringLiteral, text.value.0), i, text.value.1)) else Err(text.error)
    else if IsDigit(c) then Ok(Span(Token(NumberLiteral, s[i..NumberEnd(s, i)]), i, NumberEnd(s, i)))
    else if IsNameStart(c) then Ok(Span(Token(Identifier, s[i..NameEnd(s, i + 1)]), i, NameEnd(s, i + 1)))
    else if i + 2 <= |s| && s[i..i + 2] in DOUBLE_OPERATORS then Ok(Span(Token(Operator, s[i..i + 2]), i, i + 2))
    else if [c] in SINGLE_OPERATORS then Ok(Span(Token(Operator, [c]), i, i + 1))
    else if [c] in PUNCTUATION then Ok(Span(Token(Punctuation, [c]), i, i + 1))
    else Err(UnsupportedToken)
  }

  /** All tokens from here on, with the end token last. */
  function TokensFrom(s: string, i: nat): Tokens
    requires i <= |s|
    decreases |s| - i
  {
    if i == |s| then Ok([Span(END, |s|, |s|)])
    else if IsSpace(s[i]) then TokensFrom(s, i + 1)
    else
      var first := TokenAt(s, i);
      if first.Err? then Err(first.error)
      else
        var rest := TokensFrom(s, first.value.end);
        if rest.Err? then rest else Ok([first.value] + rest.value)
  }

  /** The tokens without their places, as the parser sees them. */
  function TokensOf(spans: seq<Span>): (ts: seq<Token>)
    ensures |ts| == |spans| && forall j :: 0 <= j < |ts| ==> ts[j] == spans[j].token
  {
    seq(|spans|, j requires 0 <= j < |spans| => spans[j].token)
  }

  // ---------- the loops

  method ReadWhileName(s: string, offset: nat) returns (cursor: nat)
    requires offset <= |s|
    ensures cursor == NameEnd(s, offset)
  {
    cursor := offset;
    while cursor < |s| && IsNamePart(s[cursor])
      invariant offset <= cursor <= |s| && NameEnd(s, cursor) == NameEnd(s, offset)
    {
      cursor := cursor + 1;
    }
  }

  method ReadStringLiteral(s: string, offset: nat, quote: char) returns (r: Result<Span, Error>)
    requires offset < |s| && (quote == '\'' || quote == '\"')
    ensures var text := ReadString(s, offset + 1, quote);
            r == if text.Err? then Err(text.error)
                 else Ok(Span(Token(StringLiteral, text.value.0), offset, text.value.1))
  {
    var cursor := offset + 1;
    var value := "";
    hide ReadString;
    ghost var whole := ReadString(s, cursor, quote);
    assert whole.Ok? ==> "" + whole.value.0 == whole.value.0;
    while cursor < |s|
      invariant offset < cursor <= |s|
      invariant var rest := ReadString(s, cursor, quote);
                if rest.Ok? then whole == Ok((value + rest.value.0, rest.value.1)) else whole == rest
      decreases |s| - cursor
    {
      var character := s[cursor];
      ReadStringEnds(s, cursor, quote);
      if character == quote {
        assert value + "" == value;
        return Ok(Span(Token(StringLiteral, value), offset, cursor + 1));
      }
      if character == '\n' || character == '\r' {
        return Err(UnterminatedString);
      }
      var next := ReadCharacter(s, cursor, quote);
      if next.Err? {
        return Err(next.error);
      }
      ghost var rest := ReadString(s, next.value.1, quote);
      assert rest.Ok? ==> value + ([next.value.0] + rest.value.0) == value + [next.value.0] + rest.value.0;
      value := value + [next.value.0];
      cursor := next.value.1;
    }
    ReadStringEnds(s, cursor, quote);
    return Err(UnterminatedString);
  }

  lemma {:induction false} ReadStringEnds(s: string, cursor: nat, quote: char)
    requires cursor <= |s|
    ensures cursor == |s| ==> ReadString(s, cursor, quote) == Err(UnterminatedString)
    ensures cursor < |s| && s[cursor] == quote ==> ReadString(s, cursor, quote) == Ok(("", cursor + 1))
    ensures cursor < |s| && s[cursor] != quote && (s[cursor] == '\n' || s[cursor] == '\r') ==>
              ReadString(s, cursor, quote) == Err(UnterminatedString)
  {
  }

  /** One character of a literal, plain or escaped. */
  method ReadCharacter(s: string, cursor: nat, quote: char) returns (r: Result<(char, nat), Error>)
    requires cursor < |s| && quote != '\\'
    requires s[cursor] != quote && s[cursor] != '\n' && s[cursor] != '\r'
    ensures if r.Err? then ReadString(s, cursor, quote) == Err(r.error)
            else cursor < r.value.1 <= |s|
                 && ReadString(s, cursor, quote) == Prepend(r.value.0, ReadString(s, r.value.1, quote))
  {
    if s[cursor] != '\\' {
      return Ok((s[cursor], cursor + 1));
    }
    r := ReadEscape(s, cursor, quote);
  }

  /** One escape sequence: the character it stands for, and where it ends. */
  method ReadEscape(s: string, escapeOffset: nat, ghost quote: char) returns (r: Result<(char, nat), Error>)
    requires escapeOffset < |s| && s[escapeOffset] == '\\' && quote != '\\'
    ensures if r.Err? then ReadString(s, escapeOffset, quote) == Err(r.error)
            else escapeOffset < r.value.1 <= |s|
                 && ReadString(s, escapeOffset, quote) == Prepend(r.value.0, ReadString(s, r.value.1, quote))
  {
    var cursor := escapeOffset + 1;
    if cursor == |s| {
      return Err(UnterminatedEscape);
    }
    match EscapeOf(s[cursor])
    case Plain(c) => return Ok((c, cursor + 1));
    case Unsupported => return Err(UnsupportedEscape);
    case Unicode =>
      if cursor + 5 > |s| || !(IsHexDigit(s[cursor + 1]) && IsHexDigit(s[cursor + 2])
                               && IsHexDigit(s[cursor + 3]) && IsHexDigit(s[cursor + 4])) {
        return Err(InvalidUnicodeEscape);
      }
      var unit := ((HexValue(s[cursor + 1]) * 16 + HexValue(s[cursor + 2])) * 16 + HexValue(s[cursor + 3])) * 16
                  + HexValue(s[cursor + 4]);
      if 0xD800 <= unit < 0xE000 {
        return Err(SurrogateEscape);
      }
      return Ok((unit as char, cursor + 5));
  }

  method Tokenize(s: string) returns (r: Tokens)
    ensures r == TokensFrom(s, 0)
  {
    var tokens: seq<Span> := [];
    var offset := 0;
    assert TokensFrom(s, 0).Ok? ==> tokens + TokensFrom(s, 0).value == TokensFrom(s, 0).value;
    while offset < |s|
      invariant offset <= |s|
      invariant var rest := TokensFrom(s, offset);
                TokensFrom(s, 0) == if rest.Ok? then Ok(tokens + rest.value) else rest
      decreases |s| - offset
    {
      hide TokenAt, IsSpace;
      if IsSpace(s[offset]) {
        offset := offset + 1;
        continue;
      }
      var token := ReadToken(s, offset);
      if token.Err? {
        return Err(token.error);
      }
      OneMoreToken(s, offset, tokens);
      tokens := tokens + [token.value];
      offset := token.value.end;
    }
    tokens := tokens + [Span(END, |s|, |s|)];
    return Ok(tokens);
  }

  lemma {:induction false} OneMoreToken(s: string, i: nat, before: seq<Span>)
    requires i < |s| && !IsSpace(s[i]) && TokenAt(s, i).Ok?
    ensures var rest := TokensFrom(s, TokenAt(s, i).value.end);
            if rest.Err? then TokensFrom(s, i) == rest
            else TokensFrom(s, i).Ok?
                 && before + TokensFrom(s, i).value == before + [TokenAt(s, i).value] + rest.value
  {
    hide TokenAt, IsSpace;
    var first, rest := TokenAt(s, i).value, TokensFrom(s, TokenAt(s, i).value.end);
    assert rest.Ok? ==> TokensFrom(s, i) == Ok([first] + rest.value);
    hide TokensFrom;
    assert rest.Ok? ==> before + ([first] + rest.value) == before + [first] + rest.value;
  }

  method ReadToken(s: string, offset: nat) returns (r: Result<Span, Error>)
    requires offset < |s|
    ensures r == TokenAt(s, offset)
  {
    var character := s[offset];
    if character == '\'' || character == '\"' {
      r := ReadStringLiteral(s, offset, character);
      return;
    }
    if IsDigit(character) {
      var end := NumberEnd(s, offset);
      return Ok(Span(Token(NumberLiteral, s[offset..end]), offset, end));
    }
    if IsNameStart(character) {
      var end := ReadWhileName(s, offset + 1);
      return Ok(Span(Token(Identifier, s[offset..end]), offset, end));
    }
    if offset + 2 <= |s| && s[offset..offset + 2] in DOUBLE_OPERATORS {
      return Ok(Span(Token(Operator, s[offset..offset + 2]), offset, offset + 2));
    }
    if [character] in SINGLE_OPERATORS {
      return Ok(Span(Token(Operator, [character]), offset, offset + 1));
    }
    if [character] in PUNCTUATION {
      return Ok(Span(Token(Punctuation, [character]), offset, offset + 1));
    }
    return Err(UnsupportedToken);
  }

  lemma {:induction false} SpacesAreSkipped(s: string, d: nat, i: nat)
    requires i <= d <= |s| && forall k :: i <= k < d ==> IsSpace(s[k])
    ensures TokensFrom(s, i) == TokensFrom(s, d)
    decreases d - i
  {
    if i < d {
      SpacesAreSkipped(s, d, i + 1);
    }
  }

  // ---------- the spans cover the source

  /** Some token covers this position. */
  predicate Covers(spans: seq<Span>, k: nat) {
    exists j :: 0 <= j < |spans| && spans[j].offset <= k < spans[j].end
  }

  /**
   The spans are ordered and disjoint, only the last is the end token, none begins with white space, and every character
   from `start` on is white space or inside one of them.
   */
  ghost predicate Tile(s: string, start: nat, spans: seq<Span>) {
    && spans != [] && spans[|spans| - 1] == Span(END, |s|, |s|)
    && (forall j :: 0 <= j < |spans| - 1 ==> Proper(s, start, spans[j]))
    && (forall j, k :: 0 <= j < k < |spans| ==> spans[j].end <= spans[k].offset)
    && (forall k :: start <= k < |s| && !Covers(spans, k) ==> IsSpace(s[k]))
  }

  predicate Proper(s: string, start: nat, span: Span) {
    span.token.kind != Eof && start <= span.offset < span.end <= |s| && !IsSpace(s[span.offset])
  }

  lemma {:induction false} SpansTile(s: string, start: nat)
    requires start <= |s| && TokensFrom(s, start).Ok?
    ensures Tile(s, start, TokensFrom(s, start).value)
    decreases |s| - start
  {
    hide TokenAt, Tile, IsSpace;
    if start == |s| {
      TileEnd(s);
    } else if IsSpace(s[start]) {
      SpansTile(s, start + 1);
      TileSpace(s, start, TokensFrom(s, start + 1).value);
    } else {
      var first := TokenAt(s, start).value;
      SpansTile(s, first.end);
      TileCons(s, start, first, TokensFrom(s, first.end).value);
    }
  }

  lemma {:induction false} TileEnd(s: string)
    ensures Tile(s, |s|, [Span(END, |s|, |s|)])
  {
  }

  lemma {:induction false} TileSpace(s: string, start: nat, spans: seq<Span>)
    requires start < |s| && IsSpace(s[start]) && Tile(s, start + 1, spans)
    ensures Tile(s, start, spans)
  {
    hide IsSpace;
  }

  lemma {:induction false} CoversCons(first: Span, rest: seq<Span>, k: nat)
    ensures Covers(rest, k) ==> Covers([first] + rest, k)
  {
    if Covers(rest, k) {
      var j :| 0 <= j < |rest| && rest[j].offset <= k < rest[j].end;
      assert ([first] + rest)[j + 1] == rest[j];
    }
  }

  lemma {:induction false} TileCons(s: string, start: nat, first: Span, rest: seq<Span>)
    requires start < |s| && Proper(s, start, first) && first.offset == start && Tile(s, first.end, rest)
    ensures Tile(s, start, [first] + rest)
  {
    hide IsSpace, Covers;
    var spans := [first] + rest;
    forall k | start <= k < |s| && !Covers(spans, k)
      ensures IsSpace(s[k])
    {
      if k < first.end {
        FirstCovers(first, rest, k);
        assert false;
      }
      CoversCons(first, rest, k);
    }
    forall j | 0 <= j < |rest|
      ensures first.end <= rest[j].offset
    {
      assert j < |rest| - 1 ==> Proper(s, first.end, rest[j]);
    }
    forall j, k | 0 <= j < k < |spans|
      ensures spans[j].end <= spans[k].offset
    {
      assert spans[k] == rest[k - 1];
      assert j > 0 ==> spans[j] == rest[j - 1];
    }
    forall j | 0 <= j < |spans| - 1
      ensures Proper(s, start, spans[j])
    {
      assert j > 0 ==> spans[j] == rest[j - 1] && Proper(s, first.end, rest[j - 1]);
    }
  }

  lemma {:induction false} FirstCovers(first: Span, rest: seq<Span>, k: nat)
    requires first.offset <= k < first.end
    ensures Covers([first] + rest, k)
  {
    assert ([first] + rest)[0] == first;
  }
}
