/**
 Every way of writing a list of tokens as source text: any spelling of the characters of a string literal, and any white
 space between tokens, or none where the next character cannot belong to the token before it.
 */
module CelLayout {
  import opened Wrappers
  import opened CelSyntax
  import opened CelTokenizer
  import opened CelLexemes
  import opened CelWindow

  // ---------- the spellings of a character

  /** A character as it is, after a backslash, or by its number in four hexadecimal digits, each in either case. */
  datatype Glyph = Raw(c: char) | Short(letter: char) | Code(c: char, uppers: seq<bool>)

  const LOWER_DIGITS := "0123456789abcdef"
  const UPPER_DIGITS := "0123456789ABCDEF"

  function HexDigit(n: nat, upper: bool): char
    requires n < 16
  {
    if upper then UPPER_DIGITS[n] else LOWER_DIGITS[n]
  }

  /** The character that a letter after a backslash stands for, by its number. */
  function ShortMeaning(letter: char): char {
    if letter == 'b' then 8 as char
    else if letter == 't' then 9 as char
    else if letter == 'n' then 10 as char
    else if letter == 'f' then 12 as char
    else if letter == 'r' then 13 as char
    else letter
  }

  function Meaning(g: Glyph): char {
    match g
    case Raw(c) => c
    case Short(letter) => ShortMeaning(letter)
    case Code(c, _) => c
  }

  predicate Proper(g: Glyph, quote: char) {
    match g
    case Raw(c) => c != quote && c != '\\' && c != '\n' && c != '\r'
    case Short(letter) => letter in "bfnrt\'\"\\"
    case Code(c, uppers) => c as int < 0x10000 && |uppers| == 4
  }

  function Spelling(g: Glyph): string {
    match g
    case Raw(c) => [c]
    case Short(letter) => ['\\', letter]
    case Code(c, uppers) =>
      var number := c as int;
      if |uppers| != 4 then ""
      else ['\\', 'u', HexDigit(number / 4096 % 16, uppers[0]), HexDigit(number / 256 % 16, uppers[1]),
            HexDigit(number / 16 % 16, uppers[2]), HexDigit(number % 16, uppers[3])]
  }

  ghost predicate AllProper(glyphs: seq<Glyph>, quote: char) {
    forall i :: 0 <= i < |glyphs| ==> Proper(glyphs[i], quote)
  }

  function Spellings(glyphs: seq<Glyph>): string {
    if glyphs == [] then "" else Spelling(glyphs[0]) + Spellings(glyphs[1..])
  }

  function Meanings(glyphs: seq<Glyph>): string {
    if glyphs == [] then "" else [Meaning(glyphs[0])] + Meanings(glyphs[1..])
  }

  lemma {:induction false} HexDigitReads(n: nat, upper: bool)
    requires n < 16
    ensures IsHexDigit(HexDigit(n, upper)) && HexValue(HexDigit(n, upper)) == n
  {
  }

  lemma {:induction false} Digits(number: nat)
    requires number < 0x10000
    ensures ((number / 4096 % 16 * 16 + number / 256 % 16) * 16 + number / 16 % 16) * 16 + number % 16 == number
  {
  }

  /** `part` stands in `s` at `i`. */
  predicate Stands(s: string, i: nat, part: string)
    ensures Stands(s, i, part) ==> i + |part| <= |s|
  {
    i + |part| <= |s| && s[i..i + |part|] == part
  }

  lemma {:induction false} CharIn(s: string, i: nat, part: string, k: nat)
    requires Stands(s, i, part) && k < |part|
    ensures s[i + k] == part[k]
  {
    assert s[i..i + |part|][k] == part[k];
  }

  lemma {:induction false} StandsWithin(s: string, i: nat, part: string)
    requires StandsAt(s, i, part)
    ensures Stands(s, i, part)
  {
  }

  /** Whatever way a character is spelled, reading gives that character and goes on behind it. */
  lemma {:induction false} GlyphReads(s: string, i: nat, g: Glyph, quote: char)
    requires (quote == '\'' || quote == '\"') && Proper(g, quote) && Stands(s, i, Spelling(g))
    ensures ReadString(s, i, quote) == Prepend(Meaning(g), ReadString(s, i + |Spelling(g)|, quote))
  {
    match g
    case Raw(c) => CharIn(s, i, Spelling(g), 0);
    case Short(letter) => ShortReads(s, i, letter, quote);
    case Code(c, uppers) => CodeReads(s, i, c, uppers, quote);
  }

  lemma {:induction false} ShortReads(s: string, i: nat, letter: char, quote: char)
    requires (quote == '\'' || quote == '\"') && letter in "bfnrt\'\"\\" && Stands(s, i, ['\\', letter])
    ensures ReadString(s, i, quote) == Prepend(Meaning(Short(letter)), ReadString(s, i + 2, quote))
  {
    CharIn(s, i, ['\\', letter], 0);
    CharIn(s, i, ['\\', letter], 1);
    assert EscapeOf(letter) == EscapeOf(s[i + 1]);
    assert EscapeOf(letter) == Plain(Meaning(Short(letter)));
    hide EscapeOf, Meaning;
  }

  lemma {:induction false} CodeReads(s: string, i: nat, c: char, uppers: seq<bool>, quote: char)
    requires (quote == '\'' || quote == '\"') && c as int < 0x10000 && |uppers| == 4
    requires Stands(s, i, Spelling(Code(c, uppers)))
    ensures ReadString(s, i, quote) == Prepend(c, ReadString(s, i + 6, quote))
  {
    var text, number := Spelling(Code(c, uppers)), c as int;
    CharIn(s, i, text, 0);
    CharIn(s, i, text, 1);
    CharIn(s, i, text, 2);
    CharIn(s, i, text, 3);
    CharIn(s, i, text, 4);
    CharIn(s, i, text, 5);
    HexDigitReads(number / 4096 % 16, uppers[0]);
    HexDigitReads(number / 256 % 16, uppers[1]);
    HexDigitReads(number / 16 % 16, uppers[2]);
    HexDigitReads(number % 16, uppers[3]);
    Digits(number);
    hide HexDigit, IsHexDigit, HexValue;
    UnicodeReads(s, i, c, quote);
  }

  lemma {:induction false} UnicodeReads(s: string, i: nat, c: char, quote: char)
    requires (quote == '\'' || quote == '\"') && i + 6 <= |s| && s[i] == '\\' && s[i + 1] == 'u'
    requires IsHexDigit(s[i + 2]) && IsHexDigit(s[i + 3]) && IsHexDigit(s[i + 4]) && IsHexDigit(s[i + 5])
    requires ((HexValue(s[i + 2]) * 16 + HexValue(s[i + 3])) * 16 + HexValue(s[i + 4])) * 16 + HexValue(s[i + 5])
          == c as int
    ensures ReadString(s, i, quote) == Prepend(c, ReadString(s, i + 6, quote))
  {
    assert EscapeOf(s[i + 1]) == Unicode;
    hide IsHexDigit, HexValue, EscapeOf;
  }

  lemma {:induction false} FirstGlyph(glyphs: seq<Glyph>, quote: char)
    requires glyphs != [] && AllProper(glyphs, quote)
    ensures Proper(glyphs[0], quote) && AllProper(glyphs[1..], quote)
    ensures Spellings(glyphs) == Spelling(glyphs[0]) + Spellings(glyphs[1..])
    ensures Meanings(glyphs) == [Meaning(glyphs[0])] + Meanings(glyphs[1..])
  {
    hide Spelling, Meaning;
  }

  /** A literal is read as what its glyphs mean, however they are spelled. */
  lemma {:induction false} ReadStringOfGlyphs(s: string, i: nat, glyphs: seq<Glyph>, quote: char)
    requires (quote == '\'' || quote == '\"') && AllProper(glyphs, quote)
    requires StandsAt(s, i, Spellings(glyphs)) && s[i + |Spellings(glyphs)|] == quote
    ensures ReadString(s, i, quote) == Ok((Meanings(glyphs), i + |Spellings(glyphs)| + 1))
    decreases |glyphs|
  {
    hide *;
    if glyphs == [] {
      NoGlyphs();
      ClosingQuote(s, i, quote);
    } else {
      var first, rest := Spelling(glyphs[0]), Spellings(glyphs[1..]);
      FirstGlyph(glyphs, quote);
      StandsApart(s, i, first, rest);
      assert s[i + |first| + |rest|] == quote;
      ReadStringOfGlyphs(s, i + |first|, glyphs[1..], quote);
      StandsWithin(s, i, first);
      GlyphReads(s, i, glyphs[0], quote);
      OneMore(Meaning(glyphs[0]), Meanings(glyphs[1..]), i + |first| + |rest| + 1);
    }
  }

  lemma {:induction false} NoGlyphs()
    ensures Spellings([]) == "" && Meanings([]) == ""
  {
  }

  lemma {:induction false} OneMore(c: char, text: string, end: nat)
    ensures Prepend(c, Ok((text, end))) == Ok(([c] + text, end))
  {
  }

  /** And whatever is read as a literal is spelled with such glyphs. */
  lemma {:induction false} StringIsSpelled(s: string, i: nat, quote: char) returns (glyphs: seq<Glyph>)
    requires i <= |s| && (quote == '\'' || quote == '\"') && ReadString(s, i, quote).Ok?
    ensures AllProper(glyphs, quote)
    ensures var (text, end) := ReadString(s, i, quote).value;
            text == Meanings(glyphs) && s[i..end] == Spellings(glyphs) + [quote]
    decreases |s| - i
  {
    hide *;
    NotAtTheEnd(s, i, quote);
    if s[i] == quote {
      glyphs := [];
      NoGlyphs();
      ClosingQuote(s, i, quote);
      assert s[i..i + 1] == "" + [quote];
    } else {
      var g := GlyphIsSpelled(s, i, quote);
      var next := i + |Spelling(g)|;
      OneMoreRead(s, i, next, Meaning(g), quote);
      var rest := StringIsSpelled(s, next, quote);
      glyphs := [g] + rest;
      GlyphBefore(g, rest, quote);
      JoinedSlices(s, i, next, ReadString(s, next, quote).value.1, Spelling(g), Spellings(rest), quote);
    }
  }

  lemma {:induction false} NotAtTheEnd(s: string, i: nat, quote: char)
    requires i <= |s| && ReadString(s, i, quote).Ok?
    ensures i < |s| && AllProper([], quote)
  {
  }

  lemma {:induction false} JoinedSlices(s: string, i: nat, next: nat, end: nat, a: string, b: string, quote: char)
    requires i <= next <= end <= |s| && s[i..next] == a && s[next..end] == b + [quote]
    ensures s[i..end] == (a + b) + [quote]
  {
    assert s[i..end] == s[i..next] + s[next..end];
  }

  lemma {:induction false} OneMoreRead(s: string, i: nat, next: nat, c: char, quote: char)
    requires i < next <= |s| && ReadString(s, i, quote).Ok?
    requires ReadString(s, i, quote) == Prepend(c, ReadString(s, next, quote))
    ensures ReadString(s, next, quote).Ok? && next <= ReadString(s, next, quote).value.1 <= |s|
    ensures ReadString(s, i, quote).value
         == ([c] + ReadString(s, next, quote).value.0, ReadString(s, next, quote).value.1)
  {
    hide ReadString;
  }

  lemma {:induction false} GlyphBefore(g: Glyph, rest: seq<Glyph>, quote: char)
    requires Proper(g, quote) && AllProper(rest, quote)
    ensures AllProper([g] + rest, quote)
    ensures Spellings([g] + rest) == Spelling(g) + Spellings(rest)
    ensures Meanings([g] + rest) == [Meaning(g)] + Meanings(rest)
  {
    assert ([g] + rest)[1..] == rest;
    hide Spelling, Meaning, Proper;
  }

  /** The first character of what is read. */
  lemma {:induction false} GlyphIsSpelled(s: string, i: nat, quote: char) returns (g: Glyph)
    requires i < |s| && (quote == '\'' || quote == '\"') && s[i] != quote && ReadString(s, i, quote).Ok?
    ensures Proper(g, quote) && Spelling(g) != "" && i + |Spelling(g)| <= |s| && s[i..i + |Spelling(g)|] == Spelling(g)
    ensures ReadString(s, i, quote) == Prepend(Meaning(g), ReadString(s, i + |Spelling(g)|, quote))
  {
    if s[i] != '\\' {
      g := Raw(s[i]);
    } else if s[i + 1] != 'u' {
      g := Short(s[i + 1]);
      assert s[i..i + 2] == ['\\', s[i + 1]];
      assert EscapeOf(s[i + 1]) == Plain(Meaning(g)) && s[i + 1] in "bfnrt\'\"\\";
    } else {
      g := CodeIsSpelled(s, i, quote);
    }
  }

  lemma {:induction false} CodeIsSpelled(s: string, i: nat, quote: char) returns (g: Glyph)
    requires i + 1 < |s| && (quote == '\'' || quote == '\"') && s[i] == '\\' && s[i + 1] == 'u'
    requires ReadString(s, i, quote).Ok?
    ensures Proper(g, quote) && |Spelling(g)| == 6 && i + 6 <= |s| && s[i..i + 6] == Spelling(g)
    ensures ReadString(s, i, quote) == Prepend(Meaning(g), ReadString(s, i + 6, quote))
  {
    UnicodeIsRead(s, i, quote);
    hide *;
    var a, b, c, d := HexValue(s[i + 2]), HexValue(s[i + 3]), HexValue(s[i + 4]), HexValue(s[i + 5]);
    var number := ((a * 16 + b) * 16 + c) * 16 + d;
    var uppers := [s[i + 2] <= 'F', s[i + 3] <= 'F', s[i + 4] <= 'F', s[i + 5] <= 'F'];
    g := Code(number as char, uppers);
    DigitsOf(a, b, c, d);
    assert (number as char) as int == number;
    CodeSpelling(number as char, uppers, s[i + 2], s[i + 3], s[i + 4], s[i + 5]);
    SixCharacters(s, i);
  }

  lemma {:induction false} SixCharacters(s: string, i: nat)
    requires i + 6 <= |s|
    ensures s[i..i + 6] == [s[i], s[i + 1], s[i + 2], s[i + 3], s[i + 4], s[i + 5]]
  {
  }

  lemma {:induction false} UnicodeIsRead(s: string, i: nat, quote: char)
    requires i + 1 < |s| && (quote == '\'' || quote == '\"') && s[i] == '\\' && s[i + 1] == 'u'
    requires ReadString(s, i, quote).Ok?
    ensures i + 6 <= |s| && IsHexDigit(s[i + 2]) && IsHexDigit(s[i + 3]) && IsHexDigit(s[i + 4]) && IsHexDigit(s[i + 5])
    ensures var number := ((HexValue(s[i + 2]) * 16 + HexValue(s[i + 3])) * 16 + HexValue(s[i + 4])) * 16
                          + HexValue(s[i + 5]);
            && number < 0x10000 && !(0xD800 <= number < 0xE000)
            && ReadString(s, i, quote) == Prepend(number as char, ReadString(s, i + 6, quote))
  {
    assert EscapeOf(s[i + 1]) == Unicode;
    assert i + 6 <= |s|;
    assert IsHexDigit(s[i + 2]) && IsHexDigit(s[i + 3]) && IsHexDigit(s[i + 4]) && IsHexDigit(s[i + 5]);
    hide IsHexDigit, HexValue, EscapeOf;
  }

  lemma {:induction false} CodeSpelling(c: char, uppers: seq<bool>, h1: char, h2: char, h3: char, h4: char)
    requires IsHexDigit(h1) && IsHexDigit(h2) && IsHexDigit(h3) && IsHexDigit(h4)
    requires c as int / 4096 % 16 == HexValue(h1) && c as int / 256 % 16 == HexValue(h2)
    requires c as int / 16 % 16 == HexValue(h3) && c as int % 16 == HexValue(h4) && c as int < 0x10000
    requires uppers == [h1 <= 'F', h2 <= 'F', h3 <= 'F', h4 <= 'F']
    ensures Spelling(Code(c, uppers)) == ['\\', 'u', h1, h2, h3, h4] && Meaning(Code(c, uppers)) == c
    ensures forall quote :: Proper(Code(c, uppers), quote)
  {
    DigitIsSpelled(h1);
    DigitIsSpelled(h2);
    DigitIsSpelled(h3);
    DigitIsSpelled(h4);
    hide HexDigit, HexValue, IsHexDigit;
  }

  lemma {:induction false} DigitIsSpelled(c: char)
    requires IsHexDigit(c)
    ensures HexDigit(HexValue(c), c <= 'F') == c
  {
  }

  lemma {:induction false} DigitsOf(a: nat, b: nat, c: nat, d: nat)
    requires a < 16 && b < 16 && c < 16 && d < 16
    ensures var unit := ((a * 16 + b) * 16 + c) * 16 + d;
            unit / 4096 % 16 == a && unit / 256 % 16 == b && unit / 16 % 16 == c && unit % 16 == d
  {
  }

  // ---------- the layout of a source text

  /** A string literal in either kind of quotes, or a token that is its own text. */
  datatype Lexeme = Quoted(quote: char, glyphs: seq<Glyph>) | Bare(token: Token)

  /** A lexeme and the white space behind it. */
  datatype Piece = Piece(lexeme: Lexeme, gap: string)

  function TokenOf(lexeme: Lexeme): Token {
    match lexeme
    case Quoted(_, glyphs) => Token(StringLiteral, Meanings(glyphs))
    case Bare(token) => token
  }

  function TextOf(lexeme: Lexeme): string {
    match lexeme
    case Quoted(quote, glyphs) => [quote] + (Spellings(glyphs) + [quote])
    case Bare(token) => token.value
  }

  ghost predicate ProperLexeme(lexeme: Lexeme) {
    match lexeme
    case Quoted(quote, glyphs) => (quote == '\'' || quote == '\"') && AllProper(glyphs, quote)
    case Bare(token) => token.kind != StringLiteral && Writable(token)
  }

  /** White space and line ends, by their numbers. */
  predicate White(c: char) {
    var n := c as int;
    || n == 9 || n == 10 || n == 11 || n == 12 || n == 13 || n == 32 || n == 0xA0 || n == 0x1680
    || 0x2000 <= n <= 0x200A || n == 0x2028 || n == 0x2029 || n == 0x202F || n == 0x205F || n == 0x3000 || n == 0xFEFF
  }

  predicate AllWhite(s: string) {
    forall k :: 0 <= k < |s| ==> White(s[k])
  }

  /** This character may follow the token directly: it cannot belong to it. */
  predicate MayFollow(t: Token, c: char) {
    match t.kind
    case Identifier => Stops(c)
    case NumberLiteral => Stops(c)
    case Operator => c != '='
    case _ => true
  }

  function Laid(pieces: seq<Piece>): string {
    if pieces == [] then "" else TextOf(pieces[0].lexeme) + (pieces[0].gap + Laid(pieces[1..]))
  }

  function TokensOfPieces(pieces: seq<Piece>): (ts: seq<Token>)
    ensures |ts| == |pieces| && forall j :: 0 <= j < |ts| ==> ts[j] == TokenOf(pieces[j].lexeme)
  {
    seq(|pieces|, j requires 0 <= j < |pieces| => TokenOf(pieces[j].lexeme))
  }

  /** Two pieces may do without white space between them only if the second cannot go on where the first ends. */
  ghost predicate WellLaid(pieces: seq<Piece>)
    decreases |pieces|
  {
    pieces == []
    || (&& ProperLexeme(pieces[0].lexeme) && AllWhite(pieces[0].gap) && WellLaid(pieces[1..])
        && (pieces[0].gap == "" && |pieces| > 1 ==>
              TextOf(pieces[1].lexeme) != "" && MayFollow(TokenOf(pieces[0].lexeme), TextOf(pieces[1].lexeme)[0])))
  }

  /** The last piece has white space behind it. */
  predicate EndsWhite(pieces: seq<Piece>) {
    pieces != [] ==> pieces[|pieces| - 1].gap != ""
  }

  lemma {:induction false} WhiteIsSpace(c: char)
    ensures White(c) <==> IsSpace(c)
    ensures White(c) ==> Stops(c) && c != '='
  {
  }

  lemma {:induction false} QuotedReads(s: string, i: nat, quote: char, glyphs: seq<Glyph>)
    requires (quote == '\'' || quote == '\"') && AllProper(glyphs, quote)
    requires StandsAt(s, i, TextOf(Quoted(quote, glyphs)))
    ensures var text := TextOf(Quoted(quote, glyphs));
            TokenAt(s, i) == Ok(Span(TokenOf(Quoted(quote, glyphs)), i, i + |text|))
  {
    hide *;
    var open, written := [quote], Spellings(glyphs);
    TextOfQuoted(quote, glyphs);
    StandsApart(s, i, open, written + open);
    StandsApart(s, i + 1, written, open);
    CharAt(s, i, open, 0);
    CharAt(s, i + 1 + |written|, open, 0);
    ReadStringOfGlyphs(s, i + 1, glyphs, quote);
    QuotedToken(s, i, quote, glyphs, i + 1 + |written| + 1);
  }

  lemma {:induction false} TextOfQuoted(quote: char, glyphs: seq<Glyph>)
    ensures TextOf(Quoted(quote, glyphs)) == [quote] + (Spellings(glyphs) + [quote])
  {
  }

  lemma {:induction false} QuotedToken(s: string, i: nat, quote: char, glyphs: seq<Glyph>, end: nat)
    requires i < |s| && s[i] == quote && (quote == '\'' || quote == '\"')
    requires ReadString(s, i + 1, quote) == Ok((Meanings(glyphs), end))
    ensures TokenAt(s, i) == Ok(Span(TokenOf(Quoted(quote, glyphs)), i, end))
  {
    hide ReadString, Meanings;
  }

  lemma {:induction false} LexemeReads(s: string, i: nat, lexeme: Lexeme)
    requires ProperLexeme(lexeme) && StandsAt(s, i, TextOf(lexeme))
    requires MayFollow(TokenOf(lexeme), s[i + |TextOf(lexeme)|])
    ensures TextOf(lexeme) != "" && !IsSpace(s[i])
    ensures TokenAt(s, i) == Ok(Span(TokenOf(lexeme), i, i + |TextOf(lexeme)|))
  {
    match lexeme
    case Quoted(quote, glyphs) =>
      QuotedReads(s, i, quote, glyphs);
      CharAt(s, i, TextOf(lexeme), 0);
    case Bare(token) => BareReads(s, i, token);
  }

  lemma {:induction false} BareReads(s: string, i: nat, t: Token)
    requires t.kind != StringLiteral && Writable(t) && StandsAt(s, i, t.value) && MayFollow(t, s[i + |t.value|])
    ensures t.value != "" && !IsSpace(s[i]) && TokenAt(s, i) == Ok(Span(t, i, i + |t.value|))
  {
    FirstIsNotSpace(s, i, t);
    match t.kind
    case NumberLiteral => NumberTokenAt(s, i, t.value);
    case Identifier => NameTokenAt(s, i, t.value);
    case Operator => SymbolTokenAt(s, i, t);
    case Punctuation => MarkTokenAt(s, i, t);
  }

  lemma {:induction false} MarkTokenAt(s: string, i: nat, t: Token)
    requires t.kind == Punctuation && t.value in PUNCTUATION && StandsAt(s, i, t.value)
    ensures TokenAt(s, i) == Ok(Span(t, i, i + |t.value|))
  {
    CharAt(s, i, t.value, 0);
    assert i + 2 <= |s| ==> s[i..i + 2] == [s[i], s[i + 1]];
  }

  /** A text laid out in pieces is tokenized to the tokens of the pieces. */
  lemma {:induction false} PiecesRead(s: string, i: nat, pieces: seq<Piece>)
    requires WellLaid(pieces) && EndsWhite(pieces) && i <= |s| && s[i..] == Laid(pieces)
    ensures TokensFrom(s, i).Ok? && TokensOf(TokensFrom(s, i).value) == TokensOfPieces(pieces) + [END]
    decreases |pieces|
  {
    hide *;
    if pieces == [] {
      NoPieces(s, i);
    } else {
      var text, gap := TextOf(pieces[0].lexeme), pieces[0].gap;
      FirstPiece(s, i, pieces);
      LexemeReads(s, i, pieces[0].lexeme);
      GapIsSkipped(s, i + |text|, gap);
      PiecesRead(s, i + |text| + |gap|, pieces[1..]);
      FirstToken(s, i, pieces, Span(TokenOf(pieces[0].lexeme), i, i + |text|), i + |text| + |gap|);
    }
  }

  lemma {:induction false} NoPieces(s: string, i: nat)
    requires i <= |s| && s[i..] == Laid([])
    ensures TokensFrom(s, i).Ok? && TokensOf(TokensFrom(s, i).value) == TokensOfPieces([]) + [END]
  {
    assert |s[i..]| == 0;
  }

  lemma {:induction false} FirstPiece(s: string, i: nat, pieces: seq<Piece>)
    requires pieces != [] && WellLaid(pieces) && EndsWhite(pieces) && i <= |s| && s[i..] == Laid(pieces)
    ensures var lexeme, gap := pieces[0].lexeme, pieces[0].gap;
            var end := i + |TextOf(lexeme)|;
            && ProperLexeme(lexeme) && StandsAt(s, i, TextOf(lexeme)) && MayFollow(TokenOf(lexeme), s[end])
            && AllWhite(gap) && end + |gap| <= |s| && s[end..end + |gap|] == gap
            && s[end + |gap|..] == Laid(pieces[1..]) && WellLaid(pieces[1..]) && EndsWhite(pieces[1..])
  {
    hide *;
    var text, gap, rest := TextOf(pieces[0].lexeme), pieces[0].gap, Laid(pieces[1..]);
    PartsOfLayout(pieces);
    NextCharacter(pieces);
    Slices(s, i, text, gap, rest);
  }

  lemma {:induction false} PartsOfLayout(pieces: seq<Piece>)
    requires pieces != [] && WellLaid(pieces) && EndsWhite(pieces)
    ensures Laid(pieces) == TextOf(pieces[0].lexeme) + (pieces[0].gap + Laid(pieces[1..]))
    ensures ProperLexeme(pieces[0].lexeme) && AllWhite(pieces[0].gap) && WellLaid(pieces[1..]) && EndsWhite(pieces[1..])
  {
    hide TextOf, TokenOf, ProperLexeme, MayFollow, White;
  }

  lemma {:induction false} Slices(s: string, i: nat, text: string, gap: string, rest: string)
    requires i <= |s| && s[i..] == text + (gap + rest) && gap + rest != ""
    ensures var end := i + |text|;
            && StandsAt(s, i, text) && s[end] == (gap + rest)[0]
            && end + |gap| <= |s| && s[end..end + |gap|] == gap && s[end + |gap|..] == rest
  {
    var all, tail := s[i..], gap + rest;
    assert all[..|text|] == text && all[|text|..] == tail && all[|text|] == tail[0];
    assert s[i..i + |text|] == all[..|text|] && s[i + |text|..] == all[|text|..];
    SliceTail(s, i + |text|, gap, rest);
  }

  lemma {:induction false} SliceTail(s: string, i: nat, gap: string, rest: string)
    requires i <= |s| && s[i..] == gap + rest
    ensures i + |gap| <= |s| && s[i..i + |gap|] == gap && s[i + |gap|..] == rest
  {
    assert s[i..][..|gap|] == gap && s[i..][|gap|..] == rest;
    assert s[i..i + |gap|] == s[i..][..|gap|] && s[i + |gap|..] == s[i..][|gap|..];
  }

  /** The character behind the first lexeme. */
  lemma {:induction false} NextCharacter(pieces: seq<Piece>)
    requires pieces != [] && WellLaid(pieces) && EndsWhite(pieces)
    ensures pieces[0].gap + Laid(pieces[1..]) != ""
    ensures MayFollow(TokenOf(pieces[0].lexeme), (pieces[0].gap + Laid(pieces[1..]))[0])
  {
    if pieces[0].gap != "" {
      assert White(pieces[0].gap[0]);
      WhiteIsSpace(pieces[0].gap[0]);
    } else {
      assert |pieces| > 1 && pieces[1..][0] == pieces[1];
    }
    hide TextOf, TokenOf, ProperLexeme, White;
  }

  lemma {:induction false} GapIsSkipped(s: string, i: nat, gap: string)
    requires AllWhite(gap) && i + |gap| <= |s| && s[i..i + |gap|] == gap
    ensures TokensFrom(s, i) == TokensFrom(s, i + |gap|)
  {
    forall k | i <= k < i + |gap|
      ensures IsSpace(s[k])
    {
      assert s[k] == s[i..i + |gap|][k - i];
      WhiteIsSpace(s[k]);
    }
    hide White, IsSpace;
    SpacesAreSkipped(s, i + |gap|, i);
  }

  lemma {:induction false} FirstToken(s: string, i: nat, pieces: seq<Piece>, span: Span, next: nat)
    requires pieces != [] && span.token == TokenOf(pieces[0].lexeme)
    requires i < span.end <= next <= |s| && !IsSpace(s[i]) && TokenAt(s, i) == Ok(span)
    requires TokensFrom(s, span.end) == TokensFrom(s, next) && TokensFrom(s, next).Ok?
    requires TokensOf(TokensFrom(s, next).value) == TokensOfPieces(pieces[1..]) + [END]
    ensures TokensFrom(s, i).Ok? && TokensOf(TokensFrom(s, i).value) == TokensOfPieces(pieces) + [END]
  {
    var rest := TokensFrom(s, next).value;
    assert TokensFrom(s, i) == Ok([span] + rest);
    hide TokensFrom, TokenAt, TokenOf;
    assert TokensOf([span] + rest) == [span.token] + TokensOf(rest);
    assert TokensOfPieces(pieces) == [span.token] + TokensOfPieces(pieces[1..]);
  }

  /** Every layout of tokens, with white space before, between and behind them or without, is tokenized to them. */
  lemma {:induction false} LayoutReads(lead: string, pieces: seq<Piece>)
    requires AllWhite(lead) && WellLaid(pieces)
    ensures var r := TokensFrom(lead + Laid(pieces), 0);
            r.Ok? && TokensOf(r.value) == TokensOfPieces(pieces) + [END]
  {
    var s := lead + Laid(pieces);
    var longer := s + [' '];
    hide *;
    if pieces == [] {
      NothingWritten(lead, pieces);
    } else {
      var spaced := Spaced(pieces);
      SpacedIsLaid(pieces);
      assert longer == lead + Laid(spaced) && longer[|lead|..] == Laid(spaced) && longer[0..|lead|] == lead;
      PiecesRead(longer, |lead|, spaced);
      GapIsSkipped(longer, 0, lead);
      SpaceAtTheEnd(s);
    }
  }

  lemma {:induction false} NothingWritten(lead: string, pieces: seq<Piece>)
    requires AllWhite(lead) && pieces == []
    ensures var r := TokensFrom(lead + Laid(pieces), 0);
            r.Ok? && TokensOf(r.value) == TokensOfPieces(pieces) + [END]
  {
    assert lead + Laid(pieces) == lead && lead[0..|lead|] == lead;
    GapIsSkipped(lead, 0, lead);
  }

  function Spaced(pieces: seq<Piece>): seq<Piece>
    requires pieces != []
  {
    var n := |pieces| - 1;
    pieces[..n] + [pieces[n].(gap := pieces[n].gap + [' '])]
  }

  lemma {:induction false} SpacedIsLaid(pieces: seq<Piece>)
    requires pieces != [] && WellLaid(pieces)
    ensures WellLaid(Spaced(pieces)) && EndsWhite(Spaced(pieces))
    ensures Laid(Spaced(pieces)) == Laid(pieces) + [' '] && TokensOfPieces(Spaced(pieces)) == TokensOfPieces(pieces)
    decreases |pieces|
  {
    hide TextOf, TokenOf, ProperLexeme, MayFollow;
    if |pieces| > 1 {
      SpacedIsLaid(pieces[1..]);
      assert Spaced(pieces)[1..] == Spaced(pieces[1..]);
    }
  }

  lemma {:induction false} SpaceAtTheEnd(s: string)
    requires TokensFrom(s + [' '], 0).Ok?
    ensures TokensFrom(s, 0).Ok? && TokensOf(TokensFrom(s, 0).value) == TokensOf(TokensFrom(s + [' '], 0).value)
  {
    assert (s + [' '])[0..|s|] == s;
    TokensInWindow(s + [' '], 0, |s|, s, 0);
    hide TokensFrom;
  }

  // ---------- and nothing else is a token

  lemma {:induction false} DigitsInPrefix(s: string, i: nat, t: string, k: nat)
    requires i + |t| <= |s| && t == s[i..i + |t|] && k <= |t| && DigitsEnd(s, i + k) <= i + |t|
    ensures DigitsEnd(t, k) == DigitsEnd(s, i + k) - i
    decreases |t| - k
  {
    if k < |t| && IsDigit(t[k]) {
      DigitsInPrefix(s, i, t, k + 1);
    }
  }

  lemma {:induction false} NameInPrefix(s: string, i: nat, t: string, k: nat)
    requires i + |t| <= |s| && t == s[i..i + |t|] && k <= |t| && NameEnd(s, i + k) <= i + |t|
    ensures NameEnd(t, k) == NameEnd(s, i + k) - i
    decreases |t| - k
  {
    if k < |t| && IsNamePart(t[k]) {
      NameInPrefix(s, i, t, k + 1);
    }
  }

  lemma {:induction false} FractionInPrefix(s: string, i: nat, t: string, k: nat)
    requires i + |t| <= |s| && t == s[i..i + |t|] && k <= |t| && FractionEnd(s, i + k) <= i + |t|
    ensures FractionEnd(t, k) == FractionEnd(s, i + k) - i
  {
    if FractionEnd(s, i + k) > i + k {
      assert t[k] == s[i + k] && t[k + 1] == s[i + k + 1];
      DigitsInPrefix(s, i, t, k + 2);
    } else {
      assert k + 1 < |t| ==> t[k] == s[i + k] && t[k + 1] == s[i + k + 1];
    }
  }

  lemma {:induction false} ExponentInPrefix(s: string, i: nat, t: string, k: nat)
    requires i + |t| <= |s| && t == s[i..i + |t|] && k <= |t| && ExponentEnd(s, i + k) == i + |t|
    ensures ExponentEnd(t, k) == |t|
  {
    if k < |t| {
      var start := ExponentStart(s, i + k);
      assert t[k] == s[i + k] && t[k + 1] == s[i + k + 1] && t[start - i] == s[start];
      assert ExponentStart(t, k) == start - i;
      DigitsInPrefix(s, i, t, start + 1 - i);
    }
  }

  lemma {:induction false} NumberInPrefix(s: string, i: nat)
    requires i < |s| && IsDigit(s[i])
    ensures IsNumber(s[i..NumberEnd(s, i)])
  {
    var t := s[i..NumberEnd(s, i)];
    var j := IntegerEnd(s, i);
    assert t == s[i..i + |t|] && t[0] == s[i] && j <= FractionEnd(s, j) <= i + |t|;
    assert ExponentEnd(s, FractionEnd(s, j)) == i + |t|;
    IntegerInPrefix(s, i, t);
    hide IntegerEnd, FractionEnd, ExponentEnd, IsDigit;
    FractionInPrefix(s, i, t, j - i);
    ExponentInPrefix(s, i, t, FractionEnd(s, j) - i);
  }

  lemma {:induction false} IntegerInPrefix(s: string, i: nat, t: string)
    requires t != "" && i + |t| <= |s| && t == s[i..i + |t|] && IntegerEnd(s, i) <= i + |t|
    ensures IntegerEnd(t, 0) == IntegerEnd(s, i) - i
  {
    if s[i] != '0' {
      DigitsInPrefix(s, i, t, 1);
    }
  }

  /** This part of the source is the text of a lexeme of this token. */
  ghost predicate IsLexeme(s: string, span: Span) {
    && span.offset <= span.end <= |s|
    && exists lexeme ::
         ProperLexeme(lexeme) && TextOf(lexeme) == s[span.offset..span.end] && TokenOf(lexeme) == span.token
  }

  lemma {:induction false} TokenIsLexeme(s: string, i: nat)
    requires i < |s| && TokenAt(s, i).Ok?
    ensures IsLexeme(s, TokenAt(s, i).value)
  {
    var span := TokenAt(s, i).value;
    if s[i] == '\'' || s[i] == '\"' {
      var glyphs := StringIsSpelled(s, i + 1, s[i]);
      QuotedIsLexeme(s, i, glyphs);
    } else {
      if IsDigit(s[i]) {
        NumberInPrefix(s, i);
      } else if IsNameStart(s[i]) {
        NameInPrefix(s, i, span.token.value, 1);
      }
      hide NumberEnd, NameEnd, ReadString;
      var lexeme := Bare(span.token);
      assert [s[i]] == s[i..i + 1];
      assert ProperLexeme(lexeme) && TextOf(lexeme) == s[i..span.end];
    }
  }

  lemma {:induction false} QuotedIsLexeme(s: string, i: nat, glyphs: seq<Glyph>)
    requires i < |s| && (s[i] == '\'' || s[i] == '\"') && AllProper(glyphs, s[i])
    requires ReadString(s, i + 1, s[i]).Ok?
    requires var (text, end) := ReadString(s, i + 1, s[i]).value;
             text == Meanings(glyphs) && s[i + 1..end] == Spellings(glyphs) + [s[i]]
    ensures TokenAt(s, i).Ok? && IsLexeme(s, TokenAt(s, i).value)
  {
    hide ReadString, Spellings, Meanings;
    var end := ReadString(s, i + 1, s[i]).value.1;
    var lexeme := Quoted(s[i], glyphs);
    assert s[i..end] == [s[i]] + s[i + 1..end];
    assert ProperLexeme(lexeme) && TextOf(lexeme) == s[i..end];
  }

  /** Every token of a source is a lexeme that stands where the token says. */
  lemma {:induction false} TokensAreLexemes(s: string, i: nat)
    requires i <= |s| && TokensFrom(s, i).Ok?
    ensures var spans := TokensFrom(s, i).value;
            forall j :: 0 <= j < |spans| - 1 ==> IsLexeme(s, spans[j])
    decreases |s| - i
  {
    hide TokenAt, IsSpace, IsLexeme;
    if i < |s| {
      if IsSpace(s[i]) {
        TokensAreLexemes(s, i + 1);
      } else {
        TokenIsLexeme(s, i);
        TokensAreLexemes(s, TokenAt(s, i).value.end);
      }
    }
  }

  /** What a name or a symbol may be, by its characters. */
  lemma {:induction false} NamesAndSymbols(t: Token)
    ensures t.kind == Identifier ==>
              (Writable(t) <==> t.value != "" && !Decimal(t.value[0])
                                && forall k :: 0 <= k < |t.value| ==> NameLike(t.value[k]))
    ensures t.kind == Operator ==>
              (Writable(t) <==> t.value in {"&&", "||", "==", "!=", "<=", ">=", "+", "-", "*", "/", "%", "!", "<", ">"})
    ensures t.kind == Punctuation ==>
              (Writable(t) <==> t.value in {"{", "}", "[", "]", "(", ")", ",", ":", "?", "."})
    ensures t.kind == Eof ==> !Writable(t)
  {
    if t.kind == Identifier && t.value != "" {
      NameLikeToTheEnd(t.value, 1);
      assert NameLike(t.value[0]) && !Decimal(t.value[0]) <==> IsNameStart(t.value[0]);
    }
    hide NameEnd;
  }

  predicate Decimal(c: char) {
    48 <= c as int <= 57
  }

  /** Letters of the basic alphabet, decimal digits and the underscore. */
  predicate NameLike(c: char) {
    Decimal(c) || 65 <= c as int <= 90 || 97 <= c as int <= 122 || c == '_'
  }

  lemma {:induction false} NameLikeToTheEnd(name: string, i: nat)
    requires i <= |name|
    ensures NameEnd(name, i) == |name| <==> forall k :: i <= k < |name| ==> NameLike(name[k])
    decreases |name| - i
  {
    if i < |name| {
      NameLikeToTheEnd(name, i + 1);
    }
  }
}
