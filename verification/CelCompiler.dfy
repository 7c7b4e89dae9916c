/**
 From source text to programs: trimming, tokenizing, parsing, the static check, and the caches, which change nothing but
 the work done.
 */
module CelCompiler {
  import opened Wrappers
  import opened Json
  import opened CelSyntax
  import opened CelTokenizer
  import opened CelParserObject
  import Grammar = CelParser
  import Evaluator = CelEvaluator

  datatype OptionName = ReasoningLevel | MaxOutputTokens

  datatype CompileError =
    | EmptySource
    | BadToken(tokenError: CelTokenizer.Error)
    | BadSyntax(syntaxError: Grammar.Error)
    | NotAnObjectExpression

  datatype EvaluateError = Failed(error: Evaluator.Error) | NotAnObject

  /** A compiled program: its normalised source, and the expression it evaluates. */
  datatype Program = Program(source: string, expression: Expr)

  function NameOf(option: OptionName): (name: string)
    ensures name != ""
  {
    match option case ReasoningLevel => "reasoningLevel" case MaxOutputTokens => "maxOutputTokens"
  }

  // ---------- what compiling gives, without caches

  function TrimStart(s: string): (r: string)
    ensures r == "" || !IsSpace(r[0])
  {
    if s != "" && IsSpace(s[0]) then TrimStart(s[1..]) else s
  }

  function TrimEnd(s: string): (r: string)
    ensures r <= s && (r == "" || !IsSpace(r[|r| - 1]))
    ensures forall k :: |r| <= k < |s| ==> IsSpace(s[k])
  {
    if s != "" && IsSpace(s[|s| - 1]) then TrimEnd(s[..|s| - 1]) else s
  }

  function Trim(s: string): string {
    TrimEnd(TrimStart(s))
  }

  function GrammarFor(option: OptionName): Grammar.Grammar {
    Grammar.Grammar(NameOf(option), Evaluator.SafeLexeme, false)
  }

  function Parsed(source: string, option: OptionName): (r: Result<Expr, CompileError>)
    ensures r.Ok? ==> Grammar.WellBuilt(Evaluator.SafeLexeme, r.value)
  {
    var spans := TokensFrom(source, 0);
    if spans.Err? then Err(BadToken(spans.error))
    else
      var parsed := Grammar.Parse(GrammarFor(option), TokensOf(spans.value));
      if parsed.Err? then Err(BadSyntax(parsed.error)) else Ok(parsed.value)
  }

  function Compiled(source: string, option: OptionName): (r: Result<Program, CompileError>)
    ensures r.Ok? ==> Grammar.WellBuilt(Evaluator.SafeLexeme, r.value.expression)
  {
    if Trim(source) == "" then Err(EmptySource)
    else
      var parsed := Parsed(Trim(source), option);
      if parsed.Err? then Err(parsed.error) else Ok(Program(Trim(source), parsed.value))
  }

  function CompiledMap(source: string, option: OptionName): (r: Result<Program, CompileError>)
    ensures r.Ok? ==> Evaluator.AssertsObjectResult(r.value.expression) && r == Compiled(source, option)
  {
    var program := Compiled(source, option);
    if program.Ok? && !Evaluator.AssertsObjectResult(program.value.expression) then Err(NotAnObjectExpression)
    else program
  }

  /** A compiled option map, with the check of its result that is made each time. */
  function EvaluateMap(program: Program, input: Json): (r: Result<Json, EvaluateError>)
    ensures r.Ok? ==> r.value.JObject?
  {
    var result := Evaluator.EvaluateRestrictedCel(program.expression, input);
    if result.Err? then Err(Failed(result.error))
    else if !result.value.JObject? then Err(NotAnObject)
    else Ok(result.value)
  }

  /** What the compiler accepts never fails the check of its result, and gives JSON-safe numbers only. */
  lemma {:induction false} CompiledMapsGiveObjects(source: string, option: OptionName, input: Json)
    requires CompiledMap(source, option).Ok?
    ensures var r := EvaluateMap(CompiledMap(source, option).value, input);
            && r != Err(NotAnObject)
            && (r.Ok? ==> r.value.JObject? && Evaluator.AllSafe(r.value))
  {
    var e := CompiledMap(source, option).value.expression;
    Evaluator.StaticCheckIsSound(e, input);
    if Evaluator.EvaluateRestrictedCel(e, input).Ok? {
      Evaluator.ResultIsSafe(e, input);
    }
  }

  /** A map is evaluated on a text or a JSON-safe number, on nothing else, and gives the object it evaluates to. */
  lemma {:induction false} MapIsEvaluated(program: Program, input: Json)
    ensures input.JString? || (input.JNumber? && -9007199254740991.0 <= input.number <= 9007199254740991.0) ==>
              var value := Evaluator.Evaluate(program.expression, input);
              EvaluateMap(program, input) == if value.Err? then Err(Failed(value.error))
                                             else if value.value.JObject? then Ok(value.value) else Err(NotAnObject)
    ensures input.JNumber? && !(-9007199254740991.0 <= input.number <= 9007199254740991.0) ==>
              EvaluateMap(program, input) == Err(Failed(Evaluator.NotJsonSafe))
    ensures !input.JString? && !input.JNumber? ==>
              EvaluateMap(program, input) == Err(Failed(Evaluator.InputNotAllowed))
  {
    hide Evaluator.Evaluate;
  }

  // ---------- the caches

  function CacheKey(source: string, option: OptionName): string {
    NameOf(option) + ['\0'] + source
  }

  /** No two pairs of source and option share a key. */
  lemma {:induction false} CacheKeyIsInjective(source: string, option: OptionName, other: string,
                                               otherOption: OptionName)
    ensures CacheKey(source, option) == CacheKey(other, otherOption) <==> source == other && option == otherOption
  {
    var key, otherKey := CacheKey(source, option), CacheKey(other, otherOption);
    assert key[0] == NameOf(option)[0] && otherKey[0] == NameOf(otherOption)[0];
    assert key[|NameOf(option)| + 1..] == source && otherKey[|NameOf(otherOption)| + 1..] == other;
  }

  class Compiler {
    var programCache: map<string, Program>
    var optionMapCache: map<string, Program>
    var expressionCache: map<string, Expr>

    ghost predicate Valid()
      reads this
    {
      && (forall source, option :: CacheKey(source, option) in expressionCache ==>
            Parsed(source, option) == Ok(expressionCache[CacheKey(source, option)]))
      && (forall source, option :: CacheKey(source, option) in programCache ==>
            IsProgram(programCache[CacheKey(source, option)], source, option))
      && (forall source, option :: CacheKey(source, option) in optionMapCache ==>
            && IsProgram(optionMapCache[CacheKey(source, option)], source, option)
            && Evaluator.AssertsObjectResult(optionMapCache[CacheKey(source, option)].expression))
    }

    static ghost predicate IsProgram(program: Program, source: string, option: OptionName) {
      program.source == source && Parsed(source, option) == Ok(program.expression)
    }

    constructor ()
      ensures Valid() && programCache == map[] && optionMapCache == map[] && expressionCache == map[]
    {
      programCache, optionMapCache, expressionCache := map[], map[], map[];
    }

    method ParseExpression(source: string, option: OptionName) returns (r: Result<Expr, CompileError>)
      requires Valid()
      modifies this`expressionCache
      ensures Valid() && r == Parsed(source, option)
      ensures r.Ok? ==> CacheKey(source, option) in expressionCache
      ensures expressionCache
           == if r.Ok? then old(expressionCache)[CacheKey(source, option) := r.value] else old(expressionCache)
    {
      var key := CacheKey(source, option);
      if key in expressionCache {
        assert expressionCache == expressionCache[key := expressionCache[key]];
        return Ok(expressionCache[key]);
      }
      r := ParseText(source, option);
      if r.Ok? {
        KeysDiffer(source, option);
        expressionCache := expressionCache[key := r.value];
      }
    }

    static lemma {:induction false} KeysDiffer(source: string, option: OptionName)
      ensures forall other, otherOption :: CacheKey(other, otherOption) == CacheKey(source, option) ==>
                other == source && otherOption == option
    {
      forall other, otherOption | CacheKey(other, otherOption) == CacheKey(source, option)
        ensures other == source && otherOption == option
      {
        CacheKeyIsInjective(other, otherOption, source, option);
      }
    }

    /** Compiling with the caches is compiling without them. */
    method CompileRestrictedCel(source: string, option: OptionName) returns (r: Result<Program, CompileError>)
      requires Valid()
      modifies this
      ensures Valid() && r == Compiled(source, option)
      ensures optionMapCache == old(optionMapCache)
      ensures programCache
           == if r.Ok? then old(programCache)[CacheKey(Trim(source), option) := r.value] else old(programCache)
    {
      var normalizedSource := Trim(source);
      if normalizedSource == "" {
        return Err(EmptySource);
      }
      var key := CacheKey(normalizedSource, option);
      if key in programCache {
        assert programCache == programCache[key := programCache[key]];
        return Ok(programCache[key]);
      }
      var expression := ParseExpression(normalizedSource, option);
      if expression.Err? {
        return Err(expression.error);
      }
      KeysDiffer(normalizedSource, option);
      programCache := programCache[key := Program(normalizedSource, expression.value)];
      return Ok(Program(normalizedSource, expression.value));
    }

    method CompileModelOptionMap(source: string, option: OptionName) returns (r: Result<Program, CompileError>)
      requires Valid()
      modifies this
      ensures Valid() && r == CompiledMap(source, option)
      ensures programCache == old(programCache)
      ensures optionMapCache
           == if r.Ok? then old(optionMapCache)[CacheKey(Trim(source), option) := r.value] else old(optionMapCache)
    {
      hide Trim, Parsed, CacheKey;
      var normalizedSource := Trim(source);
      if normalizedSource == "" {
        return Err(EmptySource);
      }
      var key := CacheKey(normalizedSource, option);
      if key in optionMapCache {
        assert optionMapCache == optionMapCache[key := optionMapCache[key]];
        return Ok(optionMapCache[key]);
      }
      var expression := ParseExpression(normalizedSource, option);
      if expression.Err? {
        return Err(expression.error);
      }
      if !Evaluator.AssertsObjectResult(expression.value) {
        return Err(NotAnObjectExpression);
      }
      KeysDiffer(normalizedSource, option);
      optionMapCache := optionMapCache[key := Program(normalizedSource, expression.value)];
      return Ok(Program(normalizedSource, expression.value));
    }
  }

  /** Tokenizing and parsing: the token list ends with the end token, as the parser demands. */
  method ParseText(source: string, option: OptionName) returns (r: Result<Expr, CompileError>)
    ensures r == Parsed(source, option)
  {
    var spans := Tokenize(source);
    if spans.Err? {
      return Err(BadToken(spans.error));
    }
    var tokens := TokensOf(spans.value);
    TokensAreEndTerminated(source);
    var parser := new Parser(tokens, NameOf(option), Evaluator.SafeLexeme);
    var parsed := parser.Parse();
    return if parsed.Err? then Err(BadSyntax(parsed.error)) else Ok(parsed.value);
  }

  lemma {:induction false} TokensAreEndTerminated(source: string)
    requires TokensFrom(source, 0).Ok?
    ensures EndTerminated(TokensOf(TokensFrom(source, 0).value))
  {
    SpansTile(source, 0);
    var spans := TokensFrom(source, 0).value;
    forall i | 0 <= i < |spans| - 1
      ensures TokensOf(spans)[i].kind != Eof
    {
      assert Proper(source, 0, spans[i]);
    }
  }
}
