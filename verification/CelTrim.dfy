/** Trimming a source text changes none of its tokens, so an expression printed as source compiles back to itself. */
module CelTrim {
  import opened CelSyntax
  import opened CelTokenizer
  import opened CelCompiler
  import opened CelWindow
  import Text = CelText
  import Lexemes = CelLexemes
  import RoundTrips = CelRoundTrip
  import Evaluator = CelEvaluator

  lemma {:induction false} TrimStartSkips(s: string) returns (d: nat)
    ensures d <= |s| && TrimStart(s) == s[d..] && forall k :: 0 <= k < d ==> IsSpace(s[k])
  {
    if s != "" && IsSpace(s[0]) {
      var more := TrimStartSkips(s[1..]);
      forall k | 0 <= k < more + 1
        ensures IsSpace(s[k])
      {
        assert k > 0 ==> s[1..][k - 1] == s[k];
      }
      return more + 1;
    }
    return 0;
  }

  /** Whatever can be tokenized has the same tokens once it is trimmed. */
  lemma {:induction false} TrimKeepsTokens(s: string)
    ensures var r, r' := TokensFrom(s, 0), TokensFrom(Trim(s), 0);
            r.Ok? ==> r'.Ok? && TokensOf(r'.value) == TokensOf(r.value)
  {
    var d := TrimStartSkips(s);
    var n := d + |Trim(s)|;
    SpacesAreSkipped(s, d, 0);
    forall k | n <= k < |s|
      ensures IsSpace(s[k])
    {
      assert TrimStart(s)[k - d] == s[k];
    }
    assert Window(s, d, n, Trim(s));
    TokensInWindow(s, d, n, Trim(s), 0);
  }

  /** Trimming twice is trimming once, so a program's own source compiles to that program. */
  lemma {:induction false} SourceOfAProgram(source: string, option: OptionName)
    requires Compiled(source, option).Ok?
    ensures Compiled(Compiled(source, option).value.source, option) == Compiled(source, option)
  {
    assert Trim(Trim(source)) == Trim(source);
  }

  /**
   An expression written as source text compiles to itself exactly when it is faithful, and the program then gives, for
   every input, what the expression gives.
   */
  lemma {:induction false} CompiledSourceMeansTheSame(option: OptionName, e: Expr)
    requires Text.WellSpelled(e)
    ensures var r := Compiled(Text.Source(NameOf(option), e), option);
            && (r.Ok? && r.value.expression == e <==> RoundTrips.Faithful(GrammarFor(option), e))
            && (RoundTrips.Faithful(GrammarFor(option), e) ==>
                  forall input :: Evaluator.EvaluateRestrictedCel(r.value.expression, input)
                               == Evaluator.EvaluateRestrictedCel(e, input))
  {
    var source := Text.Source(NameOf(option), e);
    NamesAreNames(option);
    hide Text.Source, Trim, RoundTrips.Print, RoundTrips.Faithful, Text.WellSpelled, TokensFrom, Lexemes.IsName;
    Text.SourceRoundTrip(GrammarFor(option), e);
    TrimKeepsTokens(source);
    OnlySpace("", 0);
  }

  lemma {:induction false} NamesAreNames(option: OptionName)
    ensures Lexemes.IsName(NameOf(option))
  {
    NameToTheEnd(NameOf(option), 1);
  }

  lemma {:induction false} NameToTheEnd(name: string, i: nat)
    requires i <= |name| && forall k :: i <= k < |name| ==> IsNamePart(name[k])
    ensures NameEnd(name, i) == |name|
    decreases |name| - i
  {
    if i < |name| {
      NameToTheEnd(name, i + 1);
    }
  }
}
