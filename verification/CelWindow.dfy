/**
 Reading a part of a source text instead of the whole. Where what follows the part is white space, every lexeme that
 begins in the part is read alike in both: it ends inside the part, because no lexeme ends with white space, and white
 space can neither continue a name or a number nor make one operator of two. `Window` is the part; one lemma for each
 kind of lexeme says where its reading ends in the part and in the whole, and the last ones put them together token by
 token.
 Errors may differ: a string literal left open ends sooner in the part, and an escape may be cut in two.
 */
module CelWindow {
  import opened Wrappers
  import opened CelSyntax
  import opened CelTokenizer

  /** `t` is `s` from `d` up to `n`, and what follows in `s` is white space. */
  ghost predicate Window(s: string, d: nat, n: nat, t: string) {
    d <= n <= |s| && t == s[d..n] && forall k :: n <= k < |s| ==> IsSpace(s[k])
  }

  lemma {:induction false} DigitsInWindow(s: string, d: nat, n: nat, t: string, i: nat)
    requires Window(s, d, n, t) && i <= |t|
    ensures DigitsEnd(s, i + d) == DigitsEnd(t, i) + d
    decreases |t| - i
  {
    if i < |t| {
      DigitsInWindow(s, d, n, t, i + 1);
    }
  }

  lemma {:induction false} NameInWindow(s: string, d: nat, n: nat, t: string, i: nat)
    requires Window(s, d, n, t) && i <= |t|
    ensures NameEnd(s, i + d) == NameEnd(t, i) + d
    decreases |t| - i
  {
    if i < |t| {
      NameInWindow(s, d, n, t, i + 1);
    }
  }

  lemma {:induction false} NumberInWindow(s: string, d: nat, n: nat, t: string, i: nat)
    requires Window(s, d, n, t) && i < |t|
    ensures NumberEnd(s, i + d) == NumberEnd(t, i) + d
  {
    IntegerInWindow(s, d, n, t, i);
    FractionInWindow(s, d, n, t, IntegerEnd(t, i));
    ExponentInWindow(s, d, n, t, FractionEnd(t, IntegerEnd(t, i)));
    hide IntegerEnd, FractionEnd, ExponentEnd, IsSpace;
  }

  lemma {:induction false} IntegerInWindow(s: string, d: nat, n: nat, t: string, i: nat)
    requires Window(s, d, n, t) && i < |t|
    ensures IntegerEnd(s, i + d) == IntegerEnd(t, i) + d
  {
    DigitsInWindow(s, d, n, t, i + 1);
    hide DigitsEnd, IsSpace;
  }

  lemma {:induction false} FractionInWindow(s: string, d: nat, n: nat, t: string, i: nat)
    requires Window(s, d, n, t) && i <= |t|
    ensures FractionEnd(s, i + d) == FractionEnd(t, i) + d
  {
    if i + 2 <= |t| {
      DigitsInWindow(s, d, n, t, i + 2);
    }
  }

  lemma {:induction false} ExponentInWindow(s: string, d: nat, n: nat, t: string, i: nat)
    requires Window(s, d, n, t) && i <= |t|
    ensures ExponentEnd(s, i + d) == ExponentEnd(t, i) + d
  {
    if i < |t| && ExponentStart(t, i) + 1 <= |t| {
      DigitsInWindow(s, d, n, t, ExponentStart(t, i) + 1);
    }
  }

  lemma {:induction false} EndsWithQuote(s: string, i: nat, quote: char)
    requires i <= |s|
    ensures var r := ReadString(s, i, quote); r.Ok? ==> s[r.value.1 - 1] == quote
    decreases |s| - i
  {
    if i < |s| && s[i] != quote {
      EndsWithQuote(s, i + 1, quote);
      if i + 1 < |s| {
        EndsWithQuote(s, i + 2, quote);
      }
      if i + 6 <= |s| {
        EndsWithQuote(s, i + 6, quote);
      }
    }
  }

  ghost predicate SameString(s: string, d: nat, t: string, i: nat, quote: char)
    requires i <= |t| && i + d <= |s|
  {
    var r := ReadString(s, i + d, quote);
    r.Ok? ==> r.value.1 >= d && ReadString(t, i, quote) == Ok((r.value.0, r.value.1 - d))
  }

  lemma {:induction false} StringInWindow(s: string, d: nat, n: nat, t: string, i: nat, quote: char)
    requires Window(s, d, n, t) && i <= |t| && !IsSpace(quote)
    ensures SameString(s, d, t, i, quote)
    decreases |t| - i
  {
    EndsWithQuote(s, i + d, quote);
    hide IsSpace, EscapeOf;
    if ReadString(s, i + d, quote).Ok? {
      assert i < |t| && t[i] == s[i + d];
      if t[i] != quote {
        StringInWindow(s, d, n, t, i + 1, quote);
        if t[i] == '\\' {
          assert i + 2 <= |t|;
          StringInWindow(s, d, n, t, i + 2, quote);
          if i + 6 <= |t| {
            StringInWindow(s, d, n, t, i + 6, quote);
          }
          hide *;
          EscapeInWindow(s, d, n, t, i, quote);
        }
      }
    }
  }

  lemma {:induction false} EscapeInWindow(s: string, d: nat, n: nat, t: string, i: nat, quote: char)
    requires Window(s, d, n, t) && i + 2 <= |t| && t[i] == '\\' != quote && !IsSpace(quote)
    requires SameString(s, d, t, i + 2, quote) && (i + 6 <= |t| ==> SameString(s, d, t, i + 6, quote))
    ensures SameString(s, d, t, i, quote)
  {
    assert s[i + d] == t[i] && s[i + d + 1] == t[i + 1];
    if EscapeOf(t[i + 1]) == Unicode && ReadString(s, i + d, quote).Ok? {
      EndsWithQuote(s, i + d + 6, quote);
      assert i + 6 <= |t|;
      hide EscapeOf, IsSpace;
      UnicodeInWindow(s, d, n, t, i, quote);
    }
  }

  lemma {:induction false} UnicodeInWindow(s: string, d: nat, n: nat, t: string, i: nat, quote: char)
    requires Window(s, d, n, t) && i + 6 <= |t| && t[i] == '\\' != quote && EscapeOf(t[i + 1]) == Unicode
    requires SameString(s, d, t, i + 6, quote)
    ensures SameString(s, d, t, i, quote)
  {
    forall k | i <= k < i + 6
      ensures s[k + d] == t[k]
    {
    }
    hide IsHexDigit, HexValue;
    if ReadString(s, i + d, quote).Ok? {
      forall k | i + 2 <= k < i + 6
        ensures IsHexDigit(t[k])
      {
        assert IsHexDigit(s[k + d]);
      }
    }
  }

  ghost predicate SameToken(s: string, d: nat, t: string, i: nat)
    requires i < |t| && i + d < |s|
  {
    var r := TokenAt(s, i + d);
    r.Ok? ==> r.value.end >= d && TokenAt(t, i) == Ok(Span(r.value.token, i, r.value.end - d))
  }

  lemma {:induction false} TokenInWindow(s: string, d: nat, n: nat, t: string, i: nat)
    requires Window(s, d, n, t) && i < |t|
    ensures SameToken(s, d, t, i)
  {
    var c := t[i];
    hide *;
    if c == '\'' || c == '\"' {
      TextInWindow(s, d, n, t, i);
    } else if IsDigit(c) {
      NumeralInWindow(s, d, n, t, i);
    } else if IsNameStart(c) {
      WordInWindow(s, d, n, t, i);
    } else {
      SymbolInWindow(s, d, n, t, i);
    }
  }

  lemma {:induction false} TextInWindow(s: string, d: nat, n: nat, t: string, i: nat)
    requires Window(s, d, n, t) && i < |t| && (t[i] == '\'' || t[i] == '\"')
    ensures SameToken(s, d, t, i)
  {
    hide ReadString;
    StringInWindow(s, d, n, t, i + 1, t[i]);
  }

  lemma {:induction false} NumeralInWindow(s: string, d: nat, n: nat, t: string, i: nat)
    requires Window(s, d, n, t) && i < |t| && t[i] != '\'' && t[i] != '\"' && IsDigit(t[i])
    ensures SameToken(s, d, t, i)
  {
    hide ReadString, NumberEnd;
    NumberInWindow(s, d, n, t, i);
    SameSlice(s, d, n, t, i, NumberEnd(t, i));
  }

  lemma {:induction false} WordInWindow(s: string, d: nat, n: nat, t: string, i: nat)
    requires Window(s, d, n, t) && i < |t| && t[i] != '\'' && t[i] != '\"' && !IsDigit(t[i]) && IsNameStart(t[i])
    ensures SameToken(s, d, t, i)
  {
    hide ReadString, NameEnd;
    NameInWindow(s, d, n, t, i + 1);
    SameSlice(s, d, n, t, i, NameEnd(t, i + 1));
  }

  lemma {:induction false} SameSlice(s: string, d: nat, n: nat, t: string, i: nat, end: nat)
    requires Window(s, d, n, t) && i <= end <= |t|
    ensures s[i + d..end + d] == t[i..end]
  {
    var a, b := s[i + d..end + d], t[i..end];
    forall k | 0 <= k < |a|
      ensures a[k] == b[k]
    {
      assert b[k] == t[i + k] == s[d..n][i + k];
    }
    assert a == b;
  }

  lemma {:induction false} SymbolInWindow(s: string, d: nat, n: nat, t: string, i: nat)
    requires Window(s, d, n, t) && i < |t|
    requires var c := t[i]; c != '\'' && c != '\"' && !IsDigit(c) && !IsNameStart(c)
    ensures SameToken(s, d, t, i)
  {
    hide ReadString, IsDigit, IsNameStart;
    if i + 2 <= |t| {
      SameSlice(s, d, n, t, i, i + 2);
    } else if i + d + 2 <= |s| {
      assert IsSpace(s[i + d + 1]);
      assert s[i + d..i + d + 2][1] == s[i + d + 1];
    }
  }

  ghost predicate SameTokens(s: string, d: nat, t: string, i: nat)
    requires i <= |t| && i + d <= |s|
  {
    var r, r' := TokensFrom(s, i + d), TokensFrom(t, i);
    r.Ok? ==> r'.Ok? && TokensOf(r'.value) == TokensOf(r.value)
  }

  lemma {:induction false} TokensInWindow(s: string, d: nat, n: nat, t: string, i: nat)
    requires Window(s, d, n, t) && i <= |t|
    ensures SameTokens(s, d, t, i)
    decreases |t| - i
  {
    hide TokenAt, IsSpace;
    if i == |t| {
      OnlySpace(s, i + d);
    } else if IsSpace(t[i]) {
      TokensInWindow(s, d, n, t, i + 1);
    } else if TokensFrom(s, i + d).Ok? {
      TokenInWindow(s, d, n, t, i);
      var first := TokenAt(t, i).value;
      TokensInWindow(s, d, n, t, first.end);
      hide TokensOf;
      FirstThenRest(s, i + d, Span(first.token, i + d, first.end + d));
      FirstThenRest(t, i, first);
    }
  }

  lemma {:induction false} OnlySpace(s: string, i: nat)
    requires i <= |s| && forall k :: i <= k < |s| ==> IsSpace(s[k])
    ensures TokensFrom(s, i) == Ok([Span(END, |s|, |s|)])
    decreases |s| - i
  {
    if i < |s| {
      OnlySpace(s, i + 1);
    }
  }

  lemma {:induction false} FirstThenRest(s: string, i: nat, first: Span)
    requires i < |s| && !IsSpace(s[i]) && TokenAt(s, i) == Ok(first)
    ensures var r, rest := TokensFrom(s, i), TokensFrom(s, first.end);
            && (r.Ok? <==> rest.Ok?)
            && (r.Ok? ==> TokensOf(r.value) == [first.token] + TokensOf(rest.value))
  {
    hide TokenAt, IsSpace;
  }
}
