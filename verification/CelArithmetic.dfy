/**
 What numbers, numerals and the operators on them mean, said without the evaluator's own formulas: a difference is what
 added to the right operand gives the left one, a numeral is the number its digits write down.
 */
module CelArithmetic {
  import opened Wrappers
  import opened Json
  import opened CelSyntax
  import opened CelTokenizer
  import opened CelEvaluator

  const ARITHMETIC := {Add, Sub, Mul, Div, Mod}

  predicate Safe(x: real) {
    -9007199254740991.0 <= x <= 9007199254740991.0
  }

  ghost predicate GivesNumber(e: Expr, input: Json, x: real) {
    Evaluate(e, input) == Ok(JNumber(x))
  }

  // ---------- the operators on two numbers

  function Times(b: real, whole: int): real {
    b * whole as real
  }

  /**
   What remains of `a` when a whole number of `b` has been taken away: smaller than `b` in size, and not of the other
   sign than `a`.
   */
  ghost predicate Remains(a: real, b: real, x: real) {
    && (exists whole: int :: a == Times(b, whole) + x)
    && Abs(x) < Abs(b) && (a >= 0.0 ==> x >= 0.0) && (a <= 0.0 ==> x <= 0.0)
  }

  /** Each operator gives the one number that it should, exactly when that number is JSON-safe. */
  lemma {:induction false} ArithmeticIsExact(left: Expr, right: Expr, input: Json, a: real, b: real, x: real)
    requires GivesNumber(left, input, a) && GivesNumber(right, input, b) && Safe(b)
    ensures GivesNumber(Binary(Add, left, right), input, x) <==> Safe(x) && x == a + b
    ensures GivesNumber(Binary(Sub, left, right), input, x) <==> Safe(x) && x + b == a
    ensures GivesNumber(Binary(Mul, left, right), input, x) <==> Safe(x) && x == a * b
    ensures GivesNumber(Binary(Div, left, right), input, x) <==> Safe(x) && b != 0.0 && x * b == a
    ensures GivesNumber(Binary(Mod, left, right), input, x) <==> Safe(x) && b != 0.0 && Remains(a, b, x)
  {
    AppliesToBoth(left, right, input, a, b);
    SumsAndProducts(a, b, x);
    QuotientsAndRemainders(a, b, x);
    hide Evaluate, NumericBinary, Remains, Safe;
  }

  lemma {:induction false} SumsAndProducts(a: real, b: real, x: real)
    ensures NumericBinary(Add, a, b) == Ok(JNumber(x)) <==> Safe(x) && x == a + b
    ensures NumericBinary(Sub, a, b) == Ok(JNumber(x)) <==> Safe(x) && x + b == a
    ensures NumericBinary(Mul, a, b) == Ok(JNumber(x)) <==> Safe(x) && x == a * b
  {
  }

  lemma {:induction false} QuotientsAndRemainders(a: real, b: real, x: real)
    requires Safe(b)
    ensures NumericBinary(Div, a, b) == Ok(JNumber(x)) <==> Safe(x) && b != 0.0 && x * b == a
    ensures NumericBinary(Mod, a, b) == Ok(JNumber(x)) <==> Safe(x) && b != 0.0 && Remains(a, b, x)
  {
    if b != 0.0 {
      QuotientIsExact(a, b, x);
      RemainderIsTheOne(a, b, x);
    }
    hide Remainder, Remains;
  }

  /** Nothing else can come of two numbers: a number, or a refusal of the number it would be. */
  lemma {:induction false} ArithmeticGivesANumber(op: BinaryOp, left: Expr, right: Expr, input: Json, a: real, b: real)
    requires op in ARITHMETIC && GivesNumber(left, input, a) && GivesNumber(right, input, b)
    ensures var r := Evaluate(Binary(op, left, right), input);
            r == Err(NotJsonSafe) || (r.Ok? && r.value.JNumber? && Safe(r.value.number))
  {
    AppliesToBoth(left, right, input, a, b);
    hide Evaluate, Remainder;
  }

  lemma {:induction false} AppliesToBoth(left: Expr, right: Expr, input: Json, a: real, b: real)
    requires GivesNumber(left, input, a) && GivesNumber(right, input, b)
    ensures forall op :: op in ARITHMETIC ==> Evaluate(Binary(op, left, right), input) == NumericBinary(op, a, b)
  {
    hide Evaluate, NumericBinary, GivesNumber;
    forall op | op in ARITHMETIC
      ensures Evaluate(Binary(op, left, right), input) == NumericBinary(op, a, b)
    {
      AppliesTo(op, left, right, input, a, b);
    }
  }

  lemma {:induction false} AppliesTo(op: BinaryOp, left: Expr, right: Expr, input: Json, a: real, b: real)
    requires op in ARITHMETIC && GivesNumber(left, input, a) && GivesNumber(right, input, b)
    ensures Evaluate(Binary(op, left, right), input) == NumericBinary(op, a, b)
  {
    hide NumericBinary, JsonEquals, CompareValue, LiteralValue, UnaryValue;
  }

  lemma {:induction false} QuotientIsExact(a: real, b: real, x: real)
    requires b != 0.0
    ensures x == a / b <==> x * b == a
  {
    assert (a / b) * b == a;
    if x * b == a {
      assert (x * b) / b == x;
    }
  }

  lemma {:induction false} RemainderIsTheOne(a: real, b: real, x: real)
    requires b != 0.0 && Safe(b)
    ensures x == Remainder(a, b) <==> Remains(a, b, x)
  {
    var whole := RemainderIsExact(a, b);
    var r := Remainder(a, b);
    hide Remainder;
    assert a == Times(b, whole) + r;
    if Remains(a, b, x) {
      var other: int :| a == Times(b, other) + x;
      OneRemainder(a, b, whole, r, other, x);
    }
  }

  lemma {:induction false} OneRemainder(a: real, b: real, m: int, x: real, n: int, y: real)
    requires b != 0.0 && a == b * m as real + x && a == b * n as real + y
    requires Abs(x) < Abs(b) && (a >= 0.0 ==> x >= 0.0) && (a <= 0.0 ==> x <= 0.0)
    requires Abs(y) < Abs(b) && (a >= 0.0 ==> y >= 0.0) && (a <= 0.0 ==> y <= 0.0)
    ensures x == y
  {
    var d := (m - n) as real;
    assert d == m as real - n as real;
    Distributes(b, m as real, n as real);
    assert b * d == y - x;
    if m != n {
      assert d >= 1.0 || d <= -1.0;
      AtLeast(b, d);
      assert false;
    }
  }

  lemma {:induction false} AtLeast(b: real, d: real)
    requires b != 0.0 && (d >= 1.0 || d <= -1.0)
    ensures Abs(b * d) >= Abs(b)
  {
    Distributes(b, d, 1.0);
    Distributes(b, d, -1.0);
    SignOfProduct(b, d - 1.0);
    SignOfProduct(b, d + 1.0);
  }

  /** A sign before a number gives its opposite, or the number itself. */
  lemma {:induction false} SignsAreExact(operand: Expr, input: Json, a: real, x: real)
    requires GivesNumber(operand, input, a)
    ensures GivesNumber(Unary(Minus, operand), input, x) <==> Safe(x) && x + a == 0.0
    ensures GivesNumber(Unary(Plus, operand), input, x) <==> Safe(x) && x == a
  {
  }

  // ---------- the operators on other values

  /** Two texts are put one after the other. */
  lemma {:induction false} TextsAreJoined(left: Expr, right: Expr, input: Json, a: string, b: string, t: string)
    requires Evaluate(left, input) == Ok(JString(a)) && Evaluate(right, input) == Ok(JString(b))
    ensures Evaluate(Binary(Add, left, right), input) == Ok(JString(t))
       <==> a <= t && t[|a|..] == b
  {
    hide JsonEquals, Compare, NumericBinary;
    assert Evaluate(Binary(Add, left, right), input) == Ok(JString(a + b));
    hide Evaluate;
    assert (a + b)[|a|..] == b && (a + b)[..|a|] == a;
    assert a <= t && t[|a|..] == b ==> t == a + b;
  }

  /** Every other pair of values is refused by the arithmetic operators, and only numbers have signs. */
  lemma {:induction false} OnlyNumbersCount(op: BinaryOp, left: Expr, right: Expr, input: Json, a: Json, b: Json)
    requires op in ARITHMETIC && Evaluate(left, input) == Ok(a) && Evaluate(right, input) == Ok(b)
    requires !(a.JNumber? && b.JNumber?) && !(op == Add && a.JString? && b.JString?)
    ensures Evaluate(Binary(op, left, right), input) == Err(NumberRequired)
    ensures !a.JNumber? ==> Evaluate(Unary(Minus, left), input) == Evaluate(Unary(Plus, left), input)
                         == Err(NumberRequired)
  {
  }

  /** An error of the left operand comes first; one of the right operand stands unless it is not looked at. */
  lemma {:induction false} FailuresPass(op: BinaryOp, left: Expr, right: Expr, input: Json)
    ensures Evaluate(left, input).Err? ==> Evaluate(Binary(op, left, right), input) == Evaluate(left, input)
    ensures Evaluate(left, input).Ok? && Evaluate(right, input).Err? && op != And && op != Or ==>
              Evaluate(Binary(op, left, right), input) == Evaluate(right, input)
    ensures forall sign :: Evaluate(left, input).Err? ==> Evaluate(Unary(sign, left), input) == Evaluate(left, input)
  {
  }

  /** One text comes before another: they are the same up to a place where it ends, or has the smaller character. */
  ghost predicate Before(a: string, b: string) {
    exists k: nat :: k <= |a| && k < |b| && a[..k] == b[..k] && (k == |a| || a[k] < b[k])
  }

  /** Comparisons of numbers are those of the numbers, and comparisons of texts those of the dictionary. */
  lemma {:induction false} ComparisonsAreTheOrder(left: Expr, right: Expr, input: Json, a: Json, b: Json)
    requires Evaluate(left, input) == Ok(a) && Evaluate(right, input) == Ok(b)
    ensures a.JNumber? && b.JNumber? ==>
              && Gives(Lt, left, right, input, a.number < b.number)
              && Gives(Le, left, right, input, a.number <= b.number)
              && Gives(Gt, left, right, input, b.number < a.number)
              && Gives(Ge, left, right, input, b.number <= a.number)
    ensures a.JString? && b.JString? ==>
              && Gives(Lt, left, right, input, Before(a.text, b.text))
              && Gives(Le, left, right, input, !Before(b.text, a.text))
              && Gives(Gt, left, right, input, Before(b.text, a.text))
              && Gives(Ge, left, right, input, !Before(a.text, b.text))
    ensures !(a.JNumber? && b.JNumber?) && !(a.JString? && b.JString?) ==>
              forall op :: op in {Lt, Le, Gt, Ge} ==> Evaluate(Binary(op, left, right), input) == Err(NotComparable)
  {
    ComparesBoth(left, right, input, a, b);
    if a.JNumber? && b.JNumber? {
      NumbersCompare(a, b);
    } else if a.JString? && b.JString? {
      TextsCompare(a, b);
    }
    hide Gives, Compares, Evaluate;
  }

  ghost predicate Compares(op: BinaryOp, a: Json, b: Json, truth: bool)
    requires op in {Lt, Le, Gt, Ge}
  {
    CompareValue(op, a, b) == Ok(JBool(truth))
  }

  lemma {:induction false} NumbersCompare(a: Json, b: Json)
    requires a.JNumber? && b.JNumber?
    ensures Compares(Lt, a, b, a.number < b.number) && Compares(Le, a, b, a.number <= b.number)
    ensures Compares(Gt, a, b, b.number < a.number) && Compares(Ge, a, b, b.number <= a.number)
  {
  }

  lemma {:induction false} TextsCompare(a: Json, b: Json)
    requires a.JString? && b.JString?
    ensures Compares(Lt, a, b, Before(a.text, b.text)) && Compares(Le, a, b, !Before(b.text, a.text))
    ensures Compares(Gt, a, b, Before(b.text, a.text)) && Compares(Ge, a, b, !Before(a.text, b.text))
  {
    CompareIsBefore(a.text, b.text);
    CompareIsBefore(b.text, a.text);
    StringOrder(a.text, b.text);
    hide CompareStrings, Before;
  }

  ghost predicate Gives(op: BinaryOp, left: Expr, right: Expr, input: Json, truth: bool) {
    Evaluate(Binary(op, left, right), input) == Ok(JBool(truth))
  }

  lemma {:induction false} ComparesBoth(left: Expr, right: Expr, input: Json, a: Json, b: Json)
    requires Evaluate(left, input) == Ok(a) && Evaluate(right, input) == Ok(b)
    ensures forall op, truth :: op in {Lt, Le, Gt, Ge} ==>
              (Gives(op, left, right, input, truth) <==> Compares(op, a, b, truth))
    ensures !Comparable(a, b) ==>
              forall op :: op in {Lt, Le, Gt, Ge} ==> Evaluate(Binary(op, left, right), input) == Err(NotComparable)
  {
    hide CompareStrings, CompareNumbers, NumericBinary, JsonEquals;
  }

  /** Two values of any kind are equal exactly when they are the same, and unequal otherwise. */
  lemma {:induction false} EqualityIsDecided(left: Expr, right: Expr, input: Json, a: Json, b: Json)
    requires Evaluate(left, input) == Ok(a) && Evaluate(right, input) == Ok(b)
    ensures Gives(Eq, left, right, input, a == b) && Gives(Ne, left, right, input, a != b)
  {
    JsonEqualsIsEquality(a, b);
    hide JsonEquals, CompareValue, NumericBinary;
  }

  lemma {:induction false} CompareIsBefore(a: string, b: string)
    ensures CompareStrings(a, b) < 0 <==> Before(a, b)
  {
    if a == "" || b == "" || a[0] != b[0] {
      FirstDecides(a, b);
    } else {
      CompareIsBefore(a[1..], b[1..]);
      hide Before;
      BeforeLater(a, b);
    }
  }

  /** Where the first characters differ, or a text is empty, they decide. */
  lemma {:induction false} FirstDecides(a: string, b: string)
    requires a == "" || b == "" || a[0] != b[0]
    ensures Before(a, b) <==> b != "" && (a == "" || a[0] < b[0])
  {
    if b != "" && (a == "" || a[0] < b[0]) {
      assert a[..0] == b[..0];
    }
    forall k: nat | 0 < k <= |a| && k < |b|
      ensures a[..k] != b[..k]
    {
      assert a[..k][0] != b[..k][0];
    }
  }

  /** Two texts with the same first character. */
  lemma {:induction false} BeforeLater(a: string, b: string)
    requires a != "" && b != "" && a[0] == b[0]
    ensures Before(a, b) <==> Before(a[1..], b[1..])
  {
    if Before(a[1..], b[1..]) {
      var k: nat :| k <= |a[1..]| && k < |b[1..]| && a[1..][..k] == b[1..][..k]
                    && (k == |a[1..]| || a[1..][k] < b[1..][k]);
      assert a[..k + 1] == [a[0]] + a[1..][..k] && b[..k + 1] == [b[0]] + b[1..][..k];
    }
    if Before(a, b) {
      var k: nat :| k <= |a| && k < |b| && a[..k] == b[..k] && (k == |a| || a[k] < b[k]);
      assert k > 0 && a[1..][..k - 1] == a[..k][1..] && b[1..][..k - 1] == b[..k][1..];
    }
  }

  // ---------- numerals

  function Ten(n: nat): (p: nat)
    ensures p >= 1
  {
    if n == 0 then 1 else 10 * Ten(n - 1)
  }

  /** A number below 10^width in exactly that many digits. */
  function Padded(n: nat, width: nat): (s: string)
    ensures |s| == width && forall i :: 0 <= i < |s| ==> IsDigit(s[i])
  {
    if width == 0 then "" else Padded(n / 10, width - 1) + [DigitOf(n % 10)]
  }

  lemma {:induction false} PaddedValue(n: nat, width: nat)
    requires n < Ten(width)
    ensures DigitsValue(Padded(n, width)) == n
  {
    hide DigitOf, HexValue;
    if width > 0 {
      PaddedValue(n / 10, width - 1);
      DigitsValueSnoc(Padded(n / 10, width - 1), DigitOf(n % 10));
    }
  }

  lemma {:induction false} PowersOfTen(n: nat)
    ensures PowerOfTen(n) == Ten(n) as real
  {
    if n > 0 {
      PowersOfTen(n - 1);
    }
  }

  datatype Exponent = NoExponent | Exponent(mark: char, sign: string, size: nat, width: nat)

  predicate ProperExponent(x: Exponent) {
    x.Exponent? ==> x.mark in {'e', 'E'} && x.sign in {"", "+", "-"} && x.width > 0 && x.size < Ten(x.width)
  }

  function Fraction(f: nat, k: nat): string {
    if k == 0 then "" else "." + Padded(f, k)
  }

  function Scale(x: Exponent): string {
    if x.NoExponent? then "" else [x.mark] + x.sign + Padded(x.size, x.width)
  }

  /** An integer part, `k` digits after the point, and an exponent. */
  function Numeral(n: nat, f: nat, k: nat, x: Exponent): string {
    Decimal(n) + Fraction(f, k) + Scale(x)
  }

  /** Digits go on until something else comes. */
  lemma {:induction false} DigitsStop(s: string, i: nat, end: nat)
    requires i <= end <= |s| && forall k :: i <= k < end ==> IsDigit(s[k])
    requires end == |s| || !IsDigit(s[end])
    ensures DigitsEnd(s, i) == end
    decreases end - i
  {
    if i < end {
      DigitsStop(s, i + 1, end);
    }
  }

  lemma {:induction false} IntegerPart(n: nat, rest: string)
    requires rest == "" || !IsDigit(rest[0])
    ensures IntegerEnd(Decimal(n) + rest, 0) == |Decimal(n)|
  {
    var d := Decimal(n);
    var s := d + rest;
    assert s[0] == d[0] && forall i :: 0 <= i < |d| ==> s[i] == d[i];
    assert rest != "" ==> s[|d|] == rest[0];
    DigitsStop(s, 1, |d|);
  }

  lemma {:induction false} FractionPart(before: string, f: nat, k: nat, rest: string)
    requires rest == "" || (!IsDigit(rest[0]) && rest[0] != '.')
    ensures var s := before + Fraction(f, k) + rest;
            FractionEnd(s, |before|) == |before| + |Fraction(f, k)|
  {
    hide *;
    FractionBegins(f, k);
    PaddedDigits(f, k);
    var s, i, fraction := before + Fraction(f, k) + rest, |before|, Fraction(f, k);
    if k > 0 {
      var digits := Padded(f, k);
      assert fraction == "." + digits;
      DigitsWithin(before + ".", digits, rest);
      assert s == before + "." + digits + rest && s[i] == '.';
      FractionEndsWith(s, i, i + 1 + k);
    } else {
      assert s == before + rest && (rest != "" ==> s[i] == rest[0]);
      NoFraction(s, i);
    }
  }

  lemma {:induction false} FractionEndsWith(s: string, i: nat, end: nat)
    requires i + 1 < |s| && s[i] == '.' && IsDigit(s[i + 1]) && DigitsEnd(s, i + 2) == end
    ensures FractionEnd(s, i) == end
  {
    hide DigitsEnd;
  }

  lemma {:induction false} NoFraction(s: string, i: nat)
    requires i <= |s| && (i < |s| ==> s[i] != '.')
    ensures FractionEnd(s, i) == i
  {
  }

  /** Digits in the middle of a text end where they end. */
  lemma {:induction false} DigitsWithin(before: string, digits: string, rest: string)
    requires digits != "" && forall j :: 0 <= j < |digits| ==> IsDigit(digits[j])
    requires rest == "" || !IsDigit(rest[0])
    ensures var s := before + digits + rest;
            && IsDigit(s[|before|])
            && DigitsEnd(s, |before|) == DigitsEnd(s, |before| + 1) == |before| + |digits|
  {
    var s, i := before + digits + rest, |before|;
    hide IsDigit;
    forall j | i <= j < i + |digits|
      ensures IsDigit(s[j])
    {
      assert s[j] == digits[j - i];
    }
    assert rest != "" ==> s[i + |digits|] == rest[0];
    DigitsStop(s, i, i + |digits|);
    DigitsStop(s, i + 1, i + |digits|);
  }

  lemma {:induction false} ExponentPart(before: string, x: Exponent)
    requires ProperExponent(x) && x.Exponent?
    ensures var s := before + Scale(x);
            && ExponentEnd(s, |before|) == |s|
            && ExponentStart(s, |before|) == |s| - x.width
            && s[|s| - x.width..] == Padded(x.size, x.width)
  {
    ScaleIs(x);
    PaddedDigits(x.size, x.width);
    hide *;
    var s, digits := before + Scale(x), Padded(x.size, x.width);
    var front := before + [x.mark] + x.sign;
    assert s == front + digits && s[|front|..] == digits && front + digits + "" == s;
    DigitsWithin(front, digits, "");
    SignPart(s, before, x.mark, x.sign, digits);
    ExponentEndsWith(s, |before|, |front|);
  }

  lemma {:induction false} PaddedDigits(n: nat, width: nat)
    ensures |Padded(n, width)| == width && forall i :: 0 <= i < width ==> IsDigit(Padded(n, width)[i])
  {
  }

  lemma {:induction false} ExponentEndsWith(s: string, i: nat, start: nat)
    requires i < |s| && s[i] in {'e', 'E'} && ExponentStart(s, i) == start < |s| && IsDigit(s[start])
    requires DigitsEnd(s, start + 1) == |s|
    ensures ExponentEnd(s, i) == |s|
  {
    hide DigitsEnd, ExponentStart;
  }

  lemma {:induction false} SignPart(s: string, before: string, mark: char, sign: string, digits: string)
    requires s == before + [mark] + sign + digits && mark in {'e', 'E'} && sign in {"", "+", "-"}
    requires digits != "" && IsDigit(digits[0])
    ensures s[|before|] == mark && ExponentStart(s, |before|) == |before| + 1 + |sign|
  {
    var i := |before|;
    assert s[i] == mark;
    if sign == "" {
      assert s[i + 1] == digits[0];
    } else {
      assert s[i + 1] == sign[0];
    }
  }

  lemma {:induction false} ScaleBegins(x: Exponent)
    requires ProperExponent(x)
    ensures if x.NoExponent? then Scale(x) == ""
            else |Scale(x)| > 1 && Scale(x)[0] in {'e', 'E'} && (Scale(x)[1] == '-' <==> x.sign == "-")
  {
    if x.Exponent? {
      var digits := Padded(x.size, x.width);
      assert Scale(x) == [x.mark] + x.sign + digits;
      assert x.sign == "" ==> Scale(x)[1] == digits[0];
    }
  }

  /** Where the integer part and the fraction of a numeral end. */
  lemma {:induction false} NumeralParts(s: string, n: nat, f: nat, k: nat, x: Exponent)
    requires ProperExponent(x) && s == Numeral(n, f, k, x)
    ensures IntegerEnd(s, 0) == |Decimal(n)| && s[0..|Decimal(n)|] == Decimal(n) && IsDigit(s[0])
    ensures FractionEnd(s, |Decimal(n)|) == |Decimal(n)| + |Fraction(f, k)|
    ensures k > 0 ==> s[|Decimal(n)| + 1..|Decimal(n)| + |Fraction(f, k)|] == Padded(f, k)
  {
    hide *;
    var d, r, e := Decimal(n), Fraction(f, k), Scale(x);
    ScaleBegins(x);
    FractionBegins(f, k);
    NumeralIs(n, f, k, x);
    assert s == d + (r + e) && s[0] == d[0];
    NotADigit(r, e);
    IntegerPart(n, r + e);
    FractionPart(d, f, k, e);
    assert s[0..|d|] == d && s[|d|..|d| + |r|] == r;
    assert k > 0 ==> s[|d| + 1..|d| + |r|] == r[1..];
  }

  lemma {:induction false} NumeralIs(n: nat, f: nat, k: nat, x: Exponent)
    ensures Numeral(n, f, k, x) == Decimal(n) + Fraction(f, k) + Scale(x)
    ensures Decimal(n) != "" && IsDigit(Decimal(n)[0])
  {
    hide Fraction, Scale;
  }

  lemma {:induction false} NotADigit(r: string, e: string)
    requires (r == "" || r[0] == '.') && (e == "" || e[0] in {'e', 'E'})
    ensures r + e == "" || !IsDigit((r + e)[0])
    ensures e == "" || (!IsDigit(e[0]) && e[0] != '.')
  {
    assert r == "" ==> r + e == e;
  }

  /** The exponent's sign and digits. */
  lemma {:induction false} ScaleParts(s: string, n: nat, f: nat, k: nat, x: Exponent)
    requires ProperExponent(x) && s == Numeral(n, f, k, x)
    ensures var j := |Decimal(n)| + |Fraction(f, k)|;
            && j <= |s| && (j == |s| <==> x.NoExponent?) && ExponentEnd(s, j) == |s|
            && (x.Exponent? ==> j + 1 < |s| && (s[j + 1] == '-' <==> x.sign == "-"))
            && (x.Exponent? ==> ExponentStart(s, j) == |s| - x.width >= 0
                                && s[|s| - x.width..|s|] == Padded(x.size, x.width))
  {
    hide *;
    var before, e := Decimal(n) + Fraction(f, k), Scale(x);
    ScaleBegins(x);
    NumeralIs(n, f, k, x);
    assert s == before + e;
    if x.NoExponent? {
      assert |before| == |s|;
      NoExponentAtTheEnd(s);
    } else {
      ExponentPart(before, x);
      assert s[|before| + 1] == e[1];
      assert s[|s| - x.width..|s|] == s[|s| - x.width..];
    }
  }

  lemma {:induction false} NoExponentAtTheEnd(s: string)
    ensures ExponentEnd(s, |s|) == |s|
  {
  }

  lemma {:induction false} FractionBegins(f: nat, k: nat)
    ensures if k == 0 then Fraction(f, k) == ""
            else Fraction(f, k) != "" && Fraction(f, k)[0] == '.' && Fraction(f, k)[1..] == Padded(f, k)
  {
  }

  function Power(x: Exponent): (p: nat)
    ensures p >= 1
  {
    if x.NoExponent? then 1 else Ten(x.size)
  }

  function Whole(n: nat, f: nat, t: nat): nat {
    n * t + f
  }

  predicate Shrinks(x: Exponent) {
    x.Exponent? && x.sign == "-"
  }

  function Shifted(mantissa: real, p: nat, shrinks: bool): real
    requires p >= 1
  {
    if shrinks then mantissa / p as real else mantissa * p as real
  }

  /** The literal's value, from the values of its parts. */
  lemma {:induction false} NumberOfParts(s: string, n: nat, f: nat, k: nat, x: Exponent)
    requires f < Ten(k) && ProperExponent(x) && s == Numeral(n, f, k, x)
    ensures IsNumber(s)
    ensures NumberOf(s) == Shifted(n as real + f as real / Ten(k) as real, Power(x), Shrinks(x))
  {
    hide *;
    NumeralParts(s, n, f, k, x);
    ScaleParts(s, n, f, k, x);
    FractionBegins(f, k);
    DigitsOfParts(n, f, k, x);
    var i := |Decimal(n)|;
    var j := i + |Fraction(f, k)|;
    assert IsNumber(s) by {
      WholeNumber(s, i, j);
    }
    ValueByParts(s, i, j, n, f, Ten(k), x, Power(x));
  }

  lemma {:induction false} DigitsOfParts(n: nat, f: nat, k: nat, x: Exponent)
    requires f < Ten(k) && ProperExponent(x)
    ensures IsDigits(Decimal(n), n) && IsDigits(Padded(f, k), f) && PowerOfTen(k) == Ten(k) as real
    ensures |Padded(f, k)| == k && (k == 0 ==> f == 0)
    ensures if x.NoExponent? then Power(x) == 1
            else IsDigits(Padded(x.size, x.width), x.size) && PowerOfTen(x.size) == Power(x) as real
  {
    PowersOfTen(k);
    DecimalValue(n);
    PaddedValue(f, k);
    assert k == 0 ==> Ten(k) == 1;
    if x.Exponent? {
      PaddedValue(x.size, x.width);
      PowersOfTen(x.size);
    }
    hide PowerOfTen, Ten, Decimal, Padded, DigitsValue, IsDigit;
  }

  lemma {:induction false} WholeNumber(s: string, i: nat, j: nat)
    requires 0 < i <= j <= |s| && IsDigit(s[0])
    requires IntegerEnd(s, 0) == i && FractionEnd(s, i) == j && ExponentEnd(s, j) == |s|
    ensures IsNumber(s)
  {
    hide IntegerEnd, FractionEnd, ExponentEnd;
  }

  predicate IsDigits(s: string, n: nat) {
    (forall i :: 0 <= i < |s| ==> IsDigit(s[i])) && DigitsValue(s) == n
  }

  lemma {:induction false} ValueByParts(s: string, i: nat, j: nat, n: nat, f: nat, t: nat, x: Exponent, p: nat)
    requires IsNumber(s) && 0 < i <= j <= |s| && t > 0 && p > 0
    requires IntegerEnd(s, 0) == i && FractionEnd(s, i) == j
    requires IsDigits(s[0..i], n)
    requires if i == j then f == 0 else IsDigits(s[i + 1..j], f) && PowerOfTen(j - i - 1) == t as real
    requires if x.NoExponent? then j == |s| && p == 1
             else j + 1 < |s| && (s[j + 1] == '-' <==> x.sign == "-") && PowerOfTen(x.size) == p as real
                  && IsDigits(s[ExponentStart(s, j)..|s|], x.size)
    ensures NumberOf(s) == Shifted(n as real + f as real / t as real, p, Shrinks(x))
  {
    hide DigitsValue, IntegerEnd, FractionEnd, ExponentEnd, ExponentStart, PowerOfTen;
  }
  /** Times t, and times or divided by p, the value is the whole number w. */
  ghost predicate Denotes(v: real, w: nat, t: nat, p: nat, shrinks: bool) {
    if shrinks then v * t as real * p as real == w as real else v * t as real == w as real * p as real
  }

  /** Every numeral is one literal, and its value is (n + f / 10^k) times or divided by the power of its exponent. */
  lemma {:induction false} NumeralIsRead(n: nat, f: nat, k: nat, x: Exponent)
    requires f < Ten(k) && ProperExponent(x)
    ensures IsNumber(Numeral(n, f, k, x))
    ensures Denotes(NumberOf(Numeral(n, f, k, x)), Whole(n, f, Ten(k)), Ten(k), Power(x), Shrinks(x))
  {
    hide *;
    NumberOfParts(Numeral(n, f, k, x), n, f, k, x);
    ShiftedDenotes(n, f, Ten(k), Power(x), Shrinks(x));
  }

  lemma {:induction false} ShiftedDenotes(n: nat, f: nat, t: nat, p: nat, shrinks: bool)
    requires t >= 1 && p >= 1
    ensures Denotes(Shifted(n as real + f as real / t as real, p, shrinks), Whole(n, f, t), t, p, shrinks)
  {
    var m := n as real + f as real / t as real;
    QuotientIsExact(f as real, t as real, f as real / t as real);
    assert (n * t) as real == n as real * t as real;
    assert m * t as real == (n * t + f) as real;
    Scaled(m, t as real, (n * t + f) as real, p as real);
  }

  lemma {:induction false} Scaled(m: real, t: real, w: real, p: real)
    requires p >= 1.0 && m * t == w
    ensures (m / p) * t * p == w && (m * p) * t == w * p
  {
    QuotientIsExact(m, p, m / p);
    var q := m / p;
    assert q * t * p == (q * p) * t;
  }

  lemma {:induction false} DigitBack(c: char)
    requires IsDigit(c)
    ensures HexValue(c) < 10 && DigitOf(HexValue(c)) == c
  {
  }

  lemma {:induction false} DecimalBack(d: string)
    requires d != "" && (forall k :: 0 <= k < |d| ==> IsDigit(d[k])) && (d[0] == '0' ==> |d| == 1)
    ensures Decimal(DigitsValue(d)) == d
  {
    var n := |d| - 1;
    var v := HexValue(d[n]);
    DigitBack(d[n]);
    assert d == d[..n] + [d[n]];
    assert DigitsValue(d) == DigitsValue(d[..n]) * 10 + v;
    hide HexValue, DigitOf;
    if n > 0 {
      DecimalBack(d[..n]);
      assert d[..n][0] == d[0];
      assert (DigitsValue(d[..n]) * 10 + v) / 10 == DigitsValue(d[..n]);
    } else {
      assert DigitsValue(d[..n]) == 0;
    }
  }

  lemma {:induction false} PaddedBack(d: string)
    requires forall k :: 0 <= k < |d| ==> IsDigit(d[k])
    ensures DigitsValue(d) < Ten(|d|) && Padded(DigitsValue(d), |d|) == d
  {
    if d != "" {
      var n := |d| - 1;
      DigitBack(d[n]);
      PaddedBack(d[..n]);
      var v := HexValue(d[n]);
      assert d == d[..n] + [d[n]];
      assert DigitsValue(d) == DigitsValue(d[..n]) * 10 + v;
      assert (DigitsValue(d[..n]) * 10 + v) / 10 == DigitsValue(d[..n]);
      hide HexValue, DigitOf;
    }
  }

  lemma {:induction false} DigitsAreRead(s: string, i: nat, end: nat)
    requires i <= |s| && i <= end <= DigitsEnd(s, i)
    ensures forall k :: 0 <= k < end - i ==> IsDigit(s[i..end][k])
  {
    forall k | 0 <= k < end - i
      ensures IsDigit(s[i..end][k])
    {
      AllDigits(s, i, i + k);
    }
  }

  /** And nothing else is a number literal: no leading zero, no empty fraction, no empty exponent. */
  lemma {:induction false} NumberIsNumeral(s: string) returns (n: nat, f: nat, k: nat, x: Exponent)
    requires IsNumber(s)
    ensures f < Ten(k) && ProperExponent(x) && s == Numeral(n, f, k, x)
  {
    hide *;
    PartsOfNumber(s);
    var i := IntegerEnd(s, 0);
    var j := FractionEnd(s, i);
    n := WholeBack(s, i);
    f, k := FractionBack(s, i, j);
    x := ExponentBack(s, j);
    assert s == s[..i] + s[i..j] + s[j..];
    assert Numeral(n, f, k, x) == Decimal(n) + Fraction(f, k) + Scale(x) by {
      NumeralIs(n, f, k, x);
    }
  }

  lemma {:induction false} PartsOfNumber(s: string)
    requires IsNumber(s)
    ensures s != "" && IsDigit(s[0]) && ExponentEnd(s, FractionEnd(s, IntegerEnd(s, 0))) == |s|
  {
    hide IntegerEnd, FractionEnd, ExponentEnd;
  }

  lemma {:induction false} WholeBack(s: string, i: nat) returns (n: nat)
    requires s != "" && IsDigit(s[0]) && i == IntegerEnd(s, 0)
    ensures i <= |s| && s[..i] == Decimal(n)
  {
    if s[0] != '0' {
      DigitsAreRead(s, 0, i);
    }
    assert s[..i] == s[0..i];
    DecimalBack(s[..i]);
    n := DigitsValue(s[..i]);
  }

  lemma {:induction false} FractionBack(s: string, i: nat, j: nat) returns (f: nat, k: nat)
    requires i <= |s| && j == FractionEnd(s, i)
    ensures i <= j <= |s| && f < Ten(k) && s[i..j] == Fraction(f, k)
  {
    if j == i {
      f, k := 0, 0;
    } else {
      DigitsAreRead(s, i + 1, j);
      PaddedBack(s[i + 1..j]);
      f, k := DigitsValue(s[i + 1..j]), j - i - 1;
      hide DigitsValue, Padded, Ten;
      assert s[i..j] == "." + s[i + 1..j];
    }
  }

  lemma {:induction false} ExponentBack(s: string, j: nat) returns (x: Exponent)
    requires j <= |s| && ExponentEnd(s, j) == |s|
    ensures ProperExponent(x) && s[j..] == Scale(x)
  {
    hide *;
    if j == |s| {
      x := NoExponent;
      NoScale();
      assert s[j..] == "";
    } else {
      SignBack(s, j);
      var start := ExponentStart(s, j);
      var sign, digits := s[j + 1..start], s[start..|s|];
      DigitsAreRead(s, start, |s|);
      PaddedBack(digits);
      x := Exponent(s[j], sign, DigitsValue(digits), |digits|);
      ScaleIs(x);
      assert s[j..] == [s[j]] + sign + digits;
    }
  }

  lemma {:induction false} NoScale()
    ensures ProperExponent(NoExponent) && Scale(NoExponent) == ""
  {
  }

  lemma {:induction false} ScaleIs(x: Exponent)
    requires x.Exponent?
    ensures Scale(x) == [x.mark] + x.sign + Padded(x.size, x.width)
    ensures ProperExponent(x)
       <==> x.mark in {'e', 'E'} && x.sign in {"", "+", "-"} && x.width > 0 && x.size < Ten(x.width)
  {
    hide Padded, Ten;
  }

  lemma {:induction false} SignBack(s: string, j: nat)
    requires j < |s| && ExponentEnd(s, j) > j
    ensures j < ExponentStart(s, j) < |s| && s[j] in {'e', 'E'}
    ensures ExponentEnd(s, j) == DigitsEnd(s, ExponentStart(s, j))
    ensures s[j + 1..ExponentStart(s, j)] in {"", "+", "-"}
  {
    if ExponentStart(s, j) == j + 2 {
      assert s[j + 1..j + 2] == [s[j + 1]];
      assert [s[j + 1]] == "+" || [s[j + 1]] == "-";
    } else {
      assert s[j + 1..j + 1] == "";
    }
  }
}
