/**
 The evaluator. A successful result contains JSON-safe numbers only, equality is equality of values, and what kind of
 value an expression gives is decided by the branch that is taken.
 */
module CelEvaluator {
  import opened Wrappers
  import opened Json
  import opened CelSyntax
  import opened CelTokenizer
  import Parser = CelParser

  datatype Error =
    | BooleanRequired | NumberRequired | NotJsonSafe | NotComparable | InputNotAllowed | ObjectRequired

  type Value = Result<Json, Error>

  // ---------- numbers

  const MAX_SAFE_INTEGER := 9007199254740991.0

  /** Numbers are exact here; a double beyond the largest safe integer is an unsafe integer or not finite. */
  predicate IsJsonSafe(number: real) {
    -MAX_SAFE_INTEGER <= number <= MAX_SAFE_INTEGER
  }

  function DigitsValue(digits: string): nat
    requires forall i :: 0 <= i < |digits| ==> IsDigit(digits[i])
  {
    if digits == "" then 0
    else DigitsValue(digits[..|digits| - 1]) * 10 + HexValue(digits[|digits| - 1])
  }

  function PowerOfTen(n: nat): (p: real)
    ensures p >= 1.0
  {
    if n == 0 then 1.0 else 10.0 * PowerOfTen(n - 1)
  }

  lemma {:induction false} AllDigits(s: string, i: nat, k: nat)
    requires i <= |s| && i <= k < DigitsEnd(s, i)
    ensures IsDigit(s[k])
    decreases |s| - i
  {
    if i < k {
      AllDigits(s, i + 1, k);
    }
  }

  /** The digits of the text from one place up to another, all of them digits. */
  function DigitsBetween(s: string, i: nat, end: nat): nat
    requires i <= end <= |s| && end <= DigitsEnd(s, i)
  {
    forall k | i <= k < end ensures IsDigit(s[k]) { AllDigits(s, i, k); }
    DigitsValue(s[i..end])
  }

  /** The value of a number literal: integer, fraction and exponent. */
  function NumberOf(lexeme: string): real
    requires IsNumber(lexeme)
  {
    var i := IntegerEnd(lexeme, 0);
    var f := FractionEnd(lexeme, i);
    var mantissa := DigitsBetween(lexeme, 0, i) as real
                    + if f == i then 0.0 else DigitsBetween(lexeme, i + 1, f) as real / PowerOfTen(f - i - 1);
    if f == |lexeme| then mantissa
    else
      var start := ExponentStart(lexeme, f);
      var scale := PowerOfTen(DigitsBetween(lexeme, start, |lexeme|));
      if lexeme[f + 1] == '-' then mantissa / scale else mantissa * scale
  }

  function DigitOf(n: nat): (c: char)
    requires n < 10
    ensures IsDigit(c) && HexValue(c) == n && (c == '0' <==> n == 0)
  {
    ('0' as int + n) as char
  }

  function Decimal(n: nat): (s: string)
    ensures s != "" && forall i :: 0 <= i < |s| ==> IsDigit(s[i])
    ensures s[0] == '0' <==> n == 0
    ensures n < 10 ==> |s| == 1
  {
    if n < 10 then [DigitOf(n)] else Decimal(n / 10) + [DigitOf(n % 10)]
  }

  /** A whole number in decimal notation is one literal, and that literal is the number. */
  lemma {:induction false} DecimalIsRead(n: nat)
    ensures IsNumber(Decimal(n)) && NumberOf(Decimal(n)) == n as real
  {
    var s := Decimal(n);
    DigitsToTheEnd(s, 0);
    DigitsToTheEnd(s, 1);
    assert IntegerEnd(s, 0) == |s|;
    assert s[0..|s|] == s;
    DecimalValue(n);
  }

  lemma {:induction false} DecimalValue(n: nat)
    ensures DigitsValue(Decimal(n)) == n
  {
    hide DigitOf, HexValue;
    if n < 10 {
      assert DigitsValue(Decimal(n)) == DigitsValue("") * 10 + n;
    } else {
      DecimalValue(n / 10);
      DigitsValueSnoc(Decimal(n / 10), DigitOf(n % 10));
    }
  }

  lemma {:induction false} DigitsValueSnoc(digits: string, c: char)
    requires IsDigit(c) && forall i :: 0 <= i < |digits| ==> IsDigit(digits[i])
    ensures DigitsValue(digits + [c]) == DigitsValue(digits) * 10 + HexValue(c)
  {
    assert (digits + [c])[..|digits|] == digits;
  }

  lemma {:induction false} DigitsToTheEnd(s: string, i: nat)
    requires i <= |s| && forall k :: 0 <= k < |s| ==> IsDigit(s[k])
    ensures DigitsEnd(s, i) == |s|
    decreases |s| - i
  {
    if i < |s| {
      DigitsToTheEnd(s, i + 1);
    }
  }

  /** The literals the parser lets through. */
  predicate SafeLexeme(lexeme: string) {
    IsNumber(lexeme) && IsJsonSafe(NumberOf(lexeme))
  }

  function AssertNumber(number: real): Value {
    if IsJsonSafe(number) then Ok(JNumber(number)) else Err(NotJsonSafe)
  }

  /** Division that drops the fraction, so that the remainder has the sign of the dividend. */
  function Truncated(a: real): int {
    if a >= 0.0 then a.Floor else -((-a).Floor)
  }

  function Remainder(a: real, b: real): real
    requires b != 0.0
  {
    a - b * Truncated(a / b) as real
  }

  // ---------- order and equality

  function CompareNumbers(a: real, b: real): int {
    if a < b then -1 else if a > b then 1 else 0
  }

  function CompareStrings(a: string, b: string): int {
    if a == "" then (if b == "" then 0 else -1)
    else if b == "" then 1
    else if a[0] != b[0] then (if a[0] < b[0] then -1 else 1)
    else CompareStrings(a[1..], b[1..])
  }

  predicate Comparable(left: Json, right: Json) {
    (left.JNumber? && right.JNumber?) || (left.JString? && right.JString?)
  }

  function Compare(left: Json, right: Json): int
    requires Comparable(left, right)
  {
    if left.JNumber? then CompareNumbers(left.number, right.number) else CompareStrings(left.text, right.text)
  }

  predicate JsonEquals(left: Json, right: Json)
    decreases left
  {
    if left.JArray? || right.JArray? then
      && left.JArray? && right.JArray?
      && |left.elements| == |right.elements|
      && forall i :: 0 <= i < |left.elements| ==> JsonEquals(left.elements[i], right.elements[i])
    else if left.JObject? && right.JObject? then
      && |left.fields| == |right.fields|
      && forall key :: key in left.fields ==>
           key in right.fields && JsonEquals(left.fields[key], right.fields[key])
    else left == right
  }

  // ---------- evaluation

  function LiteralValue(literal: Literal): Value {
    match literal
    case Text(text) => Ok(JString(text))
    case Number(lexeme) => if IsNumber(lexeme) then Ok(JNumber(NumberOf(lexeme))) else Err(NotJsonSafe)
    case Boolean(truth) => Ok(JBool(truth))
    case Null => Ok(JNull)
  }

  function RequireBoolean(v: Value): Value {
    if v.Ok? && !v.value.JBool? then Err(BooleanRequired) else v
  }

  function UnaryValue(op: UnaryOp, operand: Json): Value {
    match op
    case Not => if operand.JBool? then Ok(JBool(!operand.truth)) else Err(BooleanRequired)
    case Minus => if operand.JNumber? then AssertNumber(-operand.number) else Err(NumberRequired)
    case Plus => if operand.JNumber? then AssertNumber(operand.number) else Err(NumberRequired)
  }

  function NumericBinary(op: BinaryOp, a: real, b: real): Value
    requires Level(op) >= 5
  {
    match op
    case Add => AssertNumber(a + b)
    case Sub => AssertNumber(a - b)
    case Mul => AssertNumber(a * b)
    case Div => if b == 0.0 then Err(NotJsonSafe) else AssertNumber(a / b)
    case Mod => if b == 0.0 then Err(NotJsonSafe) else AssertNumber(Remainder(a, b))
  }

  function CompareValue(op: BinaryOp, left: Json, right: Json): Value
    requires Level(op) == 4
  {
    if !Comparable(left, right) then Err(NotComparable)
    else
      var comparison := Compare(left, right);
      Ok(JBool(match op
               case Lt => comparison < 0
               case Le => comparison <= 0
               case Gt => comparison > 0
               case Ge => comparison >= 0))
  }

  /** Every operator but the two that may skip their right operand. */
  function BinaryValue(op: BinaryOp, left: Json, right: Json): Value
    requires op != And && op != Or
  {
    if op == Eq then Ok(JBool(JsonEquals(left, right)))
    else if op == Ne then Ok(JBool(!JsonEquals(left, right)))
    else if Level(op) == 4 then CompareValue(op, left, right)
    else if op == Add && left.JString? && right.JString? then Ok(JString(left.text + right.text))
    else if !left.JNumber? || !right.JNumber? then Err(NumberRequired)
    else NumericBinary(op, left.number, right.number)
  }

  function Evaluate(e: Expr, input: Json): Value
    decreases e, 1
  {
    match e
    case Lit(literal) => LiteralValue(literal)
    case Input => Ok(input)
    case Array(elements) =>
      var values := EvaluateAll(elements, input);
      if values.Err? then Err(values.error) else Ok(JArray(values.value))
    case Object(entries) =>
      var fields := EvaluateEntries(entries, input);
      if fields.Err? then Err(fields.error) else Ok(JObject(fields.value))
    case Unary(op, operand) =>
      var value := Evaluate(operand, input);
      if value.Err? then value else UnaryValue(op, value.value)
    case Binary(op, left, right) =>
      var first := Evaluate(left, input);
      if first.Err? then first
      else if op == And || op == Or then
        if !first.value.JBool? then Err(BooleanRequired)
        else if first.value.truth == (op == Or) then first
        else RequireBoolean(Evaluate(right, input))
      else
        var second := Evaluate(right, input);
        if second.Err? then second else BinaryValue(op, first.value, second.value)
    case Conditional(condition, whenTrue, whenFalse) =>
      var test := RequireBoolean(Evaluate(condition, input));
      if test.Err? then test
      else if test.value.JBool? && test.value.truth then Evaluate(whenTrue, input)
      else Evaluate(whenFalse, input)
  }

  /** The elements in order, up to the first error. */
  function EvaluateAll(elements: seq<Expr>, input: Json): (r: Result<seq<Json>, Error>)
    ensures r.Ok? ==> |r.value| == |elements|
    decreases elements, 0
  {
    if elements == [] then Ok([])
    else
      var front := EvaluateAll(elements[..|elements| - 1], input);
      if front.Err? then front
      else
        var last := Evaluate(elements[|elements| - 1], input);
        if last.Err? then Err(last.error) else Ok(front.value + [last.value])
  }

  /** The entries in order, a later one of the same key in place of an earlier one, up to the first error. */
  function EvaluateEntries(entries: seq<Entry>, input: Json): Result<map<string, Json>, Error>
    decreases entries, 0
  {
    if entries == [] then Ok(map[])
    else
      var front := EvaluateEntries(entries[..|entries| - 1], input);
      if front.Err? then front
      else
        var last := Evaluate(entries[|entries| - 1].value, input);
        if last.Err? then Err(last.error) else Ok(front.value[entries[|entries| - 1].key := last.value])
  }

  /** The loop that builds an object. */
  method EvaluateObject(entries: seq<Entry>, input: Json) returns (r: Value)
    ensures r == Evaluate(Object(entries), input)
  {
    var result: map<string, Json> := map[];
    for i := 0 to |entries|
      invariant EvaluateEntries(entries[..i], input) == Ok(result)
    {
      var value := Evaluate(entries[i].value, input);
      assert entries[..i + 1][..i] == entries[..i];
      if value.Err? {
        EntriesStayFailed(entries, i + 1, input);
        return Err(value.error);
      }
      result := result[entries[i].key := value.value];
    }
    assert entries[..|entries|] == entries;
    return Ok(JObject(result));
  }

  lemma {:induction false} EntriesStayFailed(entries: seq<Entry>, k: nat, input: Json)
    requires k <= |entries| && EvaluateEntries(entries[..k], input).Err?
    ensures EvaluateEntries(entries, input) == EvaluateEntries(entries[..k], input)
    decreases |entries|
  {
    if k == |entries| {
      assert entries[..k] == entries;
    } else {
      var shorter := entries[..|entries| - 1];
      assert shorter[..k] == entries[..k];
      EntriesStayFailed(shorter, k, input);
    }
  }

  /** The input must be a string or a JSON-safe number. */
  function EvaluateRestrictedCel(e: Expr, input: Json): Value {
    if input.JNumber? && !IsJsonSafe(input.number) then Err(NotJsonSafe)
    else if !input.JNumber? && !input.JString? then Err(InputNotAllowed)
    else Evaluate(e, input)
  }

  // ---------- equality is equality of values, and the order is a total order

  lemma {:induction false} JsonEqualsIsEquality(left: Json, right: Json)
    ensures JsonEquals(left, right) <==> left == right
    decreases left
  {
    if left.JArray? && right.JArray? && |left.elements| == |right.elements| {
      forall i | 0 <= i < |left.elements|
        ensures JsonEquals(left.elements[i], right.elements[i]) <==> left.elements[i] == right.elements[i]
      {
        JsonEqualsIsEquality(left.elements[i], right.elements[i]);
      }
    } else if left.JObject? && right.JObject? {
      forall key | key in left.fields && key in right.fields
        ensures JsonEquals(left.fields[key], right.fields[key]) <==> left.fields[key] == right.fields[key]
      {
        JsonEqualsIsEquality(left.fields[key], right.fields[key]);
      }
      if JsonEquals(left, right) {
        SameKeys(left.fields.Keys, right.fields.Keys);
      }
    }
  }

  /** A set inside another of the same size is that set: counting keys and looking up one side's is enough. */
  lemma {:induction false} SameKeys(a: set<string>, b: set<string>)
    requires a <= b && |a| == |b|
    ensures a == b
  {
    assert b == a + (b - a);
    assert |b| == |a| + |b - a|;
  }

  lemma {:induction false} StringOrder(a: string, b: string)
    ensures CompareStrings(a, b) == -CompareStrings(b, a)
    ensures CompareStrings(a, b) == 0 <==> a == b
  {
    if a != "" && b != "" && a[0] == b[0] {
      StringOrder(a[1..], b[1..]);
      assert a == [a[0]] + a[1..] && b == [b[0]] + b[1..];
    }
  }

  lemma {:induction false} StringOrderIsTransitive(a: string, b: string, c: string)
    requires CompareStrings(a, b) <= 0 && CompareStrings(b, c) <= 0
    ensures CompareStrings(a, c) <= 0
  {
    if a != "" && b != "" && c != "" && a[0] == b[0] == c[0] {
      StringOrderIsTransitive(a[1..], b[1..], c[1..]);
    }
  }

  /** Exactly one of less, equal and greater holds, the four operators agree on which, and `<=` is transitive. */
  lemma {:induction false} CompareIsATotalOrder(a: Json, b: Json, c: Json)
    requires Comparable(a, b) && Comparable(b, c)
    ensures BinaryValue(Lt, a, b) == BinaryValue(Gt, b, a)
    ensures BinaryValue(Le, a, b) == UnaryValue(Not, BinaryValue(Lt, b, a).value)
    ensures BinaryValue(Ge, a, b) == UnaryValue(Not, BinaryValue(Lt, a, b).value)
    ensures BinaryValue(Le, a, b) == BinaryValue(Ge, a, b) <==> BinaryValue(Eq, a, b) == Ok(JBool(true))
    ensures BinaryValue(Le, a, b) == BinaryValue(Le, b, c) == Ok(JBool(true)) ==>
              BinaryValue(Le, a, c) == Ok(JBool(true))
  {
    if a.JString? {
      StringOrder(a.text, b.text);
      if CompareStrings(a.text, b.text) <= 0 && CompareStrings(b.text, c.text) <= 0 {
        StringOrderIsTransitive(a.text, b.text, c.text);
      }
    }
  }

  // ---------- operators, by what they mean

  /** The connectives look at their right operand only when they must, and want a boolean from it then. */
  lemma {:induction false} ConnectivesAreConditionals(left: Expr, right: Expr, input: Json)
    ensures Evaluate(Binary(And, left, right), input)
         == RequireBoolean(Evaluate(Conditional(left, right, Lit(Boolean(false))), input))
    ensures Evaluate(Binary(Or, left, right), input)
         == RequireBoolean(Evaluate(Conditional(left, Lit(Boolean(true)), right), input))
    ensures Evaluate(Unary(Not, Binary(And, left, right)), input)
         == Evaluate(Binary(Or, Unary(Not, left), Unary(Not, right)), input)
  {
    hide JsonEquals, Compare, NumberOf, IsNumber;
  }

  function Abs(a: real): real {
    if a < 0.0 then -a else a
  }

  /** The remainder is what a whole quotient leaves: smaller than the divisor, and not of the dividend's other sign. */
  lemma {:induction false} RemainderIsExact(a: real, b: real) returns (whole: int)
    requires b != 0.0 && IsJsonSafe(b)
    ensures NumericBinary(Mod, a, b) == Ok(JNumber(Remainder(a, b)))
    ensures a == b * whole as real + Remainder(a, b)
    ensures Abs(Remainder(a, b)) < Abs(b)
    ensures (a >= 0.0 ==> Remainder(a, b) >= 0.0) && (a <= 0.0 ==> Remainder(a, b) <= 0.0)
  {
    var q := a / b;
    whole := Truncated(q);
    var t := whole as real;
    assert a == b * q;
    assert if q >= 0.0 then 0.0 <= q - t < 1.0 else -1.0 < q - t <= 0.0;
    assert Remainder(a, b) == a - b * t;
    hide Remainder, Truncated;
    RemainderFits(a, b, q, t);
  }

  lemma {:induction false} RemainderFits(a: real, b: real, q: real, t: real)
    requires b != 0.0 && a == b * q && if q >= 0.0 then 0.0 <= q - t < 1.0 else -1.0 < q - t <= 0.0
    requires q == 0.0 ==> t == 0.0
    ensures Abs(a - b * t) < Abs(b) && (a >= 0.0 ==> a - b * t >= 0.0) && (a <= 0.0 ==> a - b * t <= 0.0)
  {
    Distributes(b, q, t);
    var f := q - t;
    var r := b * f;
    assert r == a - b * t;
    SignOfProduct(b, q);
    SignOfProduct(b, f);
    Smaller(b, f);
    hide *;
  }

  lemma {:induction false} Distributes(b: real, q: real, t: real)
    ensures b * (q - t) == b * q - b * t
  {
  }

  lemma {:induction false} SignOfProduct(b: real, x: real)
    requires b != 0.0
    ensures b > 0.0 ==> (b * x > 0.0 <==> x > 0.0) && (b * x < 0.0 <==> x < 0.0)
    ensures b < 0.0 ==> (b * x > 0.0 <==> x < 0.0) && (b * x < 0.0 <==> x > 0.0)
  {
  }

  lemma {:induction false} Smaller(b: real, f: real)
    requires b != 0.0 && Abs(f) < 1.0
    ensures Abs(b * f) < Abs(b)
  {
    var c := Abs(b);
    Grows(c, f, 1.0);
    Grows(c, -1.0, f);
    if b < 0.0 {
      Negates(b, f);
    }
  }

  lemma {:induction false} Negates(b: real, f: real)
    ensures (-b) * f == -(b * f)
  {
    Distributes(f, 0.0, b);
    assert f * 0.0 == 0.0;
    assert f * (0.0 - b) == (-b) * f;
  }

  lemma {:induction false} Grows(b: real, x: real, y: real)
    requires b > 0.0 && x < y
    ensures b * x < b * y
  {
    Distributes(b, y, x);
    SignOfProduct(b, y - x);
  }

  // ---------- every number in a result is JSON-safe

  ghost predicate AllSafe(value: Json)
    decreases value
  {
    match value
    case JNumber(number) => IsJsonSafe(number)
    case JArray(elements) => forall i :: 0 <= i < |elements| ==> AllSafe(elements[i])
    case JObject(fields) => forall key :: key in fields ==> AllSafe(fields[key])
    case _ => true
  }

  /** For every expression the parser builds and every safe input. */
  lemma {:induction false} ResultIsSafe(e: Expr, input: Json)
    requires Parser.WellBuilt(SafeLexeme, e) && AllSafe(input)
    ensures var r := Evaluate(e, input); r.Ok? ==> AllSafe(r.value)
    decreases e, 1
  {
    match e
    case Lit(_) =>
    case Input =>
    case Array(elements) => ElementsAreSafe(elements, input);
    case Object(entries) => EntriesAreSafe(entries, input);
    case Unary(op, operand) =>
      ResultIsSafe(operand, input);
      OperatorsAreSafe();
      hide UnaryValue, AllSafe;
    case Binary(op, left, right) =>
      ResultIsSafe(left, input);
      ResultIsSafe(right, input);
      OperatorsAreSafe();
      hide BinaryValue;
    case Conditional(condition, whenTrue, whenFalse) =>
      ResultIsSafe(whenTrue, input);
      ResultIsSafe(whenFalse, input);
  }

  lemma {:induction false} OperatorsAreSafe()
    ensures forall op, v :: UnaryValue(op, v).Ok? ==> AllSafe(UnaryValue(op, v).value)
    ensures forall op, v, w :: op != And && op != Or && BinaryValue(op, v, w).Ok? ==>
              AllSafe(BinaryValue(op, v, w).value)
  {
    hide JsonEquals, Compare, Remainder;
  }

  lemma {:induction false} ElementsAreSafe(elements: seq<Expr>, input: Json)
    requires AllSafe(input) && forall i :: 0 <= i < |elements| ==> Parser.WellBuilt(SafeLexeme, elements[i])
    ensures var r := EvaluateAll(elements, input); r.Ok? ==> AllSafe(JArray(r.value))
    decreases elements, 0
  {
    if elements != [] {
      ElementsAreSafe(elements[..|elements| - 1], input);
      ResultIsSafe(elements[|elements| - 1], input);
    }
  }

  lemma {:induction false} EntriesAreSafe(entries: seq<Entry>, input: Json)
    requires AllSafe(input) && forall i :: 0 <= i < |entries| ==> Parser.WellBuilt(SafeLexeme, entries[i].value)
    ensures var r := EvaluateEntries(entries, input); r.Ok? ==> AllSafe(JObject(r.value))
    decreases entries, 0
  {
    if entries != [] {
      EntriesAreSafe(entries[..|entries| - 1], input);
      ResultIsSafe(entries[|entries| - 1].value, input);
    }
  }

  // ---------- what an object expression gives

  /** Exactly the keys of the entries, each with the value of its own entry. */
  ghost predicate HoldsEntries(entries: seq<Entry>, input: Json, fields: map<string, Json>) {
    && (forall key :: key in fields <==> Parser.HasKey(entries, key))
    && forall i :: 0 <= i < |entries| ==>
         entries[i].key in fields && Evaluate(entries[i].value, input) == Ok(fields[entries[i].key])
  }

  /** An object of distinct keys, as the parser makes sure, has every value or gives an error. */
  lemma {:induction false} ObjectHasItsEntries(entries: seq<Entry>, input: Json)
    requires Parser.DistinctKeys(entries)
    ensures var r := Evaluate(Object(entries), input);
            && (r.Ok? <==> forall i :: 0 <= i < |entries| ==> Evaluate(entries[i].value, input).Ok?)
            && (r.Ok? ==> r.value.JObject? && HoldsEntries(entries, input, r.value.fields))
    decreases |entries|
  {
    if entries != [] {
      var n := |entries| - 1;
      var front := entries[..n];
      ObjectHasItsEntries(front, input);
      var before, last := Evaluate(Object(front), input), Evaluate(entries[n].value, input);
      assert Evaluate(Object(entries), input)
          == if before.Err? then before
             else if last.Err? then last else Ok(JObject(before.value.fields[entries[n].key := last.value]));
      assert forall i :: 0 <= i < n ==> front[i] == entries[i];
      hide *;
      if before.Ok? && last.Ok? {
        EntryIsHeld(entries, input, before.value.fields, last.value);
      } else if before.Err? {
        var i :| 0 <= i < n && Evaluate(front[i].value, input).Err?;
        assert Evaluate(entries[i].value, input).Err?;
      }
    }
  }

  lemma {:induction false} EntryIsHeld(entries: seq<Entry>, input: Json, fields: map<string, Json>, value: Json)
    requires entries != [] && Parser.DistinctKeys(entries)
    requires var n := |entries| - 1;
             HoldsEntries(entries[..n], input, fields) && Evaluate(entries[n].value, input) == Ok(value)
    ensures HoldsEntries(entries, input, fields[entries[|entries| - 1].key := value])
  {
    hide Evaluate;
    var n := |entries| - 1;
    var front, fields' := entries[..n], fields[entries[n].key := value];
    forall key
      ensures key in fields' <==> Parser.HasKey(entries, key)
    {
      KeysOfFront(entries, key);
    }
    forall i | 0 <= i < n
      ensures entries[i].key in fields' && Evaluate(entries[i].value, input) == Ok(fields'[entries[i].key])
    {
      assert front[i] == entries[i] && entries[i].key != entries[n].key;
    }
  }

  lemma {:induction false} KeysOfFront(entries: seq<Entry>, key: string)
    requires entries != []
    ensures Parser.HasKey(entries, key)
       <==> Parser.HasKey(entries[..|entries| - 1], key) || entries[|entries| - 1].key == key
  {
    var n := |entries| - 1;
    if Parser.HasKey(entries[..n], key) {
      var i :| 0 <= i < n && entries[..n][i].key == key;
      assert entries[i].key == key;
    }
    if Parser.HasKey(entries, key) && entries[n].key != key {
      var i :| 0 <= i < |entries| && entries[i].key == key;
      assert entries[..n][i].key == key;
    }
  }

  /** An array has the values of its elements, in their order. */
  lemma {:induction false} ArrayHasItsElements(elements: seq<Expr>, input: Json)
    ensures var r := Evaluate(Array(elements), input);
            && (r.Ok? <==> forall i :: 0 <= i < |elements| ==> Evaluate(elements[i], input).Ok?)
            && (r.Ok? ==> r.value.JArray? && HoldsElements(elements, input, r.value.elements))
    decreases |elements|
  {
    if elements != [] {
      var n := |elements| - 1;
      var front := elements[..n];
      ArrayHasItsElements(front, input);
      ArraySnoc(elements, input);
      var before, last := Evaluate(Array(front), input), Evaluate(elements[n], input);
      assert forall i :: 0 <= i < n ==> front[i] == elements[i];
      hide *;
      if before.Err? {
        var i :| 0 <= i < n && Evaluate(front[i], input).Err?;
        assert Evaluate(elements[i], input).Err?;
      } else if last.Ok? {
        ElementIsHeld(elements, input, before.value.elements, last.value);
      }
    } else {
      hide JsonEquals, CompareValue, NumericBinary;
    }
  }

  lemma {:induction false} ElementIsHeld(elements: seq<Expr>, input: Json, values: seq<Json>, value: Json)
    requires elements != [] && HoldsElements(elements[..|elements| - 1], input, values)
    requires Evaluate(elements[|elements| - 1], input) == Ok(value)
    ensures HoldsElements(elements, input, values + [value])
    ensures forall i :: 0 <= i < |elements| ==> Evaluate(elements[i], input).Ok?
  {
    hide Evaluate;
    var n := |elements| - 1;
    forall i | 0 <= i < n
      ensures Evaluate(elements[i], input) == Ok(values[i])
    {
      assert elements[..n][i] == elements[i];
    }
  }

  ghost predicate HoldsElements(elements: seq<Expr>, input: Json, values: seq<Json>) {
    |values| == |elements| && forall i :: 0 <= i < |elements| ==> Evaluate(elements[i], input) == Ok(values[i])
  }

  lemma {:induction false} ArraySnoc(elements: seq<Expr>, input: Json)
    requires elements != []
    ensures var before := Evaluate(Array(elements[..|elements| - 1]), input);
            var last := Evaluate(elements[|elements| - 1], input);
            && (before.Ok? ==> before.value.JArray?)
            && Evaluate(Array(elements), input)
            == if before.Err? then before
               else if last.Err? then last else Ok(JArray(before.value.elements + [last.value]))
  {
  }

  /** Where some elements fail, the first failure stands. */
  lemma {:induction false} FirstElementFails(elements: seq<Expr>, input: Json, k: nat)
    requires FirstFailure(elements, input, k)
    ensures Evaluate(Array(elements), input) == Evaluate(elements[k], input)
    decreases |elements|
  {
    var n := |elements| - 1;
    var front := elements[..n];
    assert forall i :: 0 <= i < n ==> front[i] == elements[i];
    ArraySnoc(elements, input);
    ArrayHasItsElements(front, input);
    hide Evaluate;
    if k < n {
      FirstElementFails(front, input, k);
    }
  }

  /** The first of the expressions that gives an error. */
  ghost predicate FirstFailure(es: seq<Expr>, input: Json, k: int) {
    && 0 <= k < |es| && Evaluate(es[k], input).Err?
    && forall i :: 0 <= i < k ==> Evaluate(es[i], input).Ok?
  }

  function ValuesOf(entries: seq<Entry>): (es: seq<Expr>)
    ensures |es| == |entries| && forall i :: 0 <= i < |es| ==> es[i] == entries[i].value
  {
    seq(|entries|, i requires 0 <= i < |entries| => entries[i].value)
  }

  /** Where some entries of an object fail, the first failure stands. */
  lemma {:induction false} FirstEntryFails(entries: seq<Entry>, input: Json, k: nat)
    requires FirstFailure(ValuesOf(entries), input, k)
    ensures Evaluate(Object(entries), input) == Evaluate(entries[k].value, input)
    decreases |entries|
  {
    var n := |entries| - 1;
    var front := entries[..n];
    assert forall i :: 0 <= i < n ==> ValuesOf(front)[i] == ValuesOf(entries)[i];
    var before, last := EvaluateEntries(front, input), Evaluate(entries[n].value, input);
    if k < n {
      FirstEntryFails(front, input, k);
    } else {
      EntriesSucceed(front, input);
    }
    assert EvaluateEntries(entries, input).Err?;
  }

  lemma {:induction false} EntriesSucceed(entries: seq<Entry>, input: Json)
    requires forall i :: 0 <= i < |entries| ==> Evaluate(ValuesOf(entries)[i], input).Ok?
    ensures EvaluateEntries(entries, input).Ok?
    decreases |entries|
  {
    if entries != [] {
      var front := entries[..|entries| - 1];
      assert forall i :: 0 <= i < |front| ==> ValuesOf(front)[i] == ValuesOf(entries)[i];
      EntriesSucceed(front, input);
      assert Evaluate(ValuesOf(entries)[|entries| - 1], input).Ok?;
    }
  }

  // ---------- the static check

  /** `assertObjectResultExpression`: an object literal, or a choice between such expressions. */
  predicate AssertsObjectResult(e: Expr) {
    match e
    case Object(_) => true
    case Conditional(_, whenTrue, whenFalse) => AssertsObjectResult(whenTrue) && AssertsObjectResult(whenFalse)
    case _ => false
  }

  /** The expression that is left once every condition at the top has been decided. */
  function Taken(e: Expr, input: Json): Expr {
    if !e.Conditional? then e
    else if Evaluate(e.condition, input) == Ok(JBool(true)) then Taken(e.whenTrue, input)
    else Taken(e.whenFalse, input)
  }

  /** Only an object literal gives an object. */
  lemma {:induction false} OnlyObjectsGiveObjects(e: Expr, input: Json)
    requires !e.Conditional? && !input.JObject?
    ensures var r := Evaluate(e, input); r.Ok? ==> (r.value.JObject? <==> e.Object?)
  {
    hide NumberOf, IsNumber, JsonEquals, Compare, Truncated;
  }

  /** The result is that of the branch taken, so it is an object exactly when that branch is an object literal. */
  lemma {:induction false} ObjectExactlyWhenTaken(e: Expr, input: Json)
    requires !input.JObject?
    ensures var r := Evaluate(e, input);
            r.Ok? ==> r == Evaluate(Taken(e, input), input) && (r.value.JObject? <==> Taken(e, input).Object?)
  {
    if e.Conditional? {
      ObjectExactlyWhenTaken(e.whenTrue, input);
      ObjectExactlyWhenTaken(e.whenFalse, input);
    } else {
      OnlyObjectsGiveObjects(e, input);
    }
  }

  lemma {:induction false} AcceptedTakesAnObject(e: Expr, input: Json)
    requires AssertsObjectResult(e)
    ensures Taken(e, input).Object?
  {
    if e.Conditional? {
      AcceptedTakesAnObject(e.whenTrue, input);
      AcceptedTakesAnObject(e.whenFalse, input);
    }
  }

  /** The expressions that the conditions at the top can lead to. */
  function Branches(e: Expr): seq<Expr> {
    if e.Conditional? then Branches(e.whenTrue) + Branches(e.whenFalse) else [e]
  }

  /** The check accepts exactly where every branch is an object literal; a refused branch never gives an object. */
  lemma {:induction false} AcceptsExactly(e: Expr, input: Json)
    requires !input.JObject?
    ensures AssertsObjectResult(e) <==> forall branch :: branch in Branches(e) ==> branch.Object?
    ensures Taken(e, input) in Branches(e)
    ensures forall branch :: branch in Branches(e) && !branch.Object? && Evaluate(branch, input).Ok? ==>
              !Evaluate(branch, input).value.JObject?
  {
    if e.Conditional? {
      AcceptsExactly(e.whenTrue, input);
      AcceptsExactly(e.whenFalse, input);
    } else {
      OnlyObjectsGiveObjects(e, input);
      assert e in Branches(e);
    }
  }

  /** What the static check accepts gives an object or an error, for every input. */
  lemma {:induction false} StaticCheckIsSound(e: Expr, input: Json)
    requires AssertsObjectResult(e)
    ensures var r := EvaluateRestrictedCel(e, input); r.Ok? ==> r.value.JObject?
  {
    if input.JNumber? || input.JString? {
      AcceptedTakesAnObject(e, input);
      ObjectExactlyWhenTaken(e, input);
    }
  }
}
