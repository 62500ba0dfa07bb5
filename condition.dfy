/** The condition evaluator of the conditional-logic engine
    (`_checkCondition`): one field's current value tested against the `if`
    clause of a rule. */
module Condition {
  import opened Text

  /** What `_getFieldValue` can hand back: `null` when no element carries the
      name, a boolean for a single checkbox, a string otherwise. */
  datatype Value = Null | Flag(b: bool) | Str(s: string)

  /** The `if` clause of a rule. */
  datatype Cond = Cond(field: string, operator: string, value: string)

  const Yes: string := "是"
  const No: string := "否"

  /** Checkbox booleans and the stored strings "True"/"False" become the
      display strings 是/否 before any comparison; `null` stays `null`
      (None here). */
  function Normalize(v: Value): (r: Option<string>)
    ensures v == Flag(true) || v == Str("True") ==> r == Some(Yes)
    ensures v == Flag(false) || v == Str("False") ==> r == Some(No)
    ensures v == Null <==> r == None
    ensures v.Str? && v.s != "True" && v.s != "False" ==> r == Some(v.s)
  {
    match v
    case Null => None
    case Flag(b) => Some(if b then Yes else No)
    case Str(s) => if s == "True" then Some(Yes) else if s == "False" then Some(No) else Some(s)
  }

  /** `String(value)`: `null` prints as "null". */
  function AsText(v: Option<string>): string
  {
    match v
    case None => "null"
    case Some(s) => s
  }

  // ---- JavaScript Number() on the strings the form produces ----

  function Pow10(n: nat): (r: nat)
    ensures r >= 1
  {
    if n == 0 then 1 else 10 * Pow10(n - 1)
  }

  function LeadingDigits(s: string): (n: nat)
    ensures n <= |s|
    ensures forall i :: 0 <= i < n ==> IsDigit(s[i])
    ensures n == |s| || !IsDigit(s[n])
  {
    if s != [] && IsDigit(s[0]) then 1 + LeadingDigits(s[1..]) else 0
  }

  /** An unsigned decimal: digits, optionally a point and more digits, with at
      least one digit in all ("7", "7.", ".5", "7.25"). */
  function ParseUnsigned(t: string): Option<real>
  {
    var n := LeadingDigits(t);
    var whole := t[..n];
    if n == |t| then
      if n == 0 then None else Some(DigitsValue(whole) as real)
    else if t[n] != '.' then None
    else
      var frac := t[n + 1..];
      if n + |frac| == 0 || LeadingDigits(frac) != |frac| then None
      else Some(DigitsValue(whole) as real + DigitsValue(frac) as real / Pow10(|frac|) as real)
  }

  /** `Number(s)` for decimal notation: surrounding white space is ignored, the
      empty string is 0, a leading sign is allowed; anything else is NaN
      (None). */
  function ParseNumber(s: string): Option<real>
  {
    var t := TrimJs(s);
    if t == [] then Some(0.0)
    else if t[0] == '-' then
      match ParseUnsigned(t[1..])
      case None => None
      case Some(x) => Some(-x)
    else if t[0] == '+' then ParseUnsigned(t[1..])
    else ParseUnsigned(t)
  }

  /** `Number(value)` for the normalised value: `Number(null)` is 0. */
  function ToNumber(v: Option<string>): Option<real>
  {
    match v
    case None => Some(0.0)
    case Some(s) => ParseNumber(s)
  }

  /** The operators `_checkCondition` recognises; any other name is
      `UnknownOp`. */
  datatype Operator =
    | EqualsOp | NotEqualsOp | ContainsOp | NotContainsOp | IsEmptyOp | IsNotEmptyOp
    | GreaterThanOp | LessThanOp | GreaterOrEqualOp | LessOrEqualOp | UnknownOp

  function OperatorOf(op: string): Operator
  {
    if op == "equals" then EqualsOp
    else if op == "not_equals" then NotEqualsOp
    else if op == "contains" then ContainsOp
    else if op == "not_contains" then NotContainsOp
    else if op == "is_empty" then IsEmptyOp
    else if op == "is_not_empty" then IsNotEmptyOp
    else if op == "greater_than" then GreaterThanOp
    else if op == "less_than" then LessThanOp
    else if op == "greater_than_or_equals" then GreaterOrEqualOp
    else if op == "less_than_or_equals" then LessOrEqualOp
    else UnknownOp
  }

  predicate IsNumeric(op: Operator)
  {
    op.GreaterThanOp? || op.LessThanOp? || op.GreaterOrEqualOp? || op.LessOrEqualOp?
  }

  predicate IsNumericOperator(op: string)
  {
    IsNumeric(OperatorOf(op))
  }

  predicate IsKnownOperator(op: string)
  {
    OperatorOf(op) != UnknownOp
  }

  /** The numeric comparison `Number(a) op Number(b)`; NaN on either side
      makes it false. */
  function CompareNumbers(op: Operator, a: Option<real>, b: Option<real>): (r: bool)
    ensures a.None? || b.None? ==> !r
  {
    if a.None? || b.None? then false
    else match op
      case GreaterThanOp => a.value > b.value
      case LessThanOp => a.value < b.value
      case GreaterOrEqualOp => a.value >= b.value
      case LessOrEqualOp => a.value <= b.value
      case _ => false
  }

  /** The test of one operator on a normalised value. */
  function Holds(op: Operator, v: Option<string>, value: string): bool
  {
    match op
    case EqualsOp => v == Some(value)
    case NotEqualsOp => v != Some(value)
    case ContainsOp => Contains(AsText(v), value)
    case NotContainsOp => !Contains(AsText(v), value)
    case IsEmptyOp => v == None || v == Some("")
    case IsNotEmptyOp => v != None && v != Some("")
    case UnknownOp => false
    case _ => CompareNumbers(op, ToNumber(v), ParseNumber(value))
  }

  /** `_checkCondition`: the raw field value is normalised, then tested with
      the clause's operator against the clause's value. */
  function Check(raw: Value, c: Cond): bool
  {
    Holds(OperatorOf(c.operator), Normalize(raw), c.value)
  }

  // ---- properties ----

  /** A checked checkbox, an unchecked one and the stored strings "True" and
      "False" compare as 是 and 否. */
  lemma CheckboxNormalised(c: Cond)
    requires c.operator == "equals"
    ensures Check(Flag(true), c) <==> c.value == Yes
    ensures Check(Str("True"), c) <==> c.value == Yes
    ensures Check(Flag(false), c) <==> c.value == No
    ensures Check(Str("False"), c) <==> c.value == No
  {
  }

  /** is_empty holds exactly for `null` and ""; is_not_empty is its negation,
      so "0" and 否 are not empty. */
  lemma EmptinessExact(raw: Value, c: Cond, d: Cond)
    requires c.operator == "is_empty" && d.operator == "is_not_empty"
    ensures Check(raw, c) <==> raw == Null || raw == Str("")
    ensures Check(raw, d) <==> !Check(raw, c)
    ensures !Check(Str("0"), c) && !Check(Str(No), c) && !Check(Flag(false), c)
  {
  }

  /** An operator the evaluator does not know makes the condition false. */
  lemma UnknownOperatorFalse(raw: Value, c: Cond)
    requires !IsKnownOperator(c.operator)
    ensures !Check(raw, c)
  {
  }

  /** not_equals and not_contains are the exact negations of equals and
      contains. */
  lemma NegatedOperators(raw: Value, field: string, value: string)
    ensures Check(raw, Cond(field, "not_equals", value)) == !Check(raw, Cond(field, "equals", value))
    ensures Check(raw, Cond(field, "not_contains", value)) == !Check(raw, Cond(field, "contains", value))
  {
  }

  /** A numeric operator on text that is not a number is false, whatever the
      other side is. */
  lemma NumericNaNFalse(s: string, c: Cond)
    requires IsNumericOperator(c.operator)
    requires ParseNumber(s) == None && s != "True" && s != "False"
    ensures !Check(Str(s), c)
  {
    CheckNumeric(Str(s), c);
  }

  /** The digits end where the first non-digit is. */
  lemma {:induction false} LeadingDigitsUpTo(s: string, n: nat)
    requires n < |s| && !IsDigit(s[n])
    requires forall i :: 0 <= i < n ==> IsDigit(s[i])
    ensures LeadingDigits(s) == n
    decreases n
  {
    if n > 0 {
      assert forall i :: 0 <= i < n - 1 ==> s[1..][i] == s[i + 1];
      LeadingDigitsUpTo(s[1..], n - 1);
    }
  }

  lemma {:induction false} LeadingDigitsAll(y: string)
    requires forall i :: 0 <= i < |y| ==> IsDigit(y[i])
    ensures LeadingDigits(y) == |y|
    decreases |y|
  {
    if y != [] {
      assert forall i :: 0 <= i < |y| - 1 ==> y[1..][i] == y[i + 1];
      LeadingDigitsAll(y[1..]);
    }
  }

  /** A rendered natural number reads back as that number. */
  lemma NaturalsParse(n: nat)
    ensures ParseNumber(NatToString(n)) == Some(n as real)
  {
    var s := NatToString(n);
    TrimUnspaced(s, IsJsSpace);
    NaturalsParseUnsigned(n);
    assert IsDigit(s[0]);
  }

  lemma NaturalsParseUnsigned(n: nat)
    ensures ParseUnsigned(NatToString(n)) == Some(n as real)
  {
    var s := NatToString(n);
    LeadingDigitsAll(s);
    assert s[..|s|] == s;
    NatToStringValue(n);
  }

  lemma HoldsNumeric(op: Operator, v: Option<string>, value: string)
    requires IsNumeric(op)
    ensures Holds(op, v, value) == CompareNumbers(op, ToNumber(v), ParseNumber(value))
  {
  }

  /** A numeric operator compares `Number()` of both sides. */
  lemma CheckNumeric(raw: Value, c: Cond)
    requires IsNumericOperator(c.operator)
    ensures Check(raw, c) == CompareNumbers(OperatorOf(c.operator), ToNumber(Normalize(raw)), ParseNumber(c.value))
  {
    HoldsNumeric(OperatorOf(c.operator), Normalize(raw), c.value);
  }

  /** Text that reads as a number compares by that number. */
  lemma NumbersCompare(x: string, y: string, p: real, q: real, field: string)
    requires x != "True" && x != "False"
    requires ParseNumber(x) == Some(p) && ParseNumber(y) == Some(q)
    ensures Check(Str(x), Cond(field, "greater_than", y)) <==> p > q
    ensures Check(Str(x), Cond(field, "less_than_or_equals", y)) <==> p <= q
  {
    CheckStrNumbers(x, Cond(field, "greater_than", y), p, q);
    CheckStrNumbers(x, Cond(field, "less_than_or_equals", y), p, q);
  }

  /** A numeric operator on text that reads as a number compares that number
      with the number the clause's value reads as. */
  lemma CheckStrNumbers(x: string, c: Cond, p: real, q: real)
    requires x != "True" && x != "False" && IsNumericOperator(c.operator)
    requires ParseNumber(x) == Some(p) && ParseNumber(c.value) == Some(q)
    ensures Check(Str(x), c) == CompareNumbers(OperatorOf(c.operator), Some(p), Some(q))
  {
    assert Normalize(Str(x)) == Some(x);
    HoldsNumeric(OperatorOf(c.operator), Some(x), c.value);
  }

  /** On whole numbers greater_than and less_than_or_equals are the numeric
      order, not the text order ("15" > "9"). */
  lemma WholeNumbersCompareNumerically(a: nat, b: nat, field: string)
    ensures Check(Str(NatToString(a)), Cond(field, "greater_than", NatToString(b))) <==> a > b
    ensures Check(Str(NatToString(a)), Cond(field, "less_than_or_equals", NatToString(b))) <==> a <= b
  {
    var s := NatToString(a);
    NaturalsParse(a);
    NaturalsParse(b);
    assert IsDigit(s[0]);
    NumbersCompare(s, NatToString(b), a as real, b as real, field);
  }

  /** An ISO date such as 2024-01-10 is not a number (JavaScript gives NaN),
      so a numeric operator on a date is always false. */
  lemma {:induction false} DatesAreNotNumbers(year: string, month: string, day: string, c: Cond)
    requires AllDigits(year) && AllDigits(month) && AllDigits(day)
    requires IsNumericOperator(c.operator)
    ensures ParseNumber(year + "-" + month + "-" + day) == None
    ensures !Check(Str(year + "-" + month + "-" + day), c)
  {
    var d := year + "-" + month + "-" + day;
    DateNotNumber(year, month, day);
    assert d != "True" && d != "False" by {
      assert IsDigit(d[0]);
    }
    NumericNaNFalse(d, c);
  }

  lemma DateNotNumber(year: string, month: string, day: string)
    requires AllDigits(year) && AllDigits(month) && AllDigits(day)
    ensures ParseNumber(year + "-" + month + "-" + day) == None
  {
    var d := year + "-" + month + "-" + day;
    assert d[0] == year[0] && d[|d| - 1] == day[|day| - 1];
    TrimUnspaced(d, IsJsSpace);
    DateNotUnsigned(year, month, day);
  }

  lemma DateNotUnsigned(year: string, month: string, day: string)
    requires AllDigits(year)
    ensures ParseUnsigned(year + "-" + month + "-" + day) == None
  {
    var d := year + "-" + month + "-" + day;
    assert forall i :: 0 <= i < |year| ==> d[i] == year[i];
    assert d[|year|] == '-';
    LeadingDigitsUpTo(d, |year|);
  }
}
