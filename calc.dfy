/// The calculator of main.py: an evaluator for integer expressions built from
/// decimal literals, `+` and `-`. Every operation of the Python class
/// `Calculadora` is a function here; the one loop (the backward search for the
/// last operator) is also written as a method proved against that function.

module Calc {
  import opened Digits

  datatype Option<T> = None | Some(value: T)

  /** The invalid-expression error the evaluator raises. */
  datatype Error = InvalidExpression

  datatype Result<T> = Ok(value: T) | Err(error: Error)

  predicate IsOperator(c: char) {
    c == '+' || c == '-'
  }

  /** Removes every space character and no other character, keeping the
      order of the characters that remain. */
  function StripSpaces(s: string): (r: string)
    ensures ' ' !in r
    ensures forall c :: c != ' ' ==> multiset(r)[c] == multiset(s)[c]
    ensures ' ' !in s ==> r == s
  {
    if |s| == 0 then []
    else
      assert s == [s[0]] + s[1..];
      assert ' ' !in s ==> ' ' !in s[1..];
      (if s[0] == ' ' then [] else [s[0]]) + StripSpaces(s[1..])
  }

  /** Stripping works character by character: it distributes over concatenation. */
  lemma {:induction false} StripSpacesConcat(a: string, b: string)
    ensures StripSpaces(a + b) == StripSpaces(a) + StripSpaces(b)
  {
    if |a| > 0 {
      assert (a + b)[1..] == a[1..] + b;
      StripSpacesConcat(a[1..], b);
    } else {
      assert a + b == b;
    }
  }

  /** In particular a space between two pieces of text disappears. */
  lemma {:induction false} StripSpacesDropsSpace(a: string, b: string)
    ensures StripSpaces(a + [' '] + b) == StripSpaces(a + b)
  {
    if |a| > 0 {
      assert (a + [' '] + b)[1..] == a[1..] + [' '] + b;
      assert (a + b)[1..] == a[1..] + b;
      StripSpacesDropsSpace(a[1..], b);
    } else {
      assert a + [' '] + b == [' '] + b && a + b == b;
      assert ([' '] + b)[1..] == b;
    }
  }

  /** A `Calculadora` object: its one field, `expressao`, is set once by the
      constructor and never reassigned, so the object is a value. */
  datatype Calculator = Calculator(expression: string)

  /** `Calculadora(expressao)`: the stored expression is the input without spaces. */
  function NewCalculator(input: string): (calculator: Calculator)
    ensures ' ' !in calculator.expression
    ensures forall c :: c != ' ' ==> multiset(calculator.expression)[c] == multiset(input)[c]
    ensures ' ' !in input ==> calculator.expression == input
  {
    Calculator(StripSpaces(input))
  }

  /** The base-case test: a non-empty digit string, or a single `-`
      followed by one. A numeral holds no operator after its first character
      and ends in a digit. */
  function IsNumeral(s: string): (b: bool)
    ensures b ==> |s| > 0 && (IsDigit(s[0]) || s[0] == '-') && IsDigit(s[|s| - 1])
    ensures b ==> forall i :: 0 < i < |s| ==> IsDigit(s[i])
  {
    assert |s| > 1 ==> s[1..][|s| - 2] == s[|s| - 1];
    assert forall i :: 0 < i < |s| ==> s[1..][i - 1] == s[i];
    IsDigitString(s) || (|s| > 0 && s[0] == '-' && IsDigitString(s[1..]))
  }

  /** The integer a numeral denotes: not negative without a leading `-`, not
      positive with one, and below 10^|s| in magnitude. */
  function NumeralValue(s: string): (v: int)
    requires IsNumeral(s)
    ensures s[0] != '-' ==> 0 <= v < Pow10(|s|)
    ensures s[0] == '-' ==> 0 <= -v < Pow10(|s| - 1)
  {
    if IsDigitString(s) then DigitsValue(s) else -(DigitsValue(s[1..]) as int)
  }

  /** The index the backward search stops at: the largest index holding `+`
      or `-`, or nothing when the string holds neither. */
  function LastOperator(s: string): (r: Option<nat>)
    ensures r.Some? ==> r.value < |s| && IsOperator(s[r.value])
    ensures r.Some? ==> forall j :: r.value < j < |s| ==> !IsOperator(s[j])
    ensures r.None? ==> forall j :: 0 <= j < |s| ==> !IsOperator(s[j])
  {
    if |s| == 0 then None
    else if IsOperator(s[|s| - 1]) then Some(|s| - 1)
    else LastOperator(s[..|s| - 1])
  }

  /** The backward search as a loop: it scans from the last index down to the
      first and returns at the first operator it meets. */
  method FindLastOperator(s: string) returns (r: Option<nat>)
    ensures r == LastOperator(s)
  {
    var i: int := |s| - 1;
    while i >= 0
      invariant -1 <= i < |s|
      invariant forall j :: i < j < |s| ==> !IsOperator(s[j])
      decreases i + 1
    {
      if IsOperator(s[i]) {
        return Some(i);
      }
      i := i - 1;
    }
    return None;
  }

  /** Applies the operator found at the split to the two evaluated sides.
      It succeeds exactly when both sides do; `+` adds and `-` subtracts. */
  function Combine(op: char, left: Result<int>, right: Result<int>): (r: Result<int>)
    requires IsOperator(op)
    ensures r.Ok? <==> left.Ok? && right.Ok?
    ensures r.Ok? && op == '+' ==> r.value == left.value + right.value
    ensures r.Ok? && op == '-' ==> r.value == left.value - right.value
  {
    if left.Err? then left
    else if right.Err? then right
    else if op == '+' then Ok(left.value + right.value)
    else Ok(left.value - right.value)
  }

  /** The recursive evaluator: a numeral is its value; otherwise split at the
      last operator and evaluate both sides; with no operator, fail. On
      success the text is non-empty, ends in a digit and does not start with
      `+`. */
  function EvaluateRecursive(s: string): (r: Result<int>)
    ensures r.Ok? ==> |s| > 0 && IsDigit(s[|s| - 1]) && s[0] != '+'
    decreases |s|
  {
    if IsNumeral(s) then Ok(NumeralValue(s))
    else
      match LastOperator(s)
      case None => Err(InvalidExpression)
      case Some(k) => Combine(s[k], EvaluateRecursive(s[..k]), EvaluateRecursive(s[k + 1..]))
  }

  /** Evaluates the stored expression; it reads the calculator and changes
      nothing. On success the stored expression ends in a digit. */
  function Evaluate(calculator: Calculator): (r: Result<int>)
    ensures r.Ok? ==> |calculator.expression| > 0
    ensures r.Ok? ==> IsDigit(calculator.expression[|calculator.expression| - 1])
  {
    EvaluateRecursive(calculator.expression)
  }

  /** The base case: a digit string evaluates to its decimal value, and a
      single `-` before one to the negated value. */
  lemma BaseCase(ds: string)
    requires IsDigitString(ds)
    ensures EvaluateRecursive(ds) == Ok(DigitsValue(ds))
    ensures EvaluateRecursive("-" + ds) == Ok(-(DigitsValue(ds) as int))
  {
    var neg := "-" + ds;
    assert neg[1..] == ds;
    assert !IsDigit(neg[0]);
  }

  /** The recursive case: when the string is no numeral and `k` is the last
      operator, the result combines the evaluations of the two sides. */
  lemma SplitAtLastOperator(s: string, k: nat)
    requires !IsNumeral(s)
    requires k < |s| && IsOperator(s[k])
    requires forall j :: k < j < |s| ==> !IsOperator(s[j])
    ensures EvaluateRecursive(s) == Combine(s[k], EvaluateRecursive(s[..k]), EvaluateRecursive(s[k + 1..]))
  {
    assert LastOperator(s) == Some(k);
  }

  /** Appending `op digits` to a non-empty left side: the evaluator splits at
      the appended operator, so the result applies `op` to the left side's
      result and the digits' value. */
  lemma EvaluateAppended(left: string, op: char, digits: string)
    requires |left| > 0 && IsOperator(op) && IsDigitString(digits)
    ensures EvaluateRecursive(left + [op] + digits)
      == Combine(op, EvaluateRecursive(left), Ok(DigitsValue(digits)))
  {
    var s := left + [op] + digits;
    var k := |left|;
    assert s[..k] == left && s[k] == op && s[k + 1..] == digits;
    assert !IsNumeral(s) by {
      assert !IsDigit(s[k]);
      assert s[1..][k - 1] == s[k];
    }
    assert forall j :: k < j < |s| ==> s[j] == digits[j - k - 1];
    SplitAtLastOperator(s, k);
    BaseCase(digits);
  }

  /** A successful evaluation of a non-numeral split at an operator `k`
      whose left side evaluates and whose right side is a digit string. */
  lemma EvaluatedSplit(s: string) returns (k: nat)
    requires EvaluateRecursive(s).Ok? && !IsNumeral(s)
    ensures 0 < k < |s| && IsOperator(s[k]) && LastOperator(s) == Some(k)
    ensures s == s[..k] + [s[k]] + s[k + 1..]
    ensures EvaluateRecursive(s[..k]).Ok?
    ensures IsDigitString(s[k + 1..])
  {
    k := LastOperator(s).value;
    var left, right := s[..k], s[k + 1..];
    assert EvaluateRecursive(left).Ok? && EvaluateRecursive(right).Ok?;
    assert forall j :: 0 <= j < |right| ==> right[j] == s[k + 1 + j];
    assert LastOperator(right).None?;
    assert s == left + [s[k]] + right;
  }
}
