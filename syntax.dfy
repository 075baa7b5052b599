/// Which strings the calculator accepts. `WellFormed` describes them character
/// by character, with no reference to the evaluator: only digits and
/// operators, a digit at the end, no `+` at the start, and a digit before every
/// operator except a `-` in first position. The evaluator succeeds on exactly
/// these strings.

module Syntax {
  import opened Digits
  import opened Calc

  predicate AllowedChars(s: string) {
    forall i :: 0 <= i < |s| ==> IsDigit(s[i]) || IsOperator(s[i])
  }

  predicate WellFormed(s: string) {
    && |s| > 0
    && AllowedChars(s)
    && s[0] != '+'
    && IsDigit(s[|s| - 1])
    && (forall i :: 0 < i < |s| && IsOperator(s[i]) ==> IsDigit(s[i - 1]))
  }

  /** With no operator in it, a well-formed string is a plain digit string. */
  lemma NoOperatorIsDigits(s: string)
    requires WellFormed(s)
    ensures LastOperator(s).None? ==> IsDigitString(s)
  {
  }

  /** A well-formed string whose only operator is a leading `-` is a numeral. */
  lemma LeadingMinusIsNumeral(s: string)
    requires WellFormed(s)
    ensures (s[0] == '-' && forall j :: 0 < j < |s| ==> !IsOperator(s[j])) ==> IsNumeral(s)
  {
    if s[0] == '-' && forall j :: 0 < j < |s| ==> !IsOperator(s[j]) {
      assert |s| > 1;
      assert forall j :: 0 <= j < |s| - 1 ==> s[1..][j] == s[j + 1];
    }
  }

  /** Joining a well-formed left side and a digit string with an operator. */
  lemma WellFormedJoin(left: string, op: char, right: string)
    requires WellFormed(left) && IsOperator(op) && IsDigitString(right)
    ensures WellFormed(left + [op] + right)
  {
    var s := left + [op] + right;
    assert forall i :: 0 <= i < |left| ==> s[i] == left[i];
    assert s[|left|] == op;
    assert forall i :: |left| < i < |s| ==> s[i] == right[i - |left| - 1];
  }

  /** Splitting a well-formed non-numeral at its last operator leaves a
      well-formed left side and a digit string on the right. */
  lemma WellFormedSplit(s: string, k: nat)
    requires WellFormed(s) && !IsNumeral(s)
    requires LastOperator(s) == Some(k)
    ensures 0 < k
    ensures WellFormed(s[..k])
    ensures IsDigitString(s[k + 1..])
  {
    LeadingMinusIsNumeral(s);
    assert 0 < k;
    var right := s[k + 1..];
    assert forall j :: 0 <= j < |right| ==> right[j] == s[k + 1 + j];
  }

  /** Every string the evaluator accepts is well formed. */
  lemma {:induction false} EvaluatedIsWellFormed(s: string)
    requires EvaluateRecursive(s).Ok?
    ensures WellFormed(s)
    decreases |s|
  {
    if IsNumeral(s) {
      if !IsDigitString(s) {
        assert forall i :: 0 < i < |s| ==> s[i] == s[1..][i - 1];
      }
    } else {
      var k := EvaluatedSplit(s);
      EvaluatedIsWellFormed(s[..k]);
      WellFormedJoin(s[..k], s[k], s[k + 1..]);
    }
  }

  /** Every well-formed string is accepted by the evaluator. */
  lemma {:induction false} WellFormedEvaluates(s: string)
    requires WellFormed(s)
    ensures EvaluateRecursive(s).Ok?
    decreases |s|
  {
    if !IsNumeral(s) {
      NoOperatorIsDigits(s);
      var k := LastOperator(s).value;
      WellFormedSplit(s, k);
      WellFormedEvaluates(s[..k]);
      BaseCase(s[k + 1..]);
    }
  }

  /** Success depends on the characters alone: the evaluator accepts a string
      if and only if it is well formed. */
  lemma EvaluatesIffWellFormed(s: string)
    ensures EvaluateRecursive(s).Ok? <==> WellFormed(s)
  {
    if EvaluateRecursive(s).Ok? { EvaluatedIsWellFormed(s); }
    if WellFormed(s) { WellFormedEvaluates(s); }
  }

  /** The empty string and a lone `-` fail. */
  lemma EmptyAndLoneMinusFail()
    ensures EvaluateRecursive("").Err?
    ensures EvaluateRecursive("-").Err?
  {
    EvaluatesIffWellFormed("-");
  }

  /** A character that is neither a digit, `+` nor `-` makes evaluation fail,
      wherever it stands (a tab, a `*`, a letter). */
  lemma StrayCharacterFails(s: string, i: nat)
    requires i < |s| && !IsDigit(s[i]) && !IsOperator(s[i])
    ensures EvaluateRecursive(s).Err?
  {
    EvaluatesIffWellFormed(s);
  }

  /** A trailing operator makes evaluation fail ("1+", "-"). */
  lemma TrailingOperatorFails(s: string)
    requires |s| > 0 && IsOperator(s[|s| - 1])
    ensures EvaluateRecursive(s).Err?
  {
    EvaluatesIffWellFormed(s);
  }

  /** Two adjacent operators make evaluation fail ("1--2", "3+-5"): a `-`
      sign is accepted only in front of the first operand. */
  lemma DoubledOperatorFails(s: string, i: nat)
    requires 0 < i < |s| && IsOperator(s[i - 1]) && IsOperator(s[i])
    ensures EvaluateRecursive(s).Err?
  {
    EvaluatesIffWellFormed(s);
  }

  /** A leading `+` makes evaluation fail ("+1"). */
  lemma LeadingPlusFails(s: string)
    requires |s| > 0 && s[0] == '+'
    ensures EvaluateRecursive(s).Err?
  {
    EvaluatesIffWellFormed(s);
  }
}
