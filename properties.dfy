/// What `Calculadora(expressao).evaluate()` computes, for any input text:
/// spaces never matter, success is decided by the stripped characters, the
/// value is the left fold of the operands, and the decimal text of any integer
/// evaluates back to that integer.

module Properties {
  import opened Digits
  import opened Calc
  import opened Syntax
  import opened LeftFold

  /** A space may be inserted anywhere, even between two digits, without
      changing the result: "1 2" is read as "12". */
  lemma SpaceIsIgnored(a: string, b: string)
    ensures Evaluate(NewCalculator(a + [' '] + b)) == Evaluate(NewCalculator(a + b))
  {
    StripSpacesDropsSpace(a, b);
    assert NewCalculator(a + [' '] + b) == NewCalculator(a + b);
  }

  /** Evaluation succeeds exactly when the input without spaces is well formed. */
  lemma EvaluateSucceedsIff(input: string)
    ensures Evaluate(NewCalculator(input)).Ok? <==> WellFormed(StripSpaces(input))
  {
    EvaluatesIffWellFormed(StripSpaces(input));
  }

  /** A successful evaluation is the left fold of the operand chain that the
      input without spaces spells. */
  lemma EvaluateIsLeftFold(input: string) returns (c: Chain)
    requires Evaluate(NewCalculator(input)).Ok?
    ensures ValidChain(c) && Render(c) == StripSpaces(input)
    ensures Evaluate(NewCalculator(input)) == Ok(FoldValue(c))
  {
    c := EvaluatedIsLeftFold(StripSpaces(input));
  }

  /** The decimal text of an integer, as `str(n)` writes it. */
  function ShowInt(n: int): (s: string)
    ensures IsNumeral(s)
  {
    if n < 0 then "-" + ShowNat(-n) else ShowNat(n)
  }

  /** Every integer is the value of its own decimal text. */
  lemma DecimalTextRoundTrip(n: int)
    ensures Evaluate(NewCalculator(ShowInt(n))) == Ok(n)
  {
    var s := ShowInt(n);
    assert ' ' !in s by {
      assert forall i :: 0 <= i < |s| ==> s[i] == '-' || IsDigit(s[i]);
    }
    if n < 0 {
      ShowNatRoundTrip(-n);
      BaseCase(ShowNat(-n));
    } else {
      ShowNatRoundTrip(n);
      BaseCase(ShowNat(n));
    }
  }

  /** Subtraction groups to the left: `x-y-z` is `(x-y)-z`, which differs
      from `x-(y-z)` whenever `z` is not zero. */
  lemma SubtractionGroupsLeft(x: string, y: string, z: string)
    requires IsDigitString(x) && IsDigitString(y) && IsDigitString(z)
    ensures EvaluateRecursive(x + "-" + y + "-" + z)
      == Ok((DigitsValue(x) - DigitsValue(y)) - DigitsValue(z))
  {
    EvaluateAppended(x, '-', y);
    BaseCase(x);
    assert x + "-" + y == x + ['-'] + y;
    assert x + "-" + y + "-" + z == (x + "-" + y) + ['-'] + z;
    EvaluateAppended(x + "-" + y, '-', z);
  }

  // Worked examples, each about the text its parameter is required to equal.

  /** "1-2-3" is (1-2)-3 = -4, not 1-(2-3) = 2. */
  lemma ExampleLeftAssociative(s: string)
    requires s == "1-2-3"
    ensures EvaluateRecursive(s) == Ok(-4)
  {
    assert s == "1" + "-" + "2" + "-" + "3";
    SubtractionGroupsLeft("1", "2", "3");
    assert DigitsValue("1") == 1 && DigitsValue("2") == 2 && DigitsValue("3") == 3;
  }

  /** Leading zeros are allowed: "007" is 7. */
  lemma ExampleLeadingZeros(s: string)
    requires s == "007"
    ensures EvaluateRecursive(s) == Ok(7)
  {
    BaseCase(s);
    LeadingZeros("00", "7");
    assert "00" + "7" == s;
    assert DigitsValue("7") == 7;
  }

  /** A leading minus belongs to the first operand: "-1-2" is -3. */
  lemma ExampleLeadingMinus(s: string)
    requires s == "-1-2"
    ensures EvaluateRecursive(s) == Ok(-3)
  {
    var c := Chain(true, "1", [Term(Minus, "2")]);
    assert Render(c) == s;
    ChainEvaluatesToFold(c);
    assert DigitsValue("1") == 1 && DigitsValue("2") == 2;
  }

  /** A trailing operator, a doubled operator and an operator the calculator
      does not know all fail. */
  lemma ExampleFailures(trailing: string, doubled: string, signed: string, times: string)
    requires trailing == "1+" && doubled == "1--2" && signed == "3+-5" && times == "2*3"
    ensures EvaluateRecursive(trailing).Err?
    ensures EvaluateRecursive(doubled).Err?
    ensures EvaluateRecursive(signed).Err?
    ensures EvaluateRecursive(times).Err?
  {
    TrailingOperatorFails(trailing);
    DoubledOperatorFails(doubled, 2);
    DoubledOperatorFails(signed, 2);
    StrayCharacterFails(times, 1);
  }

  /** "12+3" is 15. */
  lemma ExampleSum(s: string)
    requires s == "12+3"
    ensures EvaluateRecursive(s) == Ok(15)
  {
    assert s == "12" + ['+'] + "3";
    EvaluateAppended("12", '+', "3");
    BaseCase("12");
    assert DigitsValue("12") == 12 && DigitsValue("3") == 3;
  }

  /** Spaces go before evaluation, so "1 2+3" is stored as "12+3", which is 15. */
  lemma ExampleSpacesJoinDigits(input: string)
    requires input == "1 2+3"
    ensures NewCalculator(input).expression == "12+3"
    ensures Evaluate(NewCalculator(input)) == Ok(15)
  {
    assert StripSpaces(input) == "12+3" by {
      assert input == "1" + [' '] + "2+3";
      StripSpacesDropsSpace("1", "2+3");
      assert "1" + "2+3" == "12+3";
    }
    ExampleSum(NewCalculator(input).expression);
  }

  /** A tab is not a space: it stays in the expression and makes it fail. */
  lemma ExampleTabIsKept(input: string)
    requires input == "1\t+2"
    ensures Evaluate(NewCalculator(input)).Err?
  {
    assert ' ' !in input;
    StrayCharacterFails(input, 1);
  }
}
