# Calculadora: a verified model of a `+`/`-` expression evaluator

This project models the calculator class `Calculadora` of `main.py`. It
evaluates integer expressions made of decimal literals joined by `+` and `-`.

- The constructor stores the input with every space character removed.
- `evaluate` runs the recursive evaluator on the stored text.
- The recursive evaluator accepts a *numeral* (a digit string, optionally
  preceded by one `-`) and returns its value. Otherwise it searches backwards
  for the last `+` or `-`, evaluates the text on each side, and adds or
  subtracts. If there is no operator, it raises an error.

The model is pure, like the source. The object's only field is assigned once
and never changed, so `Calculator` is an immutable datatype. `Evaluate` is a
function of it, so evaluation cannot change the stored expression and always
gives the same result for it. The error the source raises becomes
`Err(InvalidExpression)` of a `Result<int>`. The backward search is written
twice: as the function `LastOperator`, which the evaluator uses, and as the
method `FindLastOperator`, which keeps the source's loop and is proved equal to
the function.

Modules:

- `Digits` (digits.dfy): ASCII digit strings, their decimal value (`int(...)`),
  leading zeros, and the decimal text of a natural number.
- `Calc` (calc.dfy): space stripping, the calculator value, the base-case test,
  the last-operator search (function and loop), and the recursive evaluator,
  with lemmas for the base case and the split.
- `Syntax` (syntax.dfy): `WellFormed`, a character-level description of the
  accepted strings that does not mention the evaluator. The evaluator succeeds
  exactly on these strings. The failure cases follow from that.
- `LeftFold` (leftfold.dfy): operand chains `[-]n0 op1 n1 ... opk nk` and their
  left fold. Every valid chain evaluates to its left fold, and every accepted
  string is the text of such a chain. So splitting at the rightmost operator
  makes evaluation left-associative.
- `Properties` (properties.dfy): statements about the whole calculator. Spaces
  never matter. Success depends on the stripped text alone. The value is a left
  fold. Every integer's decimal text evaluates back to it. Worked examples are
  included.

## Model

| member | source | states |
|---|---|---|
| `Digits.DigitsValue` | main.py:19 | the value of an n-digit numeral is a natural number below 10^n |
| `Digits.DigitsValueCons` | main.py:19 | the leading digit contributes its digit value times 10^(number of digits after it), plus the value of the rest |
| `Digits.LeadingZeros` | main.py:18-19 | any run of leading `0`s leaves the value unchanged ("007" is 7) |
| `Digits.ShowNatRoundTrip` | main.py:19 | reading back the decimal text of any natural number gives that number |
| `Calc.StripSpaces` | main.py:6 | the result holds no space, holds every non-space character as often as the input does (tabs included), and is the input itself when the input has no space |
| `Calc.StripSpacesConcat` | main.py:6 | stripping distributes over concatenation, so the remaining characters keep their order |
| `Calc.StripSpacesDropsSpace` | main.py:6 | one space between two texts disappears without trace |
| `Calc.NewCalculator` | main.py:4-6 | the stored expression holds no space, keeps every other character with its multiplicity, and is the input unchanged when the input has no space |
| `Calc.IsNumeral` | main.py:18 | the base-case test; a string that passes it is non-empty, starts with a digit or `-`, holds only digits after its first character and ends in a digit. The base case is stated by `Calc.BaseCase` |
| `Calc.NumeralValue` | main.py:19 | `int(expr)` on a numeral; the value is not negative without a leading `-`, not positive with one, and its magnitude is below 10 to the number of digits. Its exact value is stated by `Calc.BaseCase` with `Digits.DigitsValueCons` |
| `Calc.Combine` | main.py:22-25 | the operator table applied at main.py:34; the result succeeds exactly when both sides do, `+` adds and `-` subtracts |
| `Calc.EvaluateRecursive` | main.py:12-37 | `_evaluate_recursive`; on success the text is non-empty, ends in a digit and does not start with `+`. Its full behaviour is stated by `Calc.BaseCase`, `Calc.SplitAtLastOperator`, `Syntax.EvaluatesIffWellFormed` and `LeftFold.EvaluatedIsLeftFold` |
| `Calc.Evaluate` | main.py:8-10 | `evaluate` on the stored expression; on success that expression is non-empty and ends in a digit. Its behaviour is stated by `Properties.EvaluateSucceedsIff`, `Properties.EvaluateIsLeftFold` and `Properties.SpaceIsIgnored` |
| `Calc.LastOperator` | main.py:28-29 | the result is the largest index holding `+` or `-`, or nothing exactly when no index holds one |
| `Calc.FindLastOperator` | main.py:28-29 | the backward loop returns at the first operator met from the right, which is the index `LastOperator` gives |
| `Calc.BaseCase` | main.py:18-19 | a non-empty digit string evaluates to its decimal value, and `-` followed by one to the negated value |
| `Calc.SplitAtLastOperator` | main.py:28-34 | for a non-numeral whose last operator is at `k`, the result combines the results of the text before `k` and the text after `k` by that operator |
| `Calc.EvaluateAppended` | main.py:28-34 | appending `op digits` to a non-empty text applies `op` to that text's result and the digits' value |
| `Calc.EvaluatedSplit` | main.py:28-37 | a successful non-numeral splits at its last operator, at an index above 0, with a successful left side and a plain digit string on the right |
| `Syntax.EvaluatedIsWellFormed` | main.py:12-37 | every string that evaluates successfully is well formed |
| `Syntax.WellFormedEvaluates` | main.py:12-37 | every well-formed string evaluates successfully |
| `Syntax.EvaluatesIffWellFormed` | main.py:12-37 | evaluation succeeds if and only if the string is well formed, so success depends only on the characters |
| `Syntax.EmptyAndLoneMinusFail` | main.py:18-37 | the empty string and a lone `-` fail |
| `Syntax.StrayCharacterFails` | main.py:18-37 | a character other than a digit, `+` or `-`, anywhere in the string, makes evaluation fail |
| `Syntax.TrailingOperatorFails` | main.py:28-37 | a string ending in `+` or `-` fails |
| `Syntax.DoubledOperatorFails` | main.py:18-37 | two adjacent operators make evaluation fail, so a sign is accepted only on the first operand |
| `Syntax.LeadingPlusFails` | main.py:18-37 | a string starting with `+` fails |
| `LeftFold.SingleOperandEvaluates` | main.py:18-19 | a chain with a single operand evaluates to that operand's signed value |
| `LeftFold.AppendedTermEvaluates` | main.py:28-34 | appending `op digits` to a chain that evaluates to its left fold gives a chain that evaluates to its own left fold |
| `LeftFold.ChainEvaluatesToFold` | main.py:15 | the text of every valid chain `[-]n0 op1 n1 ... opk nk` evaluates to the left fold `((n0 op1 n1) ...) opk nk` |
| `LeftFold.EvaluatedIsRendered` | main.py:12-37 | every string that evaluates successfully is the text of a valid chain |
| `LeftFold.EvaluatedIsLeftFold` | main.py:12-37 | every successful result is the left fold of the chain the string spells |
| `Properties.SpaceIsIgnored` | main.py:4-10 | inserting a space anywhere, even between two digits, leaves the calculator's result unchanged |
| `Properties.EvaluateSucceedsIff` | main.py:6-37 | `evaluate` succeeds if and only if the input without spaces is well formed |
| `Properties.EvaluateIsLeftFold` | main.py:6-37 | a successful `evaluate` returns the left fold of the chain spelled by the input without spaces |
| `Properties.DecimalTextRoundTrip` | main.py:18-19 | the decimal text of any integer, negative ones included, evaluates to that integer |
| `Properties.SubtractionGroupsLeft` | main.py:28-34 | `x-y-z` evaluates to `(x-y)-z` for all digit strings `x`, `y`, `z` |
| `Properties.ExampleLeftAssociative` | main.py:15 | "1-2-3" evaluates to -4 |
| `Properties.ExampleLeadingZeros` | main.py:18-19 | "007" evaluates to 7 |
| `Properties.ExampleLeadingMinus` | main.py:18-19 | "-1-2" evaluates to -3 |
| `Properties.ExampleFailures` | main.py:28-37 | "1+", "1--2", "3+-5" and "2*3" fail |
| `Properties.ExampleSum` | main.py:28-34 | "12+3" evaluates to 15 |
| `Properties.ExampleSpacesJoinDigits` | main.py:6-10 | "1 2+3" is stored as "12+3" and evaluates to 15 |
| `Properties.ExampleTabIsKept` | main.py:6 | a tab is not stripped, so "1\t+2" fails |

## Left out

- The command-line block (main.py:39-51) is not modelled. It reads the argument, prints the result or the error message, and exits; this is I/O.
- The text of the error message and the Python exception type are not modelled. Every failure is the single value `Err(InvalidExpression)`.
- Python's `str.isdigit` accepts non-ASCII digits, and `int` accepts some of them (for example Arabic-Indic digits). The model accepts only the ASCII digits `0`-`9`. On ASCII text the model and the source agree, except for the two limits below.
- Python's recursion limit is not modelled. The recursion depth grows with the number of operators, so very long expressions raise `RecursionError` in the source; the model evaluates them.
- The limit that recent Python versions put on `int()` of very long digit strings (4300 digits by default) is not modelled. The model gives the exact value.
- The order in which the source evaluates the two sides is not modelled. It evaluates the left side first, but both sides are pure and any failure raises the same error, so the order does not change the result.
- The lexer, parser, symbol table and statement evaluator of the larger statement-language interpreter are not part of this model.
