/// Left-associativity. An accepted expression is a chain
/// `[-]n0 op1 n1 op2 n2 ... opk nk` of digit runs `ni` joined by operators; its
/// value is the left fold `((n0 op1 n1) op2 n2) ... opk nk`, computed here from
/// left to right, while the evaluator splits from the right.

module LeftFold {
  import opened Digits
  import opened Calc

  datatype Op = Plus | Minus

  /** One `op digits` step after the first operand. */
  datatype Term = Term(op: Op, digits: string)

  /** `negative` is the optional `-` in front of the first operand `head`. */
  datatype Chain = Chain(negative: bool, head: string, tail: seq<Term>)

  function OpChar(op: Op): char {
    match op
    case Plus => '+'
    case Minus => '-'
  }

  predicate ValidTerms(ts: seq<Term>) {
    forall i :: 0 <= i < |ts| ==> IsDigitString(ts[i].digits)
  }

  predicate ValidChain(c: Chain) {
    IsDigitString(c.head) && ValidTerms(c.tail)
  }

  function RenderTerms(ts: seq<Term>): string {
    if ts == [] then [] else [OpChar(ts[0].op)] + ts[0].digits + RenderTerms(ts[1..])
  }

  /** The text of a chain. */
  function Render(c: Chain): string {
    (if c.negative then "-" else "") + c.head + RenderTerms(c.tail)
  }

  function Apply(acc: int, t: Term): int
    requires AllDigits(t.digits)
  {
    match t.op
    case Plus => acc + DigitsValue(t.digits)
    case Minus => acc - DigitsValue(t.digits)
  }

  /** Folds the terms into the accumulator from the left. */
  function FoldTerms(acc: int, ts: seq<Term>): int
    requires ValidTerms(ts)
    decreases |ts|
  {
    if ts == [] then acc else FoldTerms(Apply(acc, ts[0]), ts[1..])
  }

  function HeadValue(c: Chain): int
    requires ValidChain(c)
  {
    if c.negative then -(DigitsValue(c.head) as int) else DigitsValue(c.head)
  }

  /** The left-associative value of a chain. */
  function FoldValue(c: Chain): int
    requires ValidChain(c)
  {
    FoldTerms(HeadValue(c), c.tail)
  }

  lemma {:induction false} RenderTermsSnoc(ts: seq<Term>, t: Term)
    ensures RenderTerms(ts + [t]) == RenderTerms(ts) + [OpChar(t.op)] + t.digits
  {
    if ts != [] {
      assert (ts + [t])[1..] == ts[1..] + [t];
      RenderTermsSnoc(ts[1..], t);
    } else {
      assert [t][1..] == [];
    }
  }

  /** Appending a term to a chain appends its operator and digits to the text. */
  lemma RenderSnoc(c: Chain, t: Term)
    ensures Render(AppendTerm(c, t)) == Render(c) + [OpChar(t.op)] + t.digits
  {
    RenderTermsSnoc(c.tail, t);
  }

  lemma {:induction false} FoldTermsSnoc(acc: int, ts: seq<Term>, t: Term)
    requires ValidTerms(ts) && IsDigitString(t.digits)
    ensures ValidTerms(ts + [t])
    ensures FoldTerms(acc, ts + [t]) == Apply(FoldTerms(acc, ts), t)
    decreases |ts|
  {
    var ts' := ts + [t];
    assert ValidTerms(ts') by {
      forall i | 0 <= i < |ts'| ensures IsDigitString(ts'[i].digits) {
        if i < |ts| { assert ts'[i] == ts[i]; }
      }
    }
    if ts != [] {
      assert ts'[1..] == ts[1..] + [t];
      FoldTermsSnoc(Apply(acc, ts[0]), ts[1..], t);
    } else {
      assert ts'[1..] == [];
    }
  }

  /** A chain of one operand is a numeral. */
  lemma SingleOperandEvaluates(c: Chain)
    requires ValidChain(c) && c.tail == []
    ensures EvaluateRecursive(Render(c)) == Ok(FoldValue(c))
  {
    BaseCase(c.head);
    if c.negative {
      assert Render(c) == "-" + c.head;
    } else {
      assert Render(c) == c.head;
    }
  }

  function AppendTerm(c: Chain, t: Term): Chain {
    Chain(c.negative, c.head, c.tail + [t])
  }

  /** Appending a term to a valid chain applies the term to its left fold. */
  lemma AppendedTermFolds(c: Chain, t: Term)
    requires ValidChain(c) && IsDigitString(t.digits)
    ensures ValidChain(AppendTerm(c, t))
    ensures FoldValue(AppendTerm(c, t)) == Apply(FoldValue(c), t)
  {
    FoldTermsSnoc(HeadValue(c), c.tail, t);
  }

  /** Appending `op digits` to an evaluated chain applies `op` to its value:
      the new operator is the last one, so the evaluator splits there. */
  lemma AppendedTermEvaluates(c: Chain, t: Term)
    requires ValidChain(c) && IsDigitString(t.digits)
    requires EvaluateRecursive(Render(c)) == Ok(FoldValue(c))
    ensures ValidChain(AppendTerm(c, t))
    ensures EvaluateRecursive(Render(AppendTerm(c, t))) == Ok(FoldValue(AppendTerm(c, t)))
  {
    AppendedTermFolds(c, t);
    RenderSnoc(c, t);
    assert |Render(c)| > 0;
    EvaluateAppended(Render(c), OpChar(t.op), t.digits);
  }

  /** Every valid chain evaluates to its left fold: "1-2-3" gives -4. */
  lemma {:induction false} ChainEvaluatesToFold(c: Chain)
    requires ValidChain(c)
    ensures EvaluateRecursive(Render(c)) == Ok(FoldValue(c))
    decreases |c.tail|
  {
    if c.tail == [] {
      SingleOperandEvaluates(c);
    } else {
      var ts, t := c.tail[..|c.tail| - 1], c.tail[|c.tail| - 1];
      assert c.tail == ts + [t];
      var c' := Chain(c.negative, c.head, ts);
      assert ValidTerms(ts) by {
        forall i | 0 <= i < |ts| ensures IsDigitString(ts[i].digits) {
          assert ts[i] == c.tail[i];
        }
      }
      ChainEvaluatesToFold(c');
      AppendedTermEvaluates(c', t);
      assert AppendTerm(c', t) == c;
    }
  }

  /** Every string the evaluator accepts is the text of a valid chain. */
  lemma {:induction false} EvaluatedIsRendered(s: string) returns (c: Chain)
    requires EvaluateRecursive(s).Ok?
    ensures ValidChain(c) && Render(c) == s
    decreases |s|
  {
    if IsNumeral(s) {
      if IsDigitString(s) {
        c := Chain(false, s, []);
      } else {
        c := Chain(true, s[1..], []);
        assert s == "-" + s[1..];
      }
    } else {
      var k := EvaluatedSplit(s);
      var c' := EvaluatedIsRendered(s[..k]);
      var t := Term(if s[k] == '+' then Plus else Minus, s[k + 1..]);
      c := AppendTerm(c', t);
      assert ValidTerms(c.tail) by {
        forall i | 0 <= i < |c.tail| ensures IsDigitString(c.tail[i].digits) {
          if i < |c'.tail| { assert c.tail[i] == c'.tail[i]; }
        }
      }
      RenderSnoc(c', t);
    }
  }

  /** Every string the evaluator accepts is the text of a valid chain, and its
      value is that chain's left fold. */
  lemma EvaluatedIsLeftFold(s: string) returns (c: Chain)
    requires EvaluateRecursive(s).Ok?
    ensures ValidChain(c) && Render(c) == s
    ensures EvaluateRecursive(s) == Ok(FoldValue(c))
  {
    c := EvaluatedIsRendered(s);
    ChainEvaluatesToFold(c);
  }
}
