/**
 `evaluate` (script.js:189-193): the three stages composed, with each
 stage's exception passed through to the caller.
 */
module Pipeline {
  import opened Text
  import opened Tokens
  import opened Numbers
  import opened Lexer
  import opened Shunting
  import opened Evaluator
  import opened Syntax

  /** `evaluate(s)`: scan, reorder to postfix, evaluate. Which stage fails is
      decided by the text alone: an unknown character is reported first, then
      unbalanced parentheses; "Invalid RPN" never escapes, because `toRPN`
      removes every parenthesis. */
  function Evaluate(s: string): (r: Result<Num>)
    ensures (r.Err? && r.error == InvalidCharacter) <==> !AllExpressionChars(s)
    ensures (r.Err? && r.error == MismatchedParentheses) <==>
      (AllExpressionChars(s) && !Balanced(Tokenize(s).value))
    ensures r.Err? ==> r.error != InvalidRpn
  {
    var ts :- Tokenize(s);
    var rpn :- ToRpn(ts);
    EvalRpn(rpn)
  }

  /** Text that scans to the printing of a well-formed tree evaluates to the
      tree's value: precedence, left association and grouping are those of
      ordinary arithmetic. */
  lemma EvaluatesTree(s: string, e: Expr)
    requires WellFormed(e)
    requires Tokenize(s) == Ok(Infix(e))
    ensures Evaluate(s) == Ok(Value(e))
  {
    EvaluatesToValue(e);
  }

  /** Evaluation succeeds exactly when the text has only expression
      characters, its tokens balance, the postfix form never runs out of
      operands, and the tokens hold one more number than operators. */
  lemma EvaluateSucceeds(s: string)
    ensures Evaluate(s).Ok? <==>
      && AllExpressionChars(s)
      && Balanced(Tokenize(s).value)
      && StackSafe(ToRpn(Tokenize(s).value).value, 0)
      && |NumbersOf(Tokenize(s).value)| == |OperatorsOf(Tokenize(s).value)| + 1
  {
    if AllExpressionChars(s) && Balanced(Tokenize(s).value) {
      ToRpnConserves(Tokenize(s).value);
    }
  }

  /** "2+3*4" is 14: multiplication first. */
  lemma PrecedenceExample(s: string)
    requires s == "2+3*4"
    ensures Evaluate(s) == Ok(Fin(14.0))
  {
    var t2, t3, t4 := Number(Fin(2.0)), Number(Fin(3.0)), Number(Fin(4.0));
    var tp, tm := Operator(Add), Operator(Mul);
    var e := Bin(Add, Lit(Fin(2.0)), Bin(Mul, Lit(Fin(3.0)), Lit(Fin(4.0))));
    assert Infix(e) == [t2, tp, t3, tm, t4] by {
      assert Infix(e.right) == [t3, tm, t4];
      assert Infix(e) == [t2] + [tp] + [t3, tm, t4];
    }
    assert Evaluate(s) == Ok(Value(e)) by {
      TokenizePrecedence(s);
      EvaluatesTree(s, e);
    }
    assert Value(e) == Fin(14.0);
  }

  /** "(2+3)*4" is 20: a group is evaluated first. */
  lemma GroupingExample(s: string)
    requires s == "(2+3)*4"
    ensures Evaluate(s) == Ok(Fin(20.0))
  {
    var t2, t3, t4 := Number(Fin(2.0)), Number(Fin(3.0)), Number(Fin(4.0));
    var tp, tm := Operator(Add), Operator(Mul);
    var sum := Bin(Add, Lit(Fin(2.0)), Lit(Fin(3.0)));
    var e := Bin(Mul, Group(sum), Lit(Fin(4.0)));
    assert Infix(e) == [LParen, t2, tp, t3, RParen, tm, t4] by {
      assert Infix(sum) == [t2, tp, t3];
      assert Infix(Group(sum)) == [LParen] + [t2, tp, t3] + [RParen];
      assert Infix(e) == [LParen, t2, tp, t3, RParen] + [tm] + [t4];
    }
    assert Evaluate(s) == Ok(Value(e)) by {
      TokenizeGrouping(s);
      EvaluatesTree(s, e);
    }
    assert Value(e) == Fin(20.0);
  }

  /** A leading minus is fused into the first number: "-5+3" is -2. */
  lemma LeadingMinusExample(s: string)
    requires s == "-5+3"
    ensures Evaluate(s) == Ok(Fin(-2.0))
  {
    var t5, t3, tp := Number(Fin(-5.0)), Number(Fin(3.0)), Operator(Add);
    var e := Bin(Add, Lit(Fin(-5.0)), Lit(Fin(3.0)));
    assert Infix(e) == [t5, tp, t3] by {
      assert Infix(e) == [t5] + [tp] + [t3];
    }
    assert Evaluate(s) == Ok(Value(e)) by {
      TokenizeLeadingMinus(s);
      EvaluatesTree(s, e);
    }
    assert Value(e) == Fin(-2.0);
  }

  /** A `-` after an operator is a sign: "3--2" is 3 - (-2), that is 5. */
  lemma DoubleMinusExample(s: string)
    requires s == "3--2"
    ensures Evaluate(s) == Ok(Fin(5.0))
  {
    var t3, tm, t2 := Number(Fin(3.0)), Operator(Sub), Number(Fin(-2.0));
    var e := Bin(Sub, Lit(Fin(3.0)), Lit(Fin(-2.0)));
    assert Infix(e) == [t3, tm, t2] by {
      assert Infix(e) == [t3] + [tm] + [t2];
    }
    assert Evaluate(s) == Ok(Value(e)) by {
      DoubleMinus(s);
      EvaluatesTree(s, e);
    }
    assert Value(e) == Fin(5.0);
  }

  /** "3*-2" is -6: the sign binds to the number, not as a subtraction. */
  lemma TimesNegativeExample(s: string)
    requires s == "3*-2"
    ensures Evaluate(s) == Ok(Fin(-6.0))
  {
    var t3, tm, t2 := Number(Fin(3.0)), Operator(Mul), Number(Fin(-2.0));
    var e := Bin(Mul, Lit(Fin(3.0)), Lit(Fin(-2.0)));
    assert Infix(e) == [t3, tm, t2] by {
      assert Infix(e) == [t3] + [tm] + [t2];
    }
    assert Evaluate(s) == Ok(Value(e)) by {
      TimesNegative(s);
      EvaluatesTree(s, e);
    }
    assert Value(e) == Fin(-6.0);
  }

  /** Division by zero evaluates to NaN rather than failing: "5/0". */
  lemma DivisionByZeroExample(s: string)
    requires s == "5/0"
    ensures Evaluate(s) == Ok(NaN)
  {
    var t5, t0, td := Number(Fin(5.0)), Number(Fin(0.0)), Operator(Div);
    var e := Bin(Div, Lit(Fin(5.0)), Lit(Fin(0.0)));
    assert Infix(e) == [t5, td, t0] by {
      assert Infix(e) == [t5] + [td] + [t0];
    }
    assert Evaluate(s) == Ok(Value(e)) by {
      TokenizeDivisionByZero(s);
      EvaluatesTree(s, e);
    }
  }

  /** A `(` left open is reported: "(1+2". */
  lemma UnclosedExample(s: string)
    requires s == "(1+2"
    ensures Evaluate(s) == Err(MismatchedParentheses)
  {
    var ts := [LParen, Number(Fin(1.0)), Operator(Add), Number(Fin(2.0))];
    TokenizeUnclosed(s);
    assert !Balanced(ts) by {
      assert BalancedFrom(ts[1..], 1) == BalancedFrom(ts[2..], 1) by {
        assert ts[1..][1..] == ts[2..];
      }
      assert BalancedFrom(ts[2..], 1) == BalancedFrom(ts[3..], 1) by {
        assert ts[2..][1..] == ts[3..];
      }
      assert BalancedFrom(ts[3..], 1) == BalancedFrom(ts[4..], 1) by {
        assert ts[3..][1..] == ts[4..];
      }
      assert ts[4..] == [];
    }
  }

  /** A `)` that nothing opened is reported: "1+2)". */
  lemma UnopenedExample(s: string)
    requires s == "1+2)"
    ensures Evaluate(s) == Err(MismatchedParentheses)
  {
    var ts := [Number(Fin(1.0)), Operator(Add), Number(Fin(2.0)), RParen];
    TokenizeUnopened(s);
    assert !Balanced(ts) by {
      assert BalancedFrom(ts, 0) == BalancedFrom(ts[1..], 0);
      assert BalancedFrom(ts[1..], 0) == BalancedFrom(ts[2..], 0) by {
        assert ts[1..][1..] == ts[2..];
      }
      assert BalancedFrom(ts[2..], 0) == BalancedFrom(ts[3..], 0) by {
        assert ts[2..][1..] == ts[3..];
      }
      assert ts[3..][0] == RParen;
    }
  }

  /** A character the scanner does not know is reported first, whatever else
      the text holds: "2x". */
  lemma UnknownCharacterExample(s: string)
    requires s == "2x"
    ensures Evaluate(s) == Err(InvalidCharacter)
  {
    assert !IsExpressionChar(s[1]);
  }
}
