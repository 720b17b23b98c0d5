/**
 `evalRPN` (script.js:169-187): evaluation of a postfix token sequence with an
 operand stack whose last element is the top.
 */
module Evaluator {
  import opened Tokens
  import opened Numbers

  /** The loop of evalRPN over the remaining tokens (script.js:171-184). A
      number is pushed; an operator pops `b` then `a` and pushes `a op b`, or
      fails with "Malformed" when either is missing; a parenthesis fails with
      "Invalid RPN". */
  function EvalFrom(rpn: seq<Token>, st: seq<Num>): (r: Result<seq<Num>>)
    ensures r.Err? ==> r.error == Malformed || r.error == InvalidRpn
    ensures r.Err? && NoParens(rpn) ==> r.error == Malformed
    ensures r.Ok? ==> |r.value| + |OperatorsOf(rpn)| == |st| + |NumbersOf(rpn)|
    decreases |rpn|
  {
    if |rpn| == 0 then Ok(st)
    else
      match rpn[0]
      case Number(n) => EvalFrom(rpn[1..], st + [n])
      case Operator(o) =>
        if |st| < 2 then Err(Malformed)
        else
          var b := st[|st| - 1];
          var a := st[|st| - 2];
          EvalFrom(rpn[1..], st[..|st| - 2] + [Apply(o, a, b)])
      case _ => Err(InvalidRpn)
  }

  /** The reference stack discipline: starting with `height` operands, every
      token is a number or an operator, and every operator finds two operands. */
  predicate StackSafe(rpn: seq<Token>, height: nat)
    decreases |rpn|
  {
    if |rpn| == 0 then true
    else if rpn[0].Number? then StackSafe(rpn[1..], height + 1)
    else if rpn[0].Operator? then height >= 2 && StackSafe(rpn[1..], height - 1)
    else false
  }

  /** The loop runs to the end exactly when the stack discipline holds. */
  lemma {:induction false} EvalFromSucceeds(rpn: seq<Token>, st: seq<Num>)
    ensures EvalFrom(rpn, st).Ok? <==> StackSafe(rpn, |st|)
    decreases |rpn|
  {
    if |rpn| > 0 {
      match rpn[0]
      case Number(n) => EvalFromSucceeds(rpn[1..], st + [n]);
      case Operator(o) =>
        if |st| >= 2 {
          var b := st[|st| - 1];
          var a := st[|st| - 2];
          EvalFromSucceeds(rpn[1..], st[..|st| - 2] + [Apply(o, a, b)]);
        }
      case LParen =>
      case RParen =>
    }
  }

  /** `evalRPN(rpn)` (script.js:169-187). It succeeds exactly when the stack
      discipline holds and the input has one more number than operators, so
      that one value is left (script.js:185); its errors are "Malformed", or
      "Invalid RPN" when a parenthesis is present. */
  function EvalRpn(rpn: seq<Token>): (r: Result<Num>)
    ensures r.Ok? <==> StackSafe(rpn, 0) && |NumbersOf(rpn)| == |OperatorsOf(rpn)| + 1
    ensures r.Err? ==> r.error == Malformed || r.error == InvalidRpn
    ensures r.Err? && NoParens(rpn) ==> r.error == Malformed
  {
    EvalFromSucceeds(rpn, []);
    var st :- EvalFrom(rpn, []);
    if |st| != 1 then Err(Malformed) else Ok(st[0])
  }

  /** Evaluating a concatenation evaluates the first part, then the second
      on the stack the first one left. */
  lemma {:induction false} EvalAppend(a: seq<Token>, b: seq<Token>, st: seq<Num>)
    ensures EvalFrom(a + b, st) ==
      (match EvalFrom(a, st)
       case Err(e) => Err(e)
       case Ok(st') => EvalFrom(b, st'))
    decreases |a|
  {
    if |a| == 0 {
      assert a + b == b;
    } else {
      assert (a + b)[0] == a[0];
      assert (a + b)[1..] == a[1..] + b;
      match a[0]
      case Number(n) => EvalAppend(a[1..], b, st + [n]);
      case Operator(o) =>
        if |st| >= 2 {
          EvalAppend(a[1..], b, st[..|st| - 2] + [Apply(o, st[|st| - 2], st[|st| - 1])]);
        }
      case LParen =>
      case RParen =>
    }
  }

  /** Division by zero does not fail: it yields NaN (script.js:181). */
  lemma DivisionByZeroIsNaN(a: Num)
    ensures EvalRpn([Number(a), Number(Fin(0.0)), Operator(Div)]) == Ok(NaN)
  {
    var rpn := [Number(a), Number(Fin(0.0)), Operator(Div)];
    var empty: seq<Num> := [];
    assert rpn[1..] == [Number(Fin(0.0)), Operator(Div)];
    assert rpn[1..][1..] == [Operator(Div)];
    assert empty + [a] == [a];
    assert [a] + [Fin(0.0)] == [a, Fin(0.0)];
    assert [a, Fin(0.0)][..0] + [NaN] == [NaN];
    assert EvalFrom([Operator(Div)], [a, Fin(0.0)]) == EvalFrom([], [NaN]);
    assert EvalFrom(rpn[1..], [a]) == EvalFrom([Operator(Div)], [a, Fin(0.0)]);
    assert EvalFrom(rpn, empty) == EvalFrom(rpn[1..], [a]);
  }

  /** An operator with fewer than two operands below it is malformed
      (script.js:176). */
  lemma MissingOperandIsMalformed(a: Num, o: Op)
    ensures EvalRpn([Number(a), Operator(o)]) == Err(Malformed)
  {
    var rpn := [Number(a), Operator(o)];
    var empty: seq<Num> := [];
    assert rpn[1..] == [Operator(o)];
    assert empty + [a] == [a];
    assert EvalFrom(rpn, empty) == EvalFrom([Operator(o)], [a]);
  }
}
