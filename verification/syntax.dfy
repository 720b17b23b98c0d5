/**
 What the pipeline computes, stated against expression trees.

 A tree is printed to infix tokens with parentheses where the tree has a
 `Group`. A tree is well formed when its printing reads back as that same
 tree under the usual conventions: `*` and `/` bind tighter than `+` and `-`,
 and operators of equal precedence group to the left. For every well-formed
 tree, `toRPN` turns its printing into the tree's postfix form, and `evalRPN`
 evaluates that postfix form to the tree's value. Precedence and left
 associativity of the source's shunting-yard (script.js:140-151) are exactly
 what these theorems need.
 */
module Syntax {
  import opened Tokens
  import opened Numbers
  import opened Shunting
  import opened Evaluator

  datatype Expr = Lit(n: Num) | Bin(op: Op, left: Expr, right: Expr) | Group(inner: Expr)

  /** How tightly the top of a tree binds: a literal or group is atomic. */
  function Strength(e: Expr): nat {
    match e
    case Bin(o, _, _) => Prec(o)
    case _ => 3
  }

  /** A left operand may bind as loosely as its operator (left association);
      a right operand must bind strictly tighter. */
  predicate WellFormed(e: Expr) {
    match e
    case Lit(_) => true
    case Group(i) => WellFormed(i)
    case Bin(o, l, r) => WellFormed(l) && WellFormed(r) && Strength(l) >= Prec(o) && Strength(r) > Prec(o)
  }

  function Infix(e: Expr): seq<Token> {
    match e
    case Lit(n) => [Number(n)]
    case Group(i) => [LParen] + Infix(i) + [RParen]
    case Bin(o, l, r) => Infix(l) + [Operator(o)] + Infix(r)
  }

  function Postfix(e: Expr): seq<Token> {
    match e
    case Lit(n) => [Number(n)]
    case Group(i) => Postfix(i)
    case Bin(o, l, r) => Postfix(l) + Postfix(r) + [Operator(o)]
  }

  function Value(e: Expr): Num {
    match e
    case Lit(n) => n
    case Group(i) => Value(i)
    case Bin(o, l, r) => Apply(o, Value(l), Value(r))
  }

  /** The operators a tree's printing leaves waiting on the stack. */
  function PendingAfter(e: Expr): seq<Pending> {
    match e
    case Bin(o, _, r) => [Pend(o)] + PendingAfter(r)
    case _ => []
  }

  /** What a tree's printing writes to the output before the stack is flushed. */
  function EmittedBy(e: Expr): seq<Token> {
    match e
    case Lit(n) => [Number(n)]
    case Group(i) => Postfix(i)
    case Bin(_, l, r) => Postfix(l) + EmittedBy(r)
  }

  /** No operator above the topmost `(` binds as tightly as `p`. */
  predicate Guarded(ops: seq<Pending>, p: nat)
    decreases |ops|
  {
    || |ops| == 0
    || ops[|ops| - 1] == Open
    || (Prec(ops[|ops| - 1].op) < p && Guarded(ops[..|ops| - 1], p))
  }

  predicate PendAtLeast(ys: seq<Pending>, p: nat) {
    forall i :: 0 <= i < |ys| ==> ys[i].Pend? && Prec(ys[i].op) >= p
  }

  lemma PendAtLeastMonotone(ys: seq<Pending>, p: nat, q: nat)
    requires PendAtLeast(ys, p) && q <= p
    ensures PendAtLeast(ys, q)
  {
  }

  lemma {:induction false} GuardedMonotone(ops: seq<Pending>, p: nat, q: nat)
    requires Guarded(ops, p) && p <= q
    ensures Guarded(ops, q)
    decreases |ops|
  {
    if |ops| > 0 && ops[|ops| - 1] != Open {
      GuardedMonotone(ops[..|ops| - 1], p, q);
    }
  }

  lemma {:induction false} PendingAfterBound(e: Expr)
    requires WellFormed(e)
    ensures PendAtLeast(PendingAfter(e), Strength(e))
    ensures EmittedBy(e) + Unwind(PendingAfter(e)) == Postfix(e)
  {
    match e
    case Lit(_) =>
    case Group(_) =>
    case Bin(o, l, r) =>
      PendingAfterBound(r);
      UnwindAppend([Pend(o)], PendingAfter(r));
      assert Unwind([Pend(o)]) == [Operator(o)] by {
        assert [Pend(o)][..0] == [];
      }
  }

  /** An incoming operator pops a run of operators that all bind at least as
      tightly as it does, and stops at a guarded stack. */
  lemma PopRun(o: Op, out: seq<Token>, ops: seq<Pending>, ys: seq<Pending>)
    requires Guarded(ops, Prec(o))
    requires PendAtLeast(ys, Prec(o))
    ensures PopOperators(o, out, ops + ys) == (out + Unwind(ys), ops)
  {
    var s := ops + ys;
    var r := PopOperators(o, out, s);
    var k := |r.1|;
    assert |ops| > 0 ==> !(s[|ops| - 1].Pend? && PopsBefore(o, s[|ops| - 1].op)) by {
      if |ops| > 0 {
        assert s[|ops| - 1] == ops[|ops| - 1];
      }
    }
    assert forall j :: |ops| <= j < |s| ==> s[j].Pend? && PopsBefore(o, s[j].op) by {
      forall j | |ops| <= j < |s|
        ensures s[j].Pend? && PopsBefore(o, s[j].op)
      {
        assert s[j] == ys[j - |ops|];
      }
    }
    assert k == |ops|;
    assert r.1 == ops && s[k..] == ys;
  }

  /** A `)` pops a run of operators down to its `(`. */
  lemma CloseRun(out: seq<Token>, ops: seq<Pending>, ys: seq<Pending>)
    requires forall i :: 0 <= i < |ys| ==> ys[i].Pend?
    ensures CloseGroup(out, ops + [Open] + ys) == Ok((out + Unwind(ys), ops))
  {
    var s := ops + [Open] + ys;
    assert s[|ops|] == Open;
    var r := CloseGroup(out, s).value;
    var k := |r.1|;
    assert forall j :: |ops| < j < |s| ==> s[j] != Open by {
      forall j | |ops| < j < |s|
        ensures s[j] != Open
      {
        assert s[j] == ys[j - |ops| - 1];
      }
    }
    assert k == |ops|;
    assert r.1 == ops && s[k + 1..] == ys;
  }

  /** `PopRun` after output `em` has been written on top of `out`. */
  lemma PopRunAfter(o: Op, out: seq<Token>, ops: seq<Pending>, em: seq<Token>, ys: seq<Pending>, post: seq<Token>)
    requires Guarded(ops, Prec(o))
    requires PendAtLeast(ys, Prec(o))
    requires em + Unwind(ys) == post
    ensures PopOperators(o, out + em, ops + ys) == (out + post, ops)
  {
    PopRun(o, out + em, ops, ys);
    AppendAssoc(out, em, Unwind(ys));
  }

  /** `CloseRun` after output `em` has been written on top of `out`. */
  lemma CloseRunAfter(out: seq<Token>, ops: seq<Pending>, em: seq<Token>, ys: seq<Pending>, post: seq<Token>)
    requires forall i :: 0 <= i < |ys| ==> ys[i].Pend?
    requires em + Unwind(ys) == post
    ensures CloseGroup(out + em, ops + [Open] + ys) == Ok((out + post, ops))
  {
    CloseRun(out + em, ops, ys);
    AppendAssoc(out, em, Unwind(ys));
  }

  lemma ShuntOne(t: Token, out: seq<Token>, ops: seq<Pending>)
    ensures Shunt([t], out, ops) == Step(t, out, ops)
  {
    assert [t][1..] == [];
  }

  /** The heart of the correctness of shunting-yard: on a guarded stack, the
      printing of a well-formed tree writes `EmittedBy(e)` and leaves exactly
      `PendingAfter(e)` on top of the stack, never touching what is below. */
  lemma {:induction false} ShuntInfix(e: Expr, out: seq<Token>, ops: seq<Pending>)
    requires WellFormed(e)
    requires Guarded(ops, Strength(e))
    ensures Shunt(Infix(e), out, ops) == Ok((out + EmittedBy(e), ops + PendingAfter(e)))
    decreases e, 2
  {
    match e
    case Lit(n) =>
      ShuntOne(Number(n), out, ops);
      assert ops + [] == ops;
    case Group(i) =>
      ShuntGroup(e, out, ops);
      assert ops + [] == ops;
    case Bin(o, l, r) => ShuntBin(e, out, ops);
  }

  /** A group pushes `(`, runs its inner printing on top of it, and its `)`
      pops the inner operators and the `(` again. */
  lemma {:induction false} ShuntGroup(e: Expr, out: seq<Token>, ops: seq<Pending>)
    requires e.Group? && WellFormed(e)
    ensures Shunt(Infix(e), out, ops) == Ok((out + Postfix(e.inner), ops))
    decreases e, 1
  {
    var i := e.inner;
    var open := ops + [Open] + PendingAfter(i);
    ShuntGroupOpen(e, out, ops);
    CloseStep(i, out, ops);
    ShuntOne(RParen, out + EmittedBy(i), open);
    assert Infix(e) == ([LParen] + Infix(i)) + [RParen];
    ShuntAppend([LParen] + Infix(i), [RParen], out, ops);
  }

  /** The `(` of a group and the group's inner printing. */
  lemma ShuntGroupOpen(e: Expr, out: seq<Token>, ops: seq<Pending>)
    requires e.Group? && WellFormed(e)
    ensures Shunt([LParen] + Infix(e.inner), out, ops) ==
      Ok((out + EmittedBy(e.inner), ops + [Open] + PendingAfter(e.inner)))
    decreases e, 0
  {
    ShuntAppend([LParen], Infix(e.inner), out, ops);
    ShuntOne(LParen, out, ops);
    ShuntInfix(e.inner, out, ops + [Open]);
  }

  /** The `)` of a group pops what its inner printing left pending. */
  lemma CloseStep(i: Expr, out: seq<Token>, ops: seq<Pending>)
    requires WellFormed(i)
    ensures Step(RParen, out + EmittedBy(i), ops + [Open] + PendingAfter(i)) == Ok((out + Postfix(i), ops))
  {
    PendingAfterBound(i);
    CloseRunAfter(out, ops, EmittedBy(i), PendingAfter(i), Postfix(i));
  }

  /** A binary tree's left operand followed by its operator: the operator
      pops what the left operand left pending and then waits on the stack. */
  lemma ShuntLeftThenOperator(e: Expr, out: seq<Token>, ops: seq<Pending>)
    requires e.Bin? && WellFormed(e)
    requires Guarded(ops, Prec(e.op))
    ensures Shunt(Infix(e.left) + [Operator(e.op)], out, ops) == Ok((out + Postfix(e.left), ops + [Pend(e.op)]))
    decreases e, 0
  {
    var o, l := e.op, e.left;
    var afterL := out + EmittedBy(l);
    var pending := ops + PendingAfter(l);
    assert Shunt(Infix(l), out, ops) == Ok((afterL, pending)) by {
      GuardedMonotone(ops, Prec(o), Strength(l));
      ShuntInfix(l, out, ops);
    }
    OperatorStep(o, l, out, ops);
    ShuntOne(Operator(o), afterL, pending);
    ShuntAppend(Infix(l), [Operator(o)], out, ops);
  }

  /** An operator pops exactly what its left operand left pending. */
  lemma PopPending(o: Op, l: Expr, out: seq<Token>, ops: seq<Pending>)
    requires WellFormed(l) && Strength(l) >= Prec(o)
    requires Guarded(ops, Prec(o))
    ensures PopOperators(o, out + EmittedBy(l), ops + PendingAfter(l)) == (out + Postfix(l), ops)
  {
    PendingAfterBound(l);
    PendAtLeastMonotone(PendingAfter(l), Strength(l), Prec(o));
    PopRunAfter(o, out, ops, EmittedBy(l), PendingAfter(l), Postfix(l));
  }

  /** An operator pops what its left operand left pending, and is pushed. */
  lemma OperatorStep(o: Op, l: Expr, out: seq<Token>, ops: seq<Pending>)
    requires WellFormed(l) && Strength(l) >= Prec(o)
    requires Guarded(ops, Prec(o))
    ensures Step(Operator(o), out + EmittedBy(l), ops + PendingAfter(l)) == Ok((out + Postfix(l), ops + [Pend(o)]))
  {
    PopPending(o, l, out, ops);
  }

  /** A binary tree: after the left operand and the operator, the right
      operand is read on top of the waiting operator. */
  lemma {:induction false} ShuntBin(e: Expr, out: seq<Token>, ops: seq<Pending>)
    requires e.Bin? && WellFormed(e)
    requires Guarded(ops, Prec(e.op))
    ensures Shunt(Infix(e), out, ops) == Ok((out + EmittedBy(e), ops + PendingAfter(e)))
    decreases e, 1
  {
    var o, l, r := e.op, e.left, e.right;
    var stacked := ops + [Pend(o)];
    var afterL := out + Postfix(l);
    ShuntLeftThenOperator(e, out, ops);
    assert Guarded(stacked, Strength(r)) by {
      GuardedMonotone(ops, Prec(o), Strength(r));
      assert stacked[..|stacked| - 1] == ops;
    }
    assert Infix(e) == (Infix(l) + [Operator(o)]) + Infix(r);
    ShuntAppend(Infix(l) + [Operator(o)], Infix(r), out, ops);
    ShuntInfix(r, afterL, stacked);
    AppendAssoc(out, Postfix(l), EmittedBy(r));
    AppendAssoc(ops, [Pend(o)], PendingAfter(r));
  }

  /** `toRPN` turns the printing of a well-formed tree into its postfix form. */
  lemma ToRpnInfix(e: Expr)
    requires WellFormed(e)
    ensures ToRpn(Infix(e)) == Ok(Postfix(e))
  {
    var empty: seq<Token> := [];
    var none: seq<Pending> := [];
    ShuntInfix(e, empty, none);
    assert empty + EmittedBy(e) == EmittedBy(e);
    assert none + PendingAfter(e) == PendingAfter(e);
    PendingAfterBound(e);
    assert Open !in PendingAfter(e);
  }

  /** Evaluating a tree's postfix form pushes its value and leaves the rest of
      the stack as it was. */
  lemma {:induction false} EvalPostfix(e: Expr, st: seq<Num>)
    ensures EvalFrom(Postfix(e), st) == Ok(st + [Value(e)])
    decreases e, 1
  {
    match e
    case Lit(n) =>
      assert [Number(n)][1..] == [];
    case Group(i) =>
      EvalPostfix(i, st);
    case Bin(o, l, r) =>
      EvalBin(e, st);
  }

  /** A binary tree's operands are pushed in order, then its operator
      combines them. */
  lemma {:induction false} EvalBin(e: Expr, st: seq<Num>)
    requires e.Bin?
    ensures EvalFrom(Postfix(e), st) == Ok(st + [Value(e)])
    decreases e, 0
  {
    var o, l, r := e.op, e.left, e.right;
    var full := st + [Value(l)] + [Value(r)];
    assert EvalFrom(Postfix(l) + Postfix(r), st) == Ok(full) by {
      EvalAppend(Postfix(l), Postfix(r), st);
      EvalPostfix(l, st);
      EvalPostfix(r, st + [Value(l)]);
    }
    assert EvalFrom([Operator(o)], full) == Ok(st + [Value(e)]) by {
      assert full[..|full| - 2] == st;
      assert full[|full| - 1] == Value(r) && full[|full| - 2] == Value(l);
      assert [Operator(o)][1..] == [];
    }
    EvalAppend(Postfix(l) + Postfix(r), [Operator(o)], st);
  }

  /** The whole parser and evaluator agree with the tree: the printing of any
      well-formed tree evaluates to the tree's value. */
  lemma EvaluatesToValue(e: Expr)
    requires WellFormed(e)
    ensures ToRpn(Infix(e)).Ok?
    ensures EvalRpn(ToRpn(Infix(e)).value) == Ok(Value(e))
  {
    ToRpnInfix(e);
    EvalPostfix(e, []);
    assert [] + [Value(e)] == [Value(e)];
  }

  /** `*` binds tighter than `+`: a+b*c is postfix a b c * +. */
  lemma MultiplicationFirst(a: Num, b: Num, c: Num)
    ensures ToRpn([Number(a), Operator(Add), Number(b), Operator(Mul), Number(c)])
      == Ok([Number(a), Number(b), Number(c), Operator(Mul), Operator(Add)])
  {
    var x, y, z := Lit(a), Lit(b), Lit(c);
    var e := Bin(Add, x, Bin(Mul, y, z));
    ToRpnInfix(e);
    assert Infix(Bin(Mul, y, z)) == [Number(b), Operator(Mul), Number(c)];
    assert Infix(e) == [Number(a)] + [Operator(Add)] + [Number(b), Operator(Mul), Number(c)];
    assert Postfix(Bin(Mul, y, z)) == [Number(b), Number(c), Operator(Mul)];
    assert Postfix(e) == [Number(a)] + [Number(b), Number(c), Operator(Mul)] + [Operator(Add)];
    assert [Number(a)] + [Operator(Add)] + [Number(b), Operator(Mul), Number(c)]
      == [Number(a), Operator(Add), Number(b), Operator(Mul), Number(c)];
    assert [Number(a)] + [Number(b), Number(c), Operator(Mul)] + [Operator(Add)]
      == [Number(a), Number(b), Number(c), Operator(Mul), Operator(Add)];
  }

  /** Equal precedence groups to the left: a-b-c is (a-b)-c, postfix a b - c -. */
  lemma SubtractionGroupsLeft(a: Num, b: Num, c: Num)
    ensures ToRpn([Number(a), Operator(Sub), Number(b), Operator(Sub), Number(c)])
      == Ok([Number(a), Number(b), Operator(Sub), Number(c), Operator(Sub)])
  {
    var x, y, z := Lit(a), Lit(b), Lit(c);
    var e := Bin(Sub, Bin(Sub, x, y), z);
    ToRpnInfix(e);
    assert Infix(Bin(Sub, x, y)) == [Number(a), Operator(Sub), Number(b)];
    assert Infix(e) == [Number(a), Operator(Sub), Number(b)] + [Operator(Sub)] + [Number(c)];
    assert Postfix(Bin(Sub, x, y)) == [Number(a), Number(b), Operator(Sub)];
    assert Postfix(e) == [Number(a), Number(b), Operator(Sub)] + [Number(c)] + [Operator(Sub)];
    assert [Number(a), Operator(Sub), Number(b)] + [Operator(Sub)] + [Number(c)]
      == [Number(a), Operator(Sub), Number(b), Operator(Sub), Number(c)];
    assert [Number(a), Number(b), Operator(Sub)] + [Number(c)] + [Operator(Sub)]
      == [Number(a), Number(b), Operator(Sub), Number(c), Operator(Sub)];
  }
}
