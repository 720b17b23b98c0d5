/**
 `toRPN` (script.js:137-167): Dijkstra's shunting-yard algorithm from the
 infix token sequence to postfix.

 The operator stack is a sequence whose last element is the top, as with the
 source's `push`/`pop`. It only ever holds `(` markers and operators, which
 is what `Pending` expresses.
 */
module Shunting {
  import opened Tokens

  /** An entry of the operator stack: a `(` marker or a pending operator. */
  datatype Pending = Open | Pend(op: Op)

  /** The precedence table (script.js:140). */
  function Prec(o: Op): nat {
    match o
    case Add => 1
    case Sub => 1
    case Mul => 2
    case Div => 2
  }

  /** The associativity table: every operator is left-associative (script.js:141). */
  predicate LeftAssoc(o: Op) {
    true
  }

  /** Whether an incoming operator pops the operator `top` off the stack before
      it is pushed (script.js:147). */
  predicate PopsBefore(incoming: Op, top: Op) {
    || (LeftAssoc(incoming) && Prec(incoming) <= Prec(top))
    || (!LeftAssoc(incoming) && Prec(incoming) < Prec(top))
  }

  /** With every operator left-associative, an incoming operator pops exactly
      the stacked operators of greater or equal precedence. */
  lemma PopsBeforeIsPrecedence(incoming: Op, top: Op)
    ensures PopsBefore(incoming, top) <==> Prec(top) >= Prec(incoming)
    ensures PopsBefore(incoming, top) <==> (incoming == Add || incoming == Sub || top == Mul || top == Div)
  {
  }

  function AsToken(p: Pending): Token {
    match p
    case Open => LParen
    case Pend(o) => Operator(o)
  }

  /** The tokens that popping all of `s` sends to the output, top first. */
  function Unwind(s: seq<Pending>): (r: seq<Token>)
    ensures |r| == |s|
  {
    if |s| == 0 then [] else [AsToken(s[|s| - 1])] + Unwind(s[..|s| - 1])
  }

  /** The operators waiting on a stack, as a multiset. */
  function PendingOperators(s: seq<Pending>): multiset<Op> {
    if |s| == 0 then multiset{}
    else PendingOperators(s[..|s| - 1]) + (if s[|s| - 1].Pend? then multiset{s[|s| - 1].op} else multiset{})
  }

  /** The number of `(` markers on a stack. */
  function OpenCount(s: seq<Pending>): nat {
    if |s| == 0 then 0 else OpenCount(s[..|s| - 1]) + (if s[|s| - 1] == Open then 1 else 0)
  }

  lemma {:induction false} UnwindAppend(a: seq<Pending>, b: seq<Pending>)
    ensures Unwind(a + b) == Unwind(b) + Unwind(a)
    decreases |b|
  {
    if |b| == 0 {
      assert a + b == a;
    } else {
      var c := a + b;
      var b' := b[..|b| - 1];
      var top := [AsToken(b[|b| - 1])];
      assert c[|c| - 1] == b[|b| - 1];
      assert c[..|c| - 1] == a + b';
      UnwindAppend(a, b');
      assert Unwind(c) == top + Unwind(a + b');
      assert Unwind(b) == top + Unwind(b');
      AppendAssoc(top, Unwind(b'), Unwind(a));
    }
  }

  lemma {:induction false} PendingOperatorsAppend(a: seq<Pending>, b: seq<Pending>)
    ensures PendingOperators(a + b) == PendingOperators(a) + PendingOperators(b)
    decreases |b|
  {
    if |b| == 0 {
      assert a + b == a;
    } else {
      var c := a + b;
      var b' := b[..|b| - 1];
      assert c[|c| - 1] == b[|b| - 1];
      assert c[..|c| - 1] == a + b';
      PendingOperatorsAppend(a, b');
    }
  }

  lemma {:induction false} OpenCountAppend(a: seq<Pending>, b: seq<Pending>)
    ensures OpenCount(a + b) == OpenCount(a) + OpenCount(b)
    decreases |b|
  {
    if |b| == 0 {
      assert a + b == a;
    } else {
      var c := a + b;
      var b' := b[..|b| - 1];
      assert c[|c| - 1] == b[|b| - 1];
      assert c[..|c| - 1] == a + b';
      OpenCountAppend(a, b');
    }
  }

  /** Both measures of a stack add up over a concatenation. */
  lemma PendingAppend(a: seq<Pending>, b: seq<Pending>)
    ensures PendingOperators(a + b) == PendingOperators(a) + PendingOperators(b)
    ensures OpenCount(a + b) == OpenCount(a) + OpenCount(b)
  {
    PendingOperatorsAppend(a, b);
    OpenCountAppend(a, b);
  }

  lemma {:induction false} OpenCountPositive(s: seq<Pending>)
    ensures OpenCount(s) > 0 <==> Open in s
    decreases |s|
  {
    if |s| > 0 {
      OpenCountPositive(s[..|s| - 1]);
      assert s == s[..|s| - 1] + [s[|s| - 1]];
    }
  }

  /** Unwinding a stack emits no numbers, exactly its operators, and no
      parenthesis unless a `(` was on it. */
  lemma {:induction false} UnwindViews(s: seq<Pending>)
    ensures NumbersOf(Unwind(s)) == []
    ensures OperatorsOf(Unwind(s)) == PendingOperators(s)
    ensures Open !in s ==> NoParens(Unwind(s))
    decreases |s|
  {
    if |s| > 0 {
      var top := [AsToken(s[|s| - 1])];
      UnwindViews(s[..|s| - 1]);
      NumbersOfAppend(top, Unwind(s[..|s| - 1]));
      OperatorsOfAppend(top, Unwind(s[..|s| - 1]));
      assert NumbersOf(top) == [];
      if Open !in s {
        assert Open !in s[..|s| - 1];
      }
    }
  }

  /** What the inner loop for `o` leaves behind: `kept` is a prefix of `ops`,
      everything above it was an operator that `o` pops and went to the output
      top first, and the new top of `kept`, if any, is not one `o` pops. */
  predicate PoppedFor(o: Op, out: seq<Token>, ops: seq<Pending>, res: (seq<Token>, seq<Pending>)) {
    var k := |res.1|;
    && k <= |ops| && res.1 == ops[..k]
    && res.0 == out + Unwind(ops[k..])
    && (forall i :: k <= i < |ops| ==> ops[i].Pend? && PopsBefore(o, ops[i].op))
    && (k > 0 ==> !(ops[k - 1].Pend? && PopsBefore(o, ops[k - 1].op)))
  }

  /** Popping the top first and then the rest is popping from the whole stack. */
  lemma PoppedForLift(o: Op, out: seq<Token>, ops: seq<Pending>, res: (seq<Token>, seq<Pending>))
    requires |ops| > 0 && ops[|ops| - 1].Pend? && PopsBefore(o, ops[|ops| - 1].op)
    requires PoppedFor(o, out + [AsToken(ops[|ops| - 1])], ops[..|ops| - 1], res)
    ensures PoppedFor(o, out, ops, res)
  {
    var rest := ops[..|ops| - 1];
    var k := |res.1|;
    assert rest[k..] == ops[k..][..|ops| - 1 - k];
    assert ops[k..][|ops| - 1 - k] == ops[|ops| - 1];
    assert rest[..k] == ops[..k];
    assert forall i :: k <= i < |rest| ==> ops[i] == rest[i];
    assert k > 0 ==> ops[k - 1] == rest[k - 1];
  }

  /** The inner loop run by an incoming operator `o` (script.js:145-150): it
      pops the longest run of stacked operators, from the top down, that `o`
      yields to, and stops at a `(` or at an operator of lower precedence. */
  function PopOperators(o: Op, out: seq<Token>, ops: seq<Pending>): (r: (seq<Token>, seq<Pending>))
    ensures PoppedFor(o, out, ops, r)
    decreases |ops|
  {
    if |ops| > 0 && ops[|ops| - 1].Pend? && PopsBefore(o, ops[|ops| - 1].op) then
      var r := PopOperators(o, out + [AsToken(ops[|ops| - 1])], ops[..|ops| - 1]);
      PoppedForLift(o, out, ops, r);
      r
    else
      assert ops[|ops|..] == [];
      assert ops[..|ops|] == ops;
      (out, ops)
  }

  /** What the loop run by `)` leaves behind: the nearest `(` sits at index
      `|kept|`, below it the stack is kept, and what was above it went to the
      output top first. */
  predicate ClosedAt(out: seq<Token>, ops: seq<Pending>, res: (seq<Token>, seq<Pending>)) {
    var k := |res.1|;
    && k < |ops| && ops[k] == Open && res.1 == ops[..k]
    && Open !in ops[k + 1..]
    && res.0 == out + Unwind(ops[k + 1..])
  }

  /** Moving an operator off the top and then closing is closing the whole stack. */
  lemma ClosedAtLift(out: seq<Token>, ops: seq<Pending>, res: (seq<Token>, seq<Pending>))
    requires |ops| > 0 && ops[|ops| - 1] != Open
    requires ClosedAt(out + [AsToken(ops[|ops| - 1])], ops[..|ops| - 1], res)
    ensures ClosedAt(out, ops, res)
  {
    var top := ops[|ops| - 1];
    var rest := ops[..|ops| - 1];
    var k := |res.1|;
    var above := ops[k + 1..];
    assert above[..|above| - 1] == rest[k + 1..];
    assert above[|above| - 1] == top;
    assert Unwind(above) == [AsToken(top)] + Unwind(rest[k + 1..]);
    assert (out + [AsToken(top)]) + Unwind(rest[k + 1..]) == out + Unwind(above);
    assert above == rest[k + 1..] + [top];
    assert rest[..k] == ops[..k];
    assert ops[k] == rest[k];
  }

  /** A stack with no `(` below an operator on top has no `(` at all. */
  lemma NoOpenBelow(ops: seq<Pending>)
    requires |ops| > 0 && ops[|ops| - 1] != Open
    requires Open !in ops[..|ops| - 1]
    ensures Open !in ops
  {
    assert ops == ops[..|ops| - 1] + [ops[|ops| - 1]];
  }

  /** The loop run by `)` (script.js:153-156): it pops operators down to the
      nearest `(` and discards that marker; with no `(` on the stack it fails. */
  function CloseGroup(out: seq<Token>, ops: seq<Pending>): (r: Result<(seq<Token>, seq<Pending>)>)
    ensures r.Err? <==> Open !in ops
    ensures r.Err? ==> r.error == MismatchedParentheses
    ensures r.Ok? ==> ClosedAt(out, ops, r.value)
    decreases |ops|
  {
    if |ops| == 0 then Err(MismatchedParentheses)
    else if ops[|ops| - 1] == Open then
      assert ops[|ops|..] == [];
      assert out + Unwind([]) == out;
      Ok((out, ops[..|ops| - 1]))
    else
      var r := CloseGroup(out + [AsToken(ops[|ops| - 1])], ops[..|ops| - 1]);
      if r.Err? then
        NoOpenBelow(ops);
        r
      else
        ClosedAtLift(out, ops, r.value);
        r
  }

  /** The final loop (script.js:161-165): it pops the whole stack to the
      output and fails if a `(` is still open. */
  function Flush(out: seq<Token>, ops: seq<Pending>): (r: Result<seq<Token>>)
    ensures r.Err? <==> Open in ops
    ensures r.Err? ==> r.error == MismatchedParentheses
    ensures r.Ok? ==> r.value == out + Unwind(ops)
    decreases |ops|
  {
    if |ops| == 0 then Ok(out)
    else if ops[|ops| - 1] == Open then Err(MismatchedParentheses)
    else
      assert ops == ops[..|ops| - 1] + [ops[|ops| - 1]];
      Flush(out + [AsToken(ops[|ops| - 1])], ops[..|ops| - 1])
  }

  /** Sending a run of stacked operators to the output adds no number, adds
      exactly those operators and no parenthesis. */
  lemma UnwindConserves(out: seq<Token>, above: seq<Pending>)
    requires Open !in above
    ensures NumbersOf(out + Unwind(above)) == NumbersOf(out)
    ensures OperatorsOf(out + Unwind(above)) == OperatorsOf(out) + PendingOperators(above)
    ensures NoParens(out) ==> NoParens(out + Unwind(above))
  {
    var u := Unwind(above);
    UnwindViews(above);
    assert NumbersOf(out + u) == NumbersOf(out) by {
      NumbersOfAppend(out, u);
    }
    assert OperatorsOf(out + u) == OperatorsOf(out) + PendingOperators(above) by {
      OperatorsOfAppend(out, u);
    }
    if NoParens(out) {
      assert forall i :: 0 <= i < |out + u| ==> (out + u)[i] == (if i < |out| then out[i] else u[i - |out|]);
    }
  }

  /** The measures of a stack split around one of its `(` markers. */
  lemma SplitAtOpen(ops: seq<Pending>, k: nat)
    requires k < |ops| && ops[k] == Open
    ensures PendingOperators(ops) == PendingOperators(ops[..k]) + PendingOperators(ops[k + 1..])
    ensures OpenCount(ops) == OpenCount(ops[..k]) + 1 + OpenCount(ops[k + 1..])
  {
    var below := ops[..k];
    assert ops == (below + [Open]) + ops[k + 1..];
    PendingAppend(below + [Open], ops[k + 1..]);
    PendingAppend(below, [Open]);
    assert [Open][..0] == [];
  }

  /** Popping operators for an incoming operator moves them from the stack to
      the output: no number appears, no operator is lost, no parenthesis is
      emitted and every `(` stays on the stack. */
  lemma PopConserves(o: Op, out: seq<Token>, ops: seq<Pending>)
    ensures var r := PopOperators(o, out, ops);
      && NumbersOf(r.0) == NumbersOf(out)
      && OperatorsOf(r.0) + PendingOperators(r.1) == OperatorsOf(out) + PendingOperators(ops)
      && (NoParens(out) ==> NoParens(r.0))
      && OpenCount(r.1) == OpenCount(ops)
  {
    var r := PopOperators(o, out, ops);
    var above := ops[|r.1|..];
    PoppedAbove(o, out, ops);
    UnwindConserves(out, above);
    PendingAppend(r.1, above);
    OpenCountPositive(above);
  }

  /** What popping leaves: the stack's bottom part, with only operators
      above it, unwound onto the output. */
  lemma PoppedAbove(o: Op, out: seq<Token>, ops: seq<Pending>)
    ensures var r := PopOperators(o, out, ops);
      && |r.1| <= |ops| && ops == r.1 + ops[|r.1|..]
      && Open !in ops[|r.1|..]
      && r.0 == out + Unwind(ops[|r.1|..])
  {
    var r := PopOperators(o, out, ops);
    var k := |r.1|;
    var above := ops[k..];
    assert Open !in above by {
      assert forall j :: 0 <= j < |above| ==> above[j] == ops[k + j];
    }
    assert ops == r.1 + above;
  }

  /** Closing a group moves the operators above the nearest `(` to the output,
      emitting no number and no parenthesis. */
  lemma CloseConserves(out: seq<Token>, ops: seq<Pending>)
    requires Open in ops
    ensures CloseGroup(out, ops).Ok?
    ensures var r := CloseGroup(out, ops).value;
      && NumbersOf(r.0) == NumbersOf(out)
      && OperatorsOf(r.0) + PendingOperators(r.1) == OperatorsOf(out) + PendingOperators(ops)
      && (NoParens(out) ==> NoParens(r.0))
  {
    var r := CloseGroup(out, ops).value;
    var k := |r.1|;
    UnwindConserves(out, ops[k + 1..]);
    SplitAtOpen(ops, k);
  }

  /** Closing a group removes exactly one `(` from the stack. */
  lemma CloseRemovesOneOpen(out: seq<Token>, ops: seq<Pending>)
    requires Open in ops
    ensures CloseGroup(out, ops).Ok?
    ensures OpenCount(CloseGroup(out, ops).value.1) + 1 == OpenCount(ops)
  {
    var r := CloseGroup(out, ops).value;
    var k := |r.1|;
    SplitAtOpen(ops, k);
    OpenCountPositive(ops[k + 1..]);
  }

  /** One iteration of the main loop (script.js:143-159). It fails, with
      "Mismatched parentheses", exactly on a `)` while no `(` is on the stack. */
  function Step(t: Token, out: seq<Token>, ops: seq<Pending>): (r: Result<(seq<Token>, seq<Pending>)>)
    ensures r.Err? <==> (t.RParen? && Open !in ops)
    ensures r.Err? ==> r.error == MismatchedParentheses
  {
    match t
    case Number(_) => Ok((out + [t], ops))
    case Operator(o) =>
      var popped := PopOperators(o, out, ops);
      Ok((popped.0, popped.1 + [Pend(o)]))
    case LParen => Ok((out, ops + [Open]))
    case RParen => CloseGroup(out, ops)
  }

  /** A step moves a number read to the output and no other number. */
  lemma StepNumbers(t: Token, out: seq<Token>, ops: seq<Pending>)
    requires Step(t, out, ops).Ok?
    ensures NumbersOf(Step(t, out, ops).value.0) == NumbersOf(out) + (if t.Number? then [t.n] else [])
  {
    match t
    case Number(_) => NumbersOfAppend(out, [t]);
    case Operator(o) => PopConserves(o, out, ops);
    case LParen =>
    case RParen => CloseConserves(out, ops);
  }

  /** Pushing one entry adds its operator, or its `(`, to the stack's measures. */
  lemma Push(s: seq<Pending>, p: Pending)
    ensures PendingOperators(s + [p]) == PendingOperators(s) + (if p.Pend? then multiset{p.op} else multiset{})
    ensures OpenCount(s + [p]) == OpenCount(s) + (if p == Open then 1 else 0)
  {
    assert (s + [p])[..|s|] == s;
  }

  /** A step neither creates nor loses operators: the operator read joins the
      stack, and what leaves the stack goes to the output. */
  lemma StepOperators(t: Token, out: seq<Token>, ops: seq<Pending>)
    requires Step(t, out, ops).Ok?
    ensures var r := Step(t, out, ops).value;
      OperatorsOf(r.0) + PendingOperators(r.1)
      == OperatorsOf(out) + PendingOperators(ops) + (if t.Operator? then multiset{t.op} else multiset{})
  {
    match t
    case Number(_) => OperatorsOfAppend(out, [t]);
    case Operator(o) =>
      PopConserves(o, out, ops);
      Push(PopOperators(o, out, ops).1, Pend(o));
    case LParen => Push(ops, Open);
    case RParen => CloseConserves(out, ops);
  }

  /** A step never writes a parenthesis to the output. */
  lemma StepNoParens(t: Token, out: seq<Token>, ops: seq<Pending>)
    requires Step(t, out, ops).Ok?
    requires NoParens(out)
    ensures NoParens(Step(t, out, ops).value.0)
  {
    match t
    case Number(_) =>
    case Operator(o) => PopConserves(o, out, ops);
    case LParen =>
    case RParen => CloseConserves(out, ops);
  }

  /** A step changes the number of `(` on the stack by the parenthesis it reads. */
  lemma StepOpenCount(t: Token, out: seq<Token>, ops: seq<Pending>)
    requires Step(t, out, ops).Ok?
    ensures OpenCount(Step(t, out, ops).value.1) + (if t.RParen? then 1 else 0)
      == OpenCount(ops) + (if t.LParen? then 1 else 0)
  {
    match t
    case Number(_) =>
    case Operator(o) =>
      PopConserves(o, out, ops);
      Push(PopOperators(o, out, ops).1, Pend(o));
    case LParen => Push(ops, Open);
    case RParen => CloseRemovesOneOpen(out, ops);
  }

  /** The main loop over the remaining input tokens. */
  function Shunt(ts: seq<Token>, out: seq<Token>, ops: seq<Pending>): (r: Result<(seq<Token>, seq<Pending>)>)
    ensures r.Err? ==> r.error == MismatchedParentheses
    ensures r.Err? ==> exists i :: 0 <= i < |ts| && ts[i].RParen?
    decreases |ts|
  {
    if |ts| == 0 then Ok((out, ops))
    else
      var next :- Step(ts[0], out, ops);
      var r := Shunt(ts[1..], next.0, next.1);
      assert r.Err? ==> exists i :: 1 <= i < |ts| && ts[i].RParen? by {
        if r.Err? {
          var i :| 0 <= i < |ts[1..]| && ts[1..][i].RParen?;
          assert ts[i + 1].RParen?;
        }
      }
      r
  }

  /** The reference notion of balance: reading left to right from nesting
      depth `depth`, no `)` closes below depth zero and the input ends at
      depth zero. */
  predicate BalancedFrom(ts: seq<Token>, depth: nat)
    decreases |ts|
  {
    if |ts| == 0 then depth == 0
    else if ts[0].LParen? then BalancedFrom(ts[1..], depth + 1)
    else if ts[0].RParen? then depth > 0 && BalancedFrom(ts[1..], depth - 1)
    else BalancedFrom(ts[1..], depth)
  }

  predicate Balanced(ts: seq<Token>) {
    BalancedFrom(ts, 0)
  }

  /** The main loop ends without error and with no `(` left on the stack
      exactly when the input balances, counting the `(` already stacked. */
  lemma {:induction false} ShuntBalance(ts: seq<Token>, out: seq<Token>, ops: seq<Pending>)
    ensures (Shunt(ts, out, ops).Ok? && OpenCount(Shunt(ts, out, ops).value.1) == 0)
      <==> BalancedFrom(ts, OpenCount(ops))
    decreases |ts|
  {
    if |ts| == 0 {
      OpenCountPositive(ops);
    } else {
      OpenCountPositive(ops);
      var step := Step(ts[0], out, ops);
      if step.Ok? {
        StepOpenCount(ts[0], out, ops);
        ShuntBalance(ts[1..], step.value.0, step.value.1);
      }
    }
  }

  /** The main loop moves the input's numbers to the output in their order. */
  lemma {:induction false} ShuntNumbers(ts: seq<Token>, out: seq<Token>, ops: seq<Pending>)
    requires Shunt(ts, out, ops).Ok?
    ensures NumbersOf(Shunt(ts, out, ops).value.0) == NumbersOf(out) + NumbersOf(ts)
    decreases |ts|
  {
    if |ts| == 0 {
      assert NumbersOf(out) + [] == NumbersOf(out);
    } else {
      var t := ts[0];
      var next := Step(t, out, ops).value;
      StepNumbers(t, out, ops);
      ShuntNumbers(ts[1..], next.0, next.1);
      var head := if t.Number? then [t.n] else [];
      assert NumbersOf(ts) == head + NumbersOf(ts[1..]);
      AppendAssoc(NumbersOf(out), head, NumbersOf(ts[1..]));
    }
  }

  /** The main loop keeps every operator it reads, either on the stack or in
      the output. */
  lemma {:induction false} ShuntOperators(ts: seq<Token>, out: seq<Token>, ops: seq<Pending>)
    requires Shunt(ts, out, ops).Ok?
    ensures var r := Shunt(ts, out, ops).value;
      OperatorsOf(r.0) + PendingOperators(r.1) == OperatorsOf(out) + PendingOperators(ops) + OperatorsOf(ts)
    decreases |ts|
  {
    if |ts| > 0 {
      var t := ts[0];
      var next := Step(t, out, ops).value;
      StepOperators(t, out, ops);
      ShuntOperators(ts[1..], next.0, next.1);
    }
  }

  /** The main loop writes no parenthesis to the output. */
  lemma {:induction false} ShuntNoParens(ts: seq<Token>, out: seq<Token>, ops: seq<Pending>)
    requires Shunt(ts, out, ops).Ok?
    requires NoParens(out)
    ensures NoParens(Shunt(ts, out, ops).value.0)
    decreases |ts|
  {
    if |ts| > 0 {
      var t := ts[0];
      var next := Step(t, out, ops).value;
      StepNoParens(t, out, ops);
      ShuntNoParens(ts[1..], next.0, next.1);
    }
  }

  /** `toRPN(tokens)` (script.js:137-167). It fails, always with "Mismatched
      parentheses", exactly when the parentheses do not balance, and its
      output holds no parenthesis. */
  function ToRpn(ts: seq<Token>): (r: Result<seq<Token>>)
    ensures r.Ok? <==> Balanced(ts)
    ensures r.Err? ==> r.error == MismatchedParentheses
    ensures r.Ok? ==> NoParens(r.value)
  {
    var empty: seq<Token> := [];
    ShuntBalance(ts, empty, []);
    var shunted :- Shunt(ts, empty, []);
    OpenCountPositive(shunted.1);
    var out :- Flush(shunted.0, shunted.1);
    ShuntNoParens(ts, empty, []);
    UnwindViews(shunted.1);
    Ok(out)
  }

  /** On success `toRPN` keeps the input's numbers in their original order and
      the same operators, and its output consists of nothing else. */
  lemma ToRpnConserves(ts: seq<Token>)
    requires ToRpn(ts).Ok?
    ensures NumbersOf(ToRpn(ts).value) == NumbersOf(ts)
    ensures OperatorsOf(ToRpn(ts).value) == OperatorsOf(ts)
    ensures |ToRpn(ts).value| == |NumbersOf(ts)| + |OperatorsOf(ts)|
  {
    var empty: seq<Token> := [];
    var shunted := Shunt(ts, empty, []).value;
    var out := ToRpn(ts).value;
    ToRpnFlushes(ts);
    UnwindConserves(shunted.0, shunted.1);
    assert NumbersOf(out) == NumbersOf(ts) by {
      ShuntNumbers(ts, empty, []);
      assert NumbersOf(empty) == [];
    }
    assert OperatorsOf(out) == OperatorsOf(ts) by {
      ShuntOperators(ts, empty, []);
      var none: seq<Pending> := [];
      assert OperatorsOf(empty) + PendingOperators(none) == multiset{};
    }
    ParenFreeLength(out);
  }

  /** A successful `toRPN` ends with a stack free of `(`, unwound onto what
      the main loop wrote. */
  lemma ToRpnFlushes(ts: seq<Token>)
    requires ToRpn(ts).Ok?
    ensures Shunt(ts, [], []).Ok?
    ensures var shunted := Shunt(ts, [], []).value;
      Open !in shunted.1 && ToRpn(ts).value == shunted.0 + Unwind(shunted.1)
  {
  }

  /** Shunting a concatenation shunts the first part, then the second from
      the state the first one left. */
  lemma {:induction false} ShuntAppend(a: seq<Token>, b: seq<Token>, out: seq<Token>, ops: seq<Pending>)
    ensures Shunt(a + b, out, ops) ==
      (match Shunt(a, out, ops)
       case Err(e) => Err(e)
       case Ok(st) => Shunt(b, st.0, st.1))
    decreases |a|
  {
    if |a| == 0 {
      assert a + b == b;
    } else {
      assert (a + b)[0] == a[0];
      assert (a + b)[1..] == a[1..] + b;
      var step := Step(a[0], out, ops);
      if step.Ok? {
        ShuntAppend(a[1..], b, step.value.0, step.value.1);
      }
    }
  }
}
