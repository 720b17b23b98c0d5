/**
 The values that flow through the expression pipeline: operators, numbers,
 tokens, the errors the pipeline raises, and views of a token sequence that
 keep only its numbers or only its operators.
 */
module Tokens {

  /** The four binary operators; each stands for one character of `+-*\/`. */
  datatype Op = Add | Sub | Mul | Div

  /** A number as the calculator computes it: an exact real, or NaN (the
      value of a literal without digits and of a division by zero). Binary
      floating-point rounding and the infinities are not modelled. */
  datatype Num = Fin(r: real) | NaN

  /** A token: a number (its sign fused in when the scanner saw a unary
      minus), an operator, or a parenthesis. */
  datatype Token = Number(n: Num) | Operator(op: Op) | LParen | RParen

  /** The exceptions the pipeline throws, one per message in the source. */
  datatype Error =
    | InvalidCharacter       // the scanner met a character it does not know
    | MismatchedParentheses  // toRPN found a ')' without '(' or a '(' left open
    | Malformed              // evalRPN lacked operands or ended with != 1 value
    | InvalidRpn             // evalRPN met a parenthesis

  /** Success with a value, or one of the errors above. */
  datatype Result<+T> = Ok(value: T) | Err(error: Error) {
    predicate IsFailure() {
      Err?
    }

    function PropagateFailure<U>(): Result<U>
      requires Err?
    {
      Err(error)
    }

    function Extract(): T
      requires Ok?
    {
      value
    }
  }

  function OpChar(o: Op): char {
    match o
    case Add => '+'
    case Sub => '-'
    case Mul => '*'
    case Div => '/'
  }

  predicate IsParen(t: Token) {
    t.LParen? || t.RParen?
  }

  predicate NoParens(ts: seq<Token>) {
    forall i :: 0 <= i < |ts| ==> !IsParen(ts[i])
  }

  /** The numbers of `ts`, in order. */
  function NumbersOf(ts: seq<Token>): seq<Num> {
    if |ts| == 0 then []
    else (if ts[0].Number? then [ts[0].n] else []) + NumbersOf(ts[1..])
  }

  /** The operators of `ts`, as a multiset. */
  function OperatorsOf(ts: seq<Token>): multiset<Op> {
    if |ts| == 0 then multiset{}
    else (if ts[0].Operator? then multiset{ts[0].op} else multiset{}) + OperatorsOf(ts[1..])
  }

  /** Concatenation is associative; stated once so that proofs can use it
      without reasoning about sequence equality element by element. */
  lemma AppendAssoc<T>(a: seq<T>, b: seq<T>, c: seq<T>)
    ensures (a + b) + c == a + (b + c)
  {
  }

  lemma {:induction false} NumbersOfAppend(a: seq<Token>, b: seq<Token>)
    ensures NumbersOf(a + b) == NumbersOf(a) + NumbersOf(b)
    decreases |a|
  {
    if |a| == 0 {
      assert a + b == b;
    } else {
      assert (a + b)[0] == a[0];
      assert (a + b)[1..] == a[1..] + b;
      NumbersOfAppend(a[1..], b);
      var head := if a[0].Number? then [a[0].n] else [];
      assert NumbersOf(a + b) == head + NumbersOf(a[1..] + b);
      assert NumbersOf(a) == head + NumbersOf(a[1..]);
    }
  }

  lemma {:induction false} OperatorsOfAppend(a: seq<Token>, b: seq<Token>)
    ensures OperatorsOf(a + b) == OperatorsOf(a) + OperatorsOf(b)
    decreases |a|
  {
    if |a| == 0 {
      assert a + b == b;
    } else {
      assert (a + b)[1..] == a[1..] + b;
      OperatorsOfAppend(a[1..], b);
    }
  }

  /** A sequence without parentheses consists of its numbers and its operators. */
  lemma {:induction false} ParenFreeLength(ts: seq<Token>)
    requires NoParens(ts)
    ensures |ts| == |NumbersOf(ts)| + |OperatorsOf(ts)|
    decreases |ts|
  {
    if |ts| > 0 {
      ParenFreeLength(ts[1..]);
    }
  }
}
