/**
 Character classes of the calculator's expression text, and the counting of
 decimal points that both the scanner and the editing rules depend on.
 */
module Text {

  predicate IsDigit(c: char) {
    '0' <= c <= '9'
  }

  /** A character that may appear inside a numeric literal: `[0-9.]`. */
  predicate IsLiteralChar(c: char) {
    IsDigit(c) || c == '.'
  }

  predicate IsOperatorChar(c: char) {
    c == '+' || c == '-' || c == '*' || c == '/'
  }

  /** The characters the scanner turns into a token of their own: `()+-*\/`. */
  predicate IsSymbolChar(c: char) {
    c == '(' || c == ')' || IsOperatorChar(c)
  }

  /** Every character the scanner accepts: a space, a symbol, a digit or `.`. */
  predicate IsExpressionChar(c: char) {
    c == ' ' || IsSymbolChar(c) || IsLiteralChar(c)
  }

  predicate AllExpressionChars(s: string) {
    forall i :: 0 <= i < |s| ==> IsExpressionChar(s[i])
  }

  predicate AllDigits(s: string) {
    forall i :: 0 <= i < |s| ==> IsDigit(s[i])
  }

  predicate HasDigit(s: string) {
    exists i :: 0 <= i < |s| && IsDigit(s[i])
  }

  /** The number of decimal points in `s`. */
  function Dots(s: string): nat {
    if |s| == 0 then 0 else (if s[0] == '.' then 1 else 0) + Dots(s[1..])
  }

  /** Text a numeric literal may consist of: the language of `[0-9]*\.?[0-9]*`,
      that is digits and decimal points with at most one point. */
  predicate LiteralText(s: string) {
    && (forall i :: 0 <= i < |s| ==> IsLiteralChar(s[i]))
    && Dots(s) <= 1
  }

  lemma {:induction false} DotsAppend(a: string, b: string)
    ensures Dots(a + b) == Dots(a) + Dots(b)
    decreases |a|
  {
    if |a| == 0 {
      assert a + b == b;
    } else {
      assert (a + b)[1..] == a[1..] + b;
      DotsAppend(a[1..], b);
    }
  }

  lemma {:induction false} NoDotsMeansNoPoint(s: string)
    ensures Dots(s) == 0 <==> forall i :: 0 <= i < |s| ==> s[i] != '.'
    decreases |s|
  {
    if |s| > 0 {
      NoDotsMeansNoPoint(s[1..]);
      assert forall i :: 1 <= i < |s| ==> s[i] == s[1..][i - 1];
    }
  }

  /** Dropping characters from the front of literal text leaves literal text. */
  lemma LiteralTextSuffix(s: string, k: nat)
    requires k <= |s|
    requires LiteralText(s)
    ensures LiteralText(s[k..])
  {
    assert s == s[..k] + s[k..];
    DotsAppend(s[..k], s[k..]);
  }
}
