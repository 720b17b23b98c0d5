/**
 Arithmetic on calculator numbers and the reading of numeric literals.

 Arithmetic is exact on reals; NaN absorbs every operation, and a division
 whose divisor is zero yields NaN instead of failing (script.js:181).
 Literal text is read as the exact decimal it denotes, which is what
 `parseFloat` computes up to binary rounding.
 */
module Numbers {
  import opened Text
  import opened Tokens

  /** `a o b` as evalRPN computes it. */
  function Apply(o: Op, a: Num, b: Num): (r: Num)
    ensures r.NaN? <==> (a.NaN? || b.NaN? || (o == Div && b == Fin(0.0)))
    ensures r.Fin? && o == Add ==> r.r == a.r + b.r
    ensures r.Fin? && o == Sub ==> r.r == a.r - b.r
    ensures r.Fin? && o == Mul ==> r.r == a.r * b.r
    ensures r.Fin? && o == Div ==> b.r != 0.0 && r.r * b.r == a.r
  {
    match (a, b)
    case (Fin(x), Fin(y)) =>
      (match o
       case Add => Fin(x + y)
       case Sub => Fin(x - y)
       case Mul => Fin(x * y)
       case Div => if y == 0.0 then NaN else Fin(x / y))
    case _ => NaN
  }

  function Negate(n: Num): Num {
    match n
    case Fin(x) => Fin(-x)
    case NaN => NaN
  }

  function DigitValue(c: char): nat
    requires IsDigit(c)
  {
    (c as int) - ('0' as int)
  }

  /** The natural number a run of decimal digits denotes. */
  function DigitsValue(ds: string): nat
    requires AllDigits(ds)
    decreases |ds|
  {
    if |ds| == 0 then 0 else DigitsValue(ds[..|ds| - 1]) * 10 + DigitValue(ds[|ds| - 1])
  }

  function Pow10(n: nat): (r: nat)
    ensures r > 0
  {
    if n == 0 then 1 else 10 * Pow10(n - 1)
  }

  /** The position of the first decimal point of `t`, or `|t|` when there is none. */
  function PointIndex(t: string): (d: nat)
    ensures d <= |t|
    ensures forall i :: 0 <= i < d ==> t[i] != '.'
    ensures d < |t| ==> t[d] == '.'
    decreases |t|
  {
    if |t| == 0 then 0
    else if t[0] == '.' then 0
    else 1 + PointIndex(t[1..])
  }

  /** After the only point of literal text come digits alone. */
  lemma DigitsAfterPoint(t: string, d: nat)
    requires LiteralText(t)
    requires d < |t| && t[d] == '.'
    ensures AllDigits(t[d + 1..])
  {
    var after := t[d + 1..];
    assert Dots(after) == 0 by {
      assert t == t[..d] + (['.'] + after);
      DotsAppend(t[..d], ['.'] + after);
      DotsAppend(['.'], after);
    }
    NoDotsMeansNoPoint(after);
    assert forall i :: 0 <= i < |after| ==> after[i] == t[d + 1 + i];
  }

  /** Around its only point, literal text holds digits alone. */
  lemma SplitAtPoint(t: string)
    requires LiteralText(t)
    ensures AllDigits(t[..PointIndex(t)])
    ensures PointIndex(t) < |t| ==> AllDigits(t[PointIndex(t) + 1..])
  {
    var d := PointIndex(t);
    assert forall i :: 0 <= i < d ==> t[..d][i] == t[i];
    if d < |t| {
      DigitsAfterPoint(t, d);
    }
  }

  lemma {:induction false} AllPointsCount(t: string)
    requires forall i :: 0 <= i < |t| ==> t[i] == '.'
    ensures Dots(t) == |t|
    decreases |t|
  {
    if |t| > 0 {
      AllPointsCount(t[1..]);
    }
  }

  /** `parseFloat` of unsigned literal text: NaN exactly for the literals
      without a digit, which are "" and "." (script.js:127). */
  function Unsigned(t: string): (r: Num)
    requires LiteralText(t)
    ensures r.NaN? <==> (t == "" || t == ".")
  {
    if !HasDigit(t) then
      AllPointsCount(t);
      NaN
    else
      var d := PointIndex(t);
      SplitAtPoint(t);
      var whole := DigitsValue(t[..d]) as real;
      if d == |t| then Fin(whole)
      else
        var frac := t[d + 1..];
        Fin(whole + (DigitsValue(frac) as real) / (Pow10(|frac|) as real))
  }

  /** Text the scanner hands to `parseFloat`: literal text, optionally after a
      fused minus sign. */
  predicate SignedLiteralText(t: string) {
    LiteralText(t) || (|t| > 0 && t[0] == '-' && LiteralText(t[1..]))
  }

  /** `parseFloat` of the text the scanner accumulated (script.js:109, :127).
      Only "", ".", "-" and "-." lack a digit and so give NaN. */
  function ParseFloat(t: string): (r: Num)
    requires SignedLiteralText(t)
    ensures r.NaN? <==> (t == "" || t == "." || t == "-" || t == "-.")
    ensures |t| > 0 && t[0] == '-' ==> r == Negate(Unsigned(t[1..]))
  {
    if |t| > 0 && t[0] == '-' then Negate(Unsigned(t[1..])) else Unsigned(t)
  }

  function DigitChar(d: nat): (c: char)
    requires d < 10
    ensures IsDigit(c) && DigitValue(c) == d
  {
    ('0' as int + d) as char
  }

  /** The decimal numeral of `n`, without leading zeros. */
  function ShowNat(n: nat): (s: string)
    ensures |s| > 0 && AllDigits(s)
    decreases n
  {
    if n < 10 then [DigitChar(n)] else ShowNat(n / 10) + [DigitChar(n % 10)]
  }

  lemma {:induction false} DigitsOfShowNat(n: nat)
    ensures DigitsValue(ShowNat(n)) == n
    decreases n
  {
    var s := ShowNat(n);
    if n >= 10 {
      assert s[..|s| - 1] == ShowNat(n / 10);
      DigitsOfShowNat(n / 10);
    } else {
      assert s[..|s| - 1] == [];
    }
  }

  /** Reading back a printed natural number gives that number. */
  lemma ParseShowNat(n: nat)
    ensures LiteralText(ShowNat(n))
    ensures ParseFloat(ShowNat(n)) == Fin(n as real)
  {
    var s := ShowNat(n);
    NoDotsMeansNoPoint(s);
    assert IsDigit(s[0]);
    assert HasDigit(s);
    assert forall i :: 0 <= i < |s| ==> s[i] != '.';
    assert PointIndex(s) == |s|;
    assert s[..|s|] == s;
    DigitsOfShowNat(n);
  }
}
