/**
 The single-pass scanner `tokenize` (script.js:88-135).

 The scanner is modelled over the text that remains to be read, `rest`,
 rather than over an index into the whole string: each step consumes a
 non-empty prefix of `rest`, which is the progress measure of the source's
 loop (its index strictly increases, script.js:91-133).
 */
module Lexer {
  import opened Text
  import opened Tokens
  import opened Numbers

  /** The token a symbol character stands for (script.js:112). */
  function SymbolToken(c: char): Token
    requires IsSymbolChar(c)
  {
    if c == '(' then LParen
    else if c == ')' then RParen
    else if c == '+' then Operator(Add)
    else if c == '-' then Operator(Sub)
    else if c == '*' then Operator(Mul)
    else Operator(Div)
  }

  /** A `-` read in this context is a sign: at the start, or after a token
      that is not a number and not `)` (script.js:96). */
  predicate SignContext(acc: seq<Token>) {
    |acc| == 0 || acc[|acc| - 1].Operator? || acc[|acc| - 1].LParen?
  }

  /** Whether `c` would extend a literal whose point has (`dotSeen`) or has
      not yet been read. */
  predicate Continues(c: char, dotSeen: bool) {
    IsDigit(c) || (c == '.' && !dotSeen)
  }

  /** The length of the literal the inner loop reads from the front of `rest`
      (script.js:101-107, :120-126): digits and at most one point, stopping
      before any other character or before a second point. */
  function LiteralLength(rest: string, hasDot: bool): (k: nat)
    ensures k <= |rest|
    ensures forall i :: 0 <= i < k ==> IsLiteralChar(rest[i])
    ensures Dots(rest[..k]) <= (if hasDot then 0 else 1)
    ensures k == |rest| || !Continues(rest[k], hasDot || Dots(rest[..k]) == 1)
    decreases |rest|
  {
    if |rest| == 0 then 0
    else if rest[0] == '.' then
      if hasDot then 0
      else
        var k := 1 + LiteralLength(rest[1..], true);
        assert rest[..k][1..] == rest[1..][..k - 1];
        k
    else if IsDigit(rest[0]) then
      var k := 1 + LiteralLength(rest[1..], hasDot);
      assert rest[..k][1..] == rest[1..][..k - 1];
      k
    else 0
  }

  /** The literal the scanner reads is the longest one: when `lit` is literal
      text that the next character cannot extend, the scanner reads exactly `lit`. */
  lemma {:induction false} MaximalLiteral(lit: string, tail: string, hasDot: bool)
    requires forall i :: 0 <= i < |lit| ==> IsLiteralChar(lit[i])
    requires Dots(lit) + (if hasDot then 1 else 0) <= 1
    requires tail == [] || !Continues(tail[0], hasDot || Dots(lit) == 1)
    ensures LiteralLength(lit + tail, hasDot) == |lit|
    decreases |lit|
  {
    if |lit| == 0 {
      assert lit + tail == tail;
    } else {
      assert (lit + tail)[0] == lit[0];
      assert (lit + tail)[1..] == lit[1..] + tail;
      MaximalLiteral(lit[1..], tail, hasDot || lit[0] == '.');
    }
  }

  lemma SkipAccepted(rest: string, k: nat)
    requires k <= |rest|
    requires forall i :: 0 <= i < k ==> IsExpressionChar(rest[i])
    ensures AllExpressionChars(rest) <==> AllExpressionChars(rest[k..])
  {
    if AllExpressionChars(rest[k..]) {
      forall i | k <= i < |rest|
        ensures IsExpressionChar(rest[i])
      {
        assert rest[i] == rest[k..][i - k];
      }
    }
  }

  /** The scanner loop over the text still to read, with the tokens produced
      so far. It fails exactly when some character it would read is not an
      expression character, and then with "Invalid character" (script.js:132). */
  function Scan(rest: string, acc: seq<Token>): (r: Result<seq<Token>>)
    ensures r.Err? <==> !AllExpressionChars(rest)
    ensures r.Err? ==> r.error == InvalidCharacter
    ensures r.Ok? ==> acc <= r.value
    decreases |rest|
  {
    if |rest| == 0 then Ok(acc)
    else
      var ch := rest[0];
      if ch == ' ' then
        SkipAccepted(rest, 1);
        Scan(rest[1..], acc)
      else if IsSymbolChar(ch) then
        if ch == '-' && SignContext(acc) then
          var k := LiteralLength(rest[1..], false);
          if k == 0 then
            SkipAccepted(rest, 1);
            Scan(rest[1..], acc + [Operator(Sub)])
          else
            assert forall i :: 1 <= i < 1 + k ==> rest[i] == rest[1..][i - 1];
            SkipAccepted(rest, 1 + k);
            assert rest[..1 + k] == "-" + rest[1..][..k];
            Scan(rest[1 + k..], acc + [Number(ParseFloat(rest[..1 + k]))])
        else
          SkipAccepted(rest, 1);
          Scan(rest[1..], acc + [SymbolToken(ch)])
      else if IsLiteralChar(ch) then
        var k := LiteralLength(rest, false);
        SkipAccepted(rest, k);
        Scan(rest[k..], acc + [Number(ParseFloat(rest[..k]))])
      else
        assert !IsExpressionChar(rest[0]);
        Err(InvalidCharacter)
  }

  /** `tokenize(s)` (script.js:88-135). */
  function Tokenize(s: string): (r: Result<seq<Token>>)
    ensures r.Err? <==> exists i :: 0 <= i < |s| && !IsExpressionChar(s[i])
    ensures r.Err? ==> r.error == InvalidCharacter
  {
    Scan(s, [])
  }

  /** A digit or point starts a literal that runs as far as it can; it
      becomes one number token. */
  lemma ScanLiteral(lit: string, tail: string, acc: seq<Token>)
    requires |lit| > 0 && LiteralText(lit)
    requires tail == [] || !Continues(tail[0], Dots(lit) == 1)
    ensures Scan(lit + tail, acc) == Scan(tail, acc + [Number(Unsigned(lit))])
  {
    var rest := lit + tail;
    assert rest[0] == lit[0];
    MaximalLiteral(lit, tail, false);
    assert rest[..|lit|] == lit;
    assert rest[|lit|..] == tail;
  }

  /** A `-` in sign context followed by a literal is fused with it into one
      negative number (script.js:96-109). */
  lemma ScanFusedMinus(lit: string, tail: string, acc: seq<Token>)
    requires SignContext(acc)
    requires |lit| > 0 && LiteralText(lit)
    requires tail == [] || !Continues(tail[0], Dots(lit) == 1)
    ensures Scan("-" + lit + tail, acc) == Scan(tail, acc + [Number(Negate(Unsigned(lit)))])
  {
    var rest := "-" + lit + tail;
    assert rest[1..] == lit + tail;
    MaximalLiteral(lit, tail, false);
    assert rest[..1 + |lit|] == "-" + lit;
    assert ("-" + lit)[1..] == lit;
    assert rest[1 + |lit|..] == tail;
  }

  /** A `-` in sign context that no literal follows stays an operator
      (script.js:108). */
  lemma ScanLoneMinus(tail: string, acc: seq<Token>)
    requires SignContext(acc)
    requires tail == [] || !IsLiteralChar(tail[0])
    ensures Scan("-" + tail, acc) == Scan(tail, acc + [Operator(Sub)])
  {
    var rest := "-" + tail;
    assert rest[1..] == tail;
    assert LiteralLength(tail, false) == 0;
  }

  /** After a number or `)` a `-` is always the subtraction operator
      (script.js:96, :112). */
  lemma ScanBinaryMinus(tail: string, acc: seq<Token>)
    requires !SignContext(acc)
    ensures Scan("-" + tail, acc) == Scan(tail, acc + [Operator(Sub)])
  {
    var rest := "-" + tail;
    assert rest[1..] == tail;
  }

  /** A parenthesis or operator outside sign context is one token of its own
      (script.js:111-114). */
  lemma ScanSymbol(c: char, tail: string, acc: seq<Token>)
    requires IsSymbolChar(c)
    requires c == '-' ==> !SignContext(acc)
    ensures Scan([c] + tail, acc) == Scan(tail, acc + [SymbolToken(c)])
  {
    var rest := [c] + tail;
    assert rest[0] == c;
    assert rest[1..] == tail;
  }

  /** A space is skipped and produces no token (script.js:93). */
  lemma ScanSpace(tail: string, acc: seq<Token>)
    ensures Scan([' '] + tail, acc) == Scan(tail, acc)
  {
    assert ([' '] + tail)[1..] == tail;
  }

  /** The operator characters and the operators correspond one to one: each
      operator's character scans back to that operator, and every operator
      character is the character of the operator it scans to. */
  lemma OperatorCharRoundTrip(o: Op, c: char)
    ensures IsOperatorChar(OpChar(o)) && SymbolToken(OpChar(o)) == Operator(o)
    ensures IsOperatorChar(c) ==> SymbolToken(c).Operator? && OpChar(SymbolToken(c).op) == c
  {
  }

  /** A lone digit is the number it denotes. */
  lemma UnsignedDigit(c: char)
    requires IsDigit(c)
    ensures LiteralText([c])
    ensures Unsigned([c]) == Fin(DigitValue(c) as real)
  {
    var t := [c];
    assert Dots(t) == 0 by {
      assert t[1..] == [];
    }
    assert HasDigit(t) by {
      assert IsDigit(t[0]);
    }
    assert PointIndex(t) == 1 by {
      assert t[1..] == [];
    }
    assert t[..1] == t;
    assert DigitsValue(t) == DigitValue(c) by {
      assert t[..|t| - 1] == [];
    }
  }

  /** A digit that no literal character follows is one number token. */
  lemma ScanDigit(c: char, tail: string, acc: seq<Token>)
    requires IsDigit(c)
    requires tail == [] || !IsLiteralChar(tail[0])
    ensures Scan([c] + tail, acc) == Scan(tail, acc + [Number(Fin(DigitValue(c) as real))])
  {
    UnsignedDigit(c);
    ScanLiteral([c], tail, acc);
  }

  /** `ScanSymbol` at position `i` of a text. */
  lemma ScanSymbolAt(s: string, i: nat, acc: seq<Token>)
    requires i < |s| && IsSymbolChar(s[i])
    requires s[i] == '-' ==> !SignContext(acc)
    ensures Scan(s[i..], acc) == Scan(s[i + 1..], acc + [SymbolToken(s[i])])
  {
    assert s[i..] == [s[i]] + s[i + 1..];
    ScanSymbol(s[i], s[i + 1..], acc);
  }

  /** `ScanDigit` at position `i` of a text. */
  lemma ScanDigitAt(s: string, i: nat, acc: seq<Token>)
    requires i < |s| && IsDigit(s[i])
    requires i + 1 == |s| || !IsLiteralChar(s[i + 1])
    ensures Scan(s[i..], acc) == Scan(s[i + 1..], acc + [Number(Fin(DigitValue(s[i]) as real))])
  {
    assert s[i..] == [s[i]] + s[i + 1..];
    ScanDigit(s[i], s[i + 1..], acc);
  }

  /** Scanning a printed natural number gives back that number as one token. */
  lemma TokenizeShowNat(n: nat)
    ensures Tokenize(ShowNat(n)) == Ok([Number(Fin(n as real))])
  {
    var s := ShowNat(n);
    ParseShowNat(n);
    assert IsDigit(s[0]);
    assert ParseFloat(s) == Unsigned(s);
    NoDotsMeansNoPoint(s);
    var none: string := [];
    assert s + none == s;
    ScanLiteral(s, none, []);
    assert [] + [Number(Unsigned(s))] == [Number(Unsigned(s))];
    assert Scan([], [Number(Unsigned(s))]) == Ok([Number(Unsigned(s))]);
    assert Unsigned(s) == Fin(n as real);
    assert Tokenize(s) == Scan(s, []);
  }

  lemma UnsignedExamples()
    ensures Unsigned("1.2") == Fin(1.2)
    ensures Unsigned(".3") == Fin(0.3)
    ensures Unsigned("3") == Fin(3.0)
    ensures Unsigned("2") == Fin(2.0)
  {
    assert PointIndex("1.2") == 1;
    assert PointIndex(".3") == 0;
    assert PointIndex("3") == 1;
    assert PointIndex("2") == 1;
  }

  /** A second point ends a literal without being consumed: "1.2.3" is the
      two numbers 1.2 and .3 (script.js:104, :123). */
  lemma SecondPointSplits()
    ensures Tokenize("1.2.3") == Ok([Number(Fin(1.2)), Number(Fin(0.3))])
  {
    var a, b := "1.2", ".3";
    var x, y := Number(Fin(1.2)), Number(Fin(0.3));
    UnsignedExamples();
    assert Dots(a) == 1 && Dots(b) == 1;
    assert LiteralText(a) && LiteralText(b);
    assert "1.2.3" == a + b;
    ScanLiteral(a, b, []);
    assert [] + [x] == [x];
    var none: string := [];
    assert b == b + none;
    ScanLiteral(b, none, [x]);
    assert [x] + [y] == [x, y];
  }

  /** A `-` in sign context and a lone digit are one negative number. */
  lemma ScanNegativeDigit(d: char, tail: string, acc: seq<Token>)
    requires SignContext(acc) && IsDigit(d)
    requires tail == [] || !IsLiteralChar(tail[0])
    ensures Scan(['-', d] + tail, acc) == Scan(tail, acc + [Number(Fin(-(DigitValue(d) as real)))])
  {
    UnsignedDigit(d);
    assert ['-', d] + tail == "-" + [d] + tail;
    ScanFusedMinus([d], tail, acc);
  }

  /** A digit followed by an operator is a number and that operator. */
  lemma ScanDigitThenOperator(d: char, o: char, tail: string, acc: seq<Token>)
    requires IsDigit(d) && IsOperatorChar(o)
    ensures Scan([d, o] + tail, acc) == Scan(tail, acc + [Number(Fin(DigitValue(d) as real)), SymbolToken(o)])
  {
    var x := Number(Fin(DigitValue(d) as real));
    assert [d, o] + tail == [d] + ([o] + tail);
    ScanDigit(d, [o] + tail, acc);
    ScanSymbol(o, tail, acc + [x]);
    assert (acc + [x]) + [SymbolToken(o)] == acc + [x, SymbolToken(o)];
  }

  /** A digit, an operator, `-` and a digit: the `-` follows an operator, so
      it is the sign of the second number. */
  lemma TokenizeOperatorNegative(a: char, o: char, b: char)
    requires IsDigit(a) && IsOperatorChar(o) && IsDigit(b)
    ensures Tokenize([a, o, '-', b]) ==
      Ok([Number(Fin(DigitValue(a) as real)), SymbolToken(o), Number(Fin(-(DigitValue(b) as real)))])
  {
    var x, m, y := Number(Fin(DigitValue(a) as real)), SymbolToken(o), Number(Fin(-(DigitValue(b) as real)));
    var none: string := [];
    var empty: seq<Token> := [];
    var rest := ['-', b] + none;
    assert [a, o, '-', b] == [a, o] + rest;
    assert Scan([a, o] + rest, empty) == Scan(rest, [x, m]) by {
      ScanDigitThenOperator(a, o, rest, empty);
      assert empty + [x, m] == [x, m];
    }
    assert Scan(rest, [x, m]) == Scan(none, [x, m, y]) by {
      ScanNegativeDigit(b, none, [x, m]);
      assert [x, m] + [y] == [x, m, y];
    }
  }

  /** "3--2" is three minus negative two: the second `-` is a sign. */
  lemma DoubleMinus(s: string)
    requires s == "3--2"
    ensures Tokenize(s) == Ok([Number(Fin(3.0)), Operator(Sub), Number(Fin(-2.0))])
  {
    assert s == ['3', '-', '-', '2'];
    TokenizeOperatorNegative('3', '-', '2');
    assert DigitValue('3') == 3 && DigitValue('2') == 2;
  }

  /** "3*-2" is three times negative two. */
  lemma TimesNegative(s: string)
    requires s == "3*-2"
    ensures Tokenize(s) == Ok([Number(Fin(3.0)), Operator(Mul), Number(Fin(-2.0))])
  {
    assert s == ['3', '*', '-', '2'];
    TokenizeOperatorNegative('3', '*', '2');
    assert DigitValue('3') == 3 && DigitValue('2') == 2;
  }

  /** A digit or a symbol: a character that can be a token on its own. */
  predicate IsTokenChar(c: char) {
    IsDigit(c) || IsSymbolChar(c)
  }

  predicate AllTokenChars(s: string) {
    forall i :: 0 <= i < |s| ==> IsTokenChar(s[i])
  }

  /** The token of a character that is a token on its own. */
  function CharToken(c: char): Token
    requires IsTokenChar(c)
  {
    if IsDigit(c) then Number(Fin(DigitValue(c) as real)) else SymbolToken(c)
  }

  /** At `i`, no literal character follows a digit, and a `-` that has a
      predecessor follows a digit or `)`, so that it is subtraction. */
  predicate OneCharTokenAt(s: string, i: nat)
    requires i < |s|
  {
    && (IsDigit(s[i]) && i + 1 < |s| ==> !IsLiteralChar(s[i + 1]))
    && (s[i] == '-' && 0 < i ==> IsDigit(s[i - 1]) || s[i - 1] == ')')
  }

  /** Text in which every character is a token of its own. */
  predicate OneCharTokens(s: string) {
    && AllTokenChars(s)
    && forall i :: 0 <= i < |s| ==> OneCharTokenAt(s, i)
  }

  /** The tokens of such text, one per character. */
  function CharTokens(s: string): (r: seq<Token>)
    requires AllTokenChars(s)
    ensures |r| == |s|
    ensures forall i :: 0 <= i < |s| ==> r[i] == CharToken(s[i])
  {
    if |s| == 0 then [] else [CharToken(s[0])] + CharTokens(s[1..])
  }

  /** One step over such text: its next character becomes its token. */
  lemma ScanOneCharToken(s: string, i: nat, acc: seq<Token>)
    requires OneCharTokens(s) && i < |s|
    requires s[i] == '-' ==> !SignContext(acc)
    ensures Scan(s[i..], acc) == Scan(s[i + 1..], acc + [CharToken(s[i])])
  {
    assert OneCharTokenAt(s, i);
    if IsDigit(s[i]) {
      ScanDigitAt(s, i, acc);
    } else {
      ScanSymbolAt(s, i, acc);
    }
  }

  /** Such text scans character by character, provided a `-` at the start is
      not read in sign context. */
  lemma {:induction false} ScanOneCharTokens(s: string, i: nat, acc: seq<Token>)
    requires OneCharTokens(s) && i <= |s|
    requires i < |s| && s[i] == '-' ==> !SignContext(acc)
    ensures Scan(s[i..], acc) == Ok(acc + CharTokens(s[i..]))
    decreases |s| - i
  {
    if i == |s| {
      assert s[i..] == [];
      assert acc + [] == acc;
    } else {
      var t := CharToken(s[i]);
      ScanOneCharToken(s, i, acc);
      assert i + 1 < |s| && s[i + 1] == '-' ==> !SignContext(acc + [t]) by {
        if i + 1 < |s| && s[i + 1] == '-' {
          assert OneCharTokenAt(s, i + 1);
        }
      }
      ScanOneCharTokens(s, i + 1, acc + [t]);
      assert CharTokens(s[i..]) == [t] + CharTokens(s[i + 1..]) by {
        assert s[i..][1..] == s[i + 1..];
      }
      AppendAssoc(acc, [t], CharTokens(s[i + 1..]));
    }
  }

  /** Text of single digits and symbols, not starting with `-`, is scanned
      one token per character. */
  lemma TokenizeOneCharTokens(s: string)
    requires OneCharTokens(s)
    requires |s| > 0 ==> s[0] != '-'
    ensures Tokenize(s) == Ok(CharTokens(s))
  {
    var none: seq<Token> := [];
    assert Scan(s, none) == Ok(none + CharTokens(s)) by {
      assert s[0..] == s;
      ScanOneCharTokens(s, 0, none);
    }
    assert none + CharTokens(s) == CharTokens(s);
  }

  /** Text of single digits and symbols scans to the tokens `want`, given
      character by character. */
  lemma TokenizeCharByChar(s: string, want: seq<Token>)
    requires OneCharTokens(s)
    requires |s| > 0 ==> s[0] != '-'
    requires |want| == |s| && forall i :: 0 <= i < |s| ==> want[i] == CharToken(s[i])
    ensures Tokenize(s) == Ok(want)
  {
    TokenizeOneCharTokens(s);
    assert CharTokens(s) == want;
  }

  /** Each character of this text is a token of its own. */
  lemma PrecedenceChars(s: string, want: seq<Token>)
    requires s == "2+3*4"
    requires want == [Number(Fin(2.0)), Operator(Add), Number(Fin(3.0)), Operator(Mul), Number(Fin(4.0))]
    ensures OneCharTokens(s)
    ensures |want| == |s| && forall i :: 0 <= i < |s| ==> want[i] == CharToken(s[i])
  {
    assert OneCharTokens(s) by {
      assert OneCharTokenAt(s, 0) && OneCharTokenAt(s, 1) && OneCharTokenAt(s, 2);
      assert OneCharTokenAt(s, 3) && OneCharTokenAt(s, 4);
    }
  }

  /** "2+3*4" is five tokens: each digit a number, each symbol an operator. */
  lemma TokenizePrecedence(s: string)
    requires s == "2+3*4"
    ensures Tokenize(s) ==
      Ok([Number(Fin(2.0)), Operator(Add), Number(Fin(3.0)), Operator(Mul), Number(Fin(4.0))])
  {
    var want := [Number(Fin(2.0)), Operator(Add), Number(Fin(3.0)), Operator(Mul), Number(Fin(4.0))];
    PrecedenceChars(s, want);
    TokenizeCharByChar(s, want);
  }

  /** Each character of this text is a token of its own. */
  lemma GroupingChars(s: string, want: seq<Token>)
    requires s == "(2+3)*4"
    requires want == [LParen, Number(Fin(2.0)), Operator(Add), Number(Fin(3.0)), RParen, Operator(Mul), Number(Fin(4.0))]
    ensures OneCharTokens(s)
    ensures |want| == |s| && forall i :: 0 <= i < |s| ==> want[i] == CharToken(s[i])
  {
    assert OneCharTokens(s) by {
      assert OneCharTokenAt(s, 0) && OneCharTokenAt(s, 1) && OneCharTokenAt(s, 2) && OneCharTokenAt(s, 3);
      assert OneCharTokenAt(s, 4) && OneCharTokenAt(s, 5) && OneCharTokenAt(s, 6);
    }
  }

  /** Parentheses are tokens of their own: "(2+3)*4". */
  lemma TokenizeGrouping(s: string)
    requires s == "(2+3)*4"
    ensures Tokenize(s) ==
      Ok([LParen, Number(Fin(2.0)), Operator(Add), Number(Fin(3.0)), RParen, Operator(Mul), Number(Fin(4.0))])
  {
    var want := [LParen, Number(Fin(2.0)), Operator(Add), Number(Fin(3.0)), RParen, Operator(Mul), Number(Fin(4.0))];
    GroupingChars(s, want);
    TokenizeCharByChar(s, want);
  }

  /** A leading `-`, a digit, `+` and a digit: the `-` is fused into the
      first number as its sign. */
  lemma TokenizeNegativePlus(a: char, b: char)
    requires IsDigit(a) && IsDigit(b)
    ensures Tokenize(['-', a, '+', b]) ==
      Ok([Number(Fin(-(DigitValue(a) as real))), Operator(Add), Number(Fin(DigitValue(b) as real))])
  {
    var x, p, y := Number(Fin(-(DigitValue(a) as real))), Operator(Add), Number(Fin(DigitValue(b) as real));
    var none: string := [];
    var empty: seq<Token> := [];
    var last := [b] + none;
    var rest := ['+'] + last;
    assert ['-', a, '+', b] == ['-', a] + rest;
    assert Scan(['-', a] + rest, empty) == Scan(rest, [x]) by {
      ScanNegativeDigit(a, rest, empty);
      assert empty + [x] == [x];
    }
    assert Scan(rest, [x]) == Scan(last, [x, p]) by {
      ScanSymbol('+', last, [x]);
      assert [x] + [p] == [x, p];
    }
    assert Scan(last, [x, p]) == Scan(none, [x, p, y]) by {
      ScanDigit(b, none, [x, p]);
      assert [x, p] + [y] == [x, p, y];
    }
  }

  /** A leading minus is fused into the number after it: "-5+3". */
  lemma TokenizeLeadingMinus(s: string)
    requires s == "-5+3"
    ensures Tokenize(s) == Ok([Number(Fin(-5.0)), Operator(Add), Number(Fin(3.0))])
  {
    assert s == ['-', '5', '+', '3'];
    TokenizeNegativePlus('5', '3');
    assert DigitValue('5') == 5 && DigitValue('3') == 3;
  }

  /** Each character of this text is a token of its own. */
  lemma DivisionByZeroChars(s: string, want: seq<Token>)
    requires s == "5/0"
    requires want == [Number(Fin(5.0)), Operator(Div), Number(Fin(0.0))]
    ensures OneCharTokens(s)
    ensures |want| == |s| && forall i :: 0 <= i < |s| ==> want[i] == CharToken(s[i])
  {
    assert OneCharTokens(s) by {
      assert OneCharTokenAt(s, 0) && OneCharTokenAt(s, 1) && OneCharTokenAt(s, 2);
    }
  }

  /** "5/0" is three tokens; the zero divisor is not the scanner's concern. */
  lemma TokenizeDivisionByZero(s: string)
    requires s == "5/0"
    ensures Tokenize(s) == Ok([Number(Fin(5.0)), Operator(Div), Number(Fin(0.0))])
  {
    var want := [Number(Fin(5.0)), Operator(Div), Number(Fin(0.0))];
    DivisionByZeroChars(s, want);
    TokenizeCharByChar(s, want);
  }

  /** Each character of this text is a token of its own. */
  lemma UnclosedChars(s: string, want: seq<Token>)
    requires s == "(1+2"
    requires want == [LParen, Number(Fin(1.0)), Operator(Add), Number(Fin(2.0))]
    ensures OneCharTokens(s)
    ensures |want| == |s| && forall i :: 0 <= i < |s| ==> want[i] == CharToken(s[i])
  {
    assert OneCharTokens(s) by {
      assert OneCharTokenAt(s, 0) && OneCharTokenAt(s, 1) && OneCharTokenAt(s, 2) && OneCharTokenAt(s, 3);
    }
  }

  /** The scanner does not check parentheses: "(1+2" scans. */
  lemma TokenizeUnclosed(s: string)
    requires s == "(1+2"
    ensures Tokenize(s) == Ok([LParen, Number(Fin(1.0)), Operator(Add), Number(Fin(2.0))])
  {
    var want := [LParen, Number(Fin(1.0)), Operator(Add), Number(Fin(2.0))];
    UnclosedChars(s, want);
    TokenizeCharByChar(s, want);
  }

  /** Each character of this text is a token of its own. */
  lemma UnopenedChars(s: string, want: seq<Token>)
    requires s == "1+2)"
    requires want == [Number(Fin(1.0)), Operator(Add), Number(Fin(2.0)), RParen]
    ensures OneCharTokens(s)
    ensures |want| == |s| && forall i :: 0 <= i < |s| ==> want[i] == CharToken(s[i])
  {
    assert OneCharTokens(s) by {
      assert OneCharTokenAt(s, 0) && OneCharTokenAt(s, 1) && OneCharTokenAt(s, 2) && OneCharTokenAt(s, 3);
    }
  }

  /** Nor does it reject a `)` that nothing opened: "1+2)" scans. */
  lemma TokenizeUnopened(s: string)
    requires s == "1+2)"
    ensures Tokenize(s) == Ok([Number(Fin(1.0)), Operator(Add), Number(Fin(2.0)), RParen])
  {
    var want := [Number(Fin(1.0)), Operator(Add), Number(Fin(2.0)), RParen];
    UnopenedChars(s, want);
    TokenizeCharByChar(s, want);
  }
}
