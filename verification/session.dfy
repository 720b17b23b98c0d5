/**
 The editing session (script.js:28-29, :77-85, :207-275): the expression
 buffer `expr`, the flag `justEvaluated` and the result display, with each
 key handler a function from one state to the next. Writing to the page
 (`setExpr`, `setResult`) is replaced by the new state's fields.
 */
module Session {
  import opened Text
  import opened Tokens
  import opened Numbers
  import opened Lexer
  import opened Pipeline

  datatype Option<T> = None | Some(value: T)

  /** What the result display shows: the initial "0", "Error", or a number
      that `formatNumber` writes out. */
  datatype Display = Zero | ErrorText | Formatted(value: real)

  datatype State = State(expr: string, justEvaluated: bool, result: Display)

  /** The state the page starts in (script.js:28-29), and the one `doClear`
      returns to. */
  const Initial := State("", false, Zero)

  /** The default `max` of `clampLength` (script.js:83). */
  const MaxLength: nat := 64

  /** `clampLength(str)` (script.js:83-85): the longest prefix of `s` that
      fits in the cap. */
  function ClampLength(s: string): (r: string)
    ensures r <= s && |r| <= MaxLength
    ensures |s| <= MaxLength ==> r == s
    ensures |s| > MaxLength ==> |r| == MaxLength
  {
    if |s| > MaxLength then s[..MaxLength] else s
  }

  /** `lastChar(s)` (script.js:81), with `undefined` for the empty string as
      `None`. */
  function LastChar(s: string): (r: Option<char>)
    ensures r.None? <==> |s| == 0
    ensures r.Some? ==> s == s[..|s| - 1] + [r.value]
  {
    if |s| == 0 then None else Some(s[|s| - 1])
  }

  /** Literal text at `q` reaches to the end of `s[..e]` only if it does from
      every later start. */
  lemma SuffixOfLiteral(s: string, q: nat, k: nat, e: nat)
    requires q <= e && k <= e <= |s|
    ensures q <= k && LiteralText(s[q..e]) ==> LiteralText(s[k..e])
  {
    if q <= k && LiteralText(s[q..e]) {
      LiteralTextSuffix(s[q..e], k - q);
      assert s[q..e][k - q..] == s[k..e];
    }
  }

  /** Walking left from `p` while the suffix stays literal text. */
  function TrailingStartFrom(s: string, p: nat): (q: nat)
    requires p <= |s| && LiteralText(s[p..])
    ensures q <= p && LiteralText(s[q..])
    ensures q > 0 ==> !LiteralText(s[q - 1..])
    decreases p
  {
    if p > 0 && LiteralText(s[p - 1..]) then TrailingStartFrom(s, p - 1) else p
  }

  /** Once a suffix is not literal text, no longer suffix is. */
  lemma NoLongerLiteralSuffix(s: string, p: nat)
    requires 0 < p <= |s| && !LiteralText(s[p - 1..])
    ensures forall q :: 0 <= q < p ==> !LiteralText(s[q..])
  {
    forall q | 0 <= q < p
      ensures !LiteralText(s[q..])
    {
      SuffixOfLiteral(s, q, p - 1, |s|);
      assert s[q..|s|] == s[q..] && s[p - 1..|s|] == s[p - 1..];
    }
  }

  /** Where the match of `/([0-9]*\.?[0-9]*)$/` on `s` begins (script.js:221).
      The pattern always matches, possibly the empty string; the regex engine
      takes the leftmost start from which the rest of `s` is in the pattern's
      language, which is literal text. So the match is the longest suffix of
      `s` that is literal text. */
  function TrailingLiteralStart(s: string): (p: nat)
    ensures p <= |s| && LiteralText(s[p..])
    ensures forall q :: 0 <= q < p ==> !LiteralText(s[q..])
  {
    assert LiteralText(s[|s|..]) by {
      assert s[|s|..] == [];
    }
    var p := TrailingStartFrom(s, |s|);
    if p > 0 then
      NoLongerLiteralSuffix(s, p);
      p
    else p
  }

  /** The number being typed at the end of the buffer: `current` of
      script.js:222. */
  function TrailingNumber(s: string): (t: string)
    ensures |t| <= |s| && s == s[..|s| - |t|] + t && LiteralText(t)
    ensures forall q :: 0 <= q < |s| - |t| ==> !LiteralText(s[q..])
  {
    s[TrailingLiteralStart(s)..]
  }

  /** The index just after the last digit of `s`, if it has a digit. */
  function LastDigitEnd(s: string): (r: Option<nat>)
    ensures r.None? <==> !HasDigit(s)
    ensures r.Some? ==> 0 < r.value <= |s| && IsDigit(s[r.value - 1])
    ensures r.Some? ==> forall i :: r.value <= i < |s| ==> !IsDigit(s[i])
    decreases |s|
  {
    if |s| == 0 then None
    else if IsDigit(s[|s| - 1]) then Some(|s|)
    else
      var r := LastDigitEnd(s[..|s| - 1]);
      assert forall i :: 0 <= i < |s| - 1 ==> s[..|s| - 1][i] == s[i];
      r
  }

  /** The part of the buffer a percent rewrites: `start` to `end`. */
  datatype Span = Span(start: nat, end: nat)

  /** Where `/(\d*\.?\d+)(?!.*\d)/` matches (script.js:246). The match ends
      with a digit after which no digit follows, so it ends just after the
      last digit; it begins at the leftmost position from which the text up to
      there is literal text. Without a digit there is no match. */
  function PercentRun(s: string): (r: Option<Span>)
    ensures r.None? <==> !HasDigit(s)
    ensures r.Some? ==>
      && r.value.start < r.value.end <= |s|
      && IsDigit(s[r.value.end - 1])
      && (forall i :: r.value.end <= i < |s| ==> !IsDigit(s[i]))
      && LiteralText(s[r.value.start..r.value.end])
      && (forall q :: 0 <= q < r.value.start ==> !LiteralText(s[q..r.value.end]))
  {
    match LastDigitEnd(s)
    case None => None
    case Some(e) =>
      var t := s[..e];
      var p := TrailingLiteralStart(t);
      assert LiteralText(t[e - 1..]) by {
        assert t[e - 1..] == [s[e - 1]];
        UnsignedDigit(s[e - 1]);
      }
      assert forall q :: 0 <= q <= e ==> t[q..] == s[q..e];
      Some(Span(p, e))
  }

  /** The characters the buttons and keys can put into the buffer. */
  predicate IsBufferChar(c: char) {
    IsLiteralChar(c) || IsSymbolChar(c)
  }

  predicate BufferText(s: string) {
    forall i :: 0 <= i < |s| ==> IsBufferChar(s[i])
  }

  /** The characters that start a fresh expression right after `=`
      (script.js:208). */
  predicate StartsFresh(c: char) {
    IsDigit(c) || c == '.' || c == '('
  }

  /** The `.` key (script.js:219-225): dropped when the number being typed
      already has a point, written as "0." when no number is being typed, and
      appended otherwise. */
  function PointInput(expr: string): (r: string)
    ensures |expr| <= MaxLength ==> |r| <= MaxLength
  {
    var current := TrailingNumber(expr);
    if '.' in current then expr
    else ClampLength(expr + (if current == "" then "0." else "."))
  }

  /** An operator key (script.js:227-236): dropped on an empty buffer unless
      it is `-`; after an operator it takes that operator's place, unclamped;
      otherwise it is appended. */
  function OperatorInput(expr: string, c: char): (r: string)
    ensures |expr| <= MaxLength ==> |r| <= MaxLength
  {
    if expr == "" && c != '-' then expr
    else
      var lc := LastChar(expr);
      if lc.Some? && IsOperatorChar(lc.value) then expr[..|expr| - 1] + [c]
      else ClampLength(expr + [c])
  }

  /** What one key does to the buffer once any restart has happened
      (script.js:213-241). */
  function EditBuffer(expr: string, c: char): (r: string)
    ensures |expr| <= MaxLength ==> |r| <= MaxLength
  {
    if IsDigit(c) then ClampLength(expr + [c])
    else if c == '.' then PointInput(expr)
    else if IsOperatorChar(c) then OperatorInput(expr, c)
    else if c == '(' || c == ')' then ClampLength(expr + [c])
    else expr
  }

  /** `handleInput(val)` (script.js:207-242) for one character. After `=`, a
      digit, `.` or `(` first clears the buffer and the result; every input
      clears `justEvaluated`. A digit or a parenthesis is appended; `.` and
      the operators follow `PointInput` and `OperatorInput`. Appends are
      clamped to the cap. */
  function HandleInput(st: State, c: char): (r: State)
    ensures !r.justEvaluated
    ensures r.result == (if st.justEvaluated && StartsFresh(c) then Zero else st.result)
    ensures |st.expr| <= MaxLength ==> |r.expr| <= MaxLength
  {
    var restart := st.justEvaluated && StartsFresh(c);
    State(EditBuffer(if restart then "" else st.expr, c), false, if restart then Zero else st.result)
  }

  /** `doDelete()` (script.js:254-257): drops the last character, if any. */
  function DoDelete(st: State): (r: State)
    ensures r.justEvaluated == st.justEvaluated && r.result == st.result
    ensures |st.expr| == 0 ==> r == st
    ensures |st.expr| > 0 ==> st.expr == r.expr + [st.expr[|st.expr| - 1]]
  {
    if st.expr == "" then st else st.(expr := st.expr[..|st.expr| - 1])
  }

  /** `doClear()` (script.js:259-263): back to the initial state, whatever
      the state was. */
  function DoClear(st: State): (r: State)
    ensures r.expr == "" && !r.justEvaluated && r.result == Zero
  {
    Initial
  }

  /** `formatNumber(n)` (script.js:195-196), up to the text of a finite
      number: a non-finite value shows "Error". */
  function FormatNumber(n: Num): (d: Display)
    ensures d == ErrorText <==> n.NaN?
    ensures n.Fin? ==> d == Formatted(n.r)
  {
    match n
    case NaN => ErrorText
    case Fin(x) => Formatted(x)
  }

  /** `doEquals()` (script.js:265-275). An empty buffer changes nothing.
      Otherwise the buffer is evaluated and kept, the display shows the value
      or "Error" when evaluation throws or gives NaN, and `justEvaluated` is
      set either way. */
  function DoEquals(st: State): (r: State)
    ensures st.expr == "" ==> r == st
    ensures st.expr != "" ==> r.expr == st.expr && r.justEvaluated
    ensures st.expr != "" ==>
      (r.result == ErrorText <==> Evaluate(st.expr).Err? || Evaluate(st.expr).value.NaN?)
    ensures st.expr != "" && r.result != ErrorText ==>
      r.result.Formatted? && Evaluate(st.expr) == Ok(Fin(r.result.value))
  {
    if st.expr == "" then st
    else
      match Evaluate(st.expr)
      case Err(_) => st.(result := ErrorText, justEvaluated := true)
      case Ok(n) => st.(result := FormatNumber(n), justEvaluated := true)
  }

  /** The number a percent rewrites is finite: its text has a digit. */
  lemma PercentRunIsFinite(s: string, run: Span)
    requires PercentRun(s) == Some(run)
    ensures Unsigned(s[run.start..run.end]).Fin?
  {
    var lit := s[run.start..run.end];
    assert lit[|lit| - 1] == s[run.end - 1];
  }

  /** `doPercent()` (script.js:244-252): the last number in the buffer is
      replaced by the text of its hundredth. `render` stands for JavaScript's
      number-to-text conversion. Without a digit nothing changes; the result
      is not clamped. */
  function DoPercent(st: State, render: real -> string): (r: State)
    ensures r.justEvaluated == st.justEvaluated && r.result == st.result
    ensures !HasDigit(st.expr) ==> r == st
    ensures HasDigit(st.expr) ==>
      var run := PercentRun(st.expr).value;
      && Unsigned(st.expr[run.start..run.end]).Fin?
      && r.expr == st.expr[..run.start] + render(Unsigned(st.expr[run.start..run.end]).r / 100.0) + st.expr[run.end..]
  {
    match PercentRun(st.expr)
    case None => st
    case Some(run) =>
      PercentRunIsFinite(st.expr, run);
      var x := Unsigned(st.expr[run.start..run.end]).r;
      st.(expr := st.expr[..run.start] + render(x / 100.0) + st.expr[run.end..])
  }

  /** No number in `s` has two points: between any two points there is a
      character that cannot be part of a number. */
  predicate OnePointPerNumber(s: string) {
    forall i, j :: 0 <= i < j < |s| && s[i] == '.' && s[j] == '.' ==>
      exists k :: i < k < j && !IsLiteralChar(s[k])
  }

  /** No operator directly follows another. */
  predicate NoOperatorPair(s: string) {
    forall i :: 0 < i < |s| && IsOperatorChar(s[i]) ==> !IsOperatorChar(s[i - 1])
  }

  /** What the keys can build: buffer characters only, one point per number,
      no two operators in a row. */
  predicate KeyText(s: string) {
    BufferText(s) && OnePointPerNumber(s) && NoOperatorPair(s)
  }

  /** The buffer invariant of a session driven by the keys. */
  predicate TypedBuffer(s: string) {
    |s| <= MaxLength && KeyText(s)
  }

  lemma PrefixKeepsKeyText(s: string, t: string)
    requires t <= s && KeyText(s)
    ensures KeyText(t)
  {
    forall i, j | 0 <= i < j < |t| && t[i] == '.' && t[j] == '.'
      ensures exists k :: i < k < j && !IsLiteralChar(t[k])
    {
      assert s[i] == t[i] && s[j] == t[j];
      var k :| i < k < j && !IsLiteralChar(s[k]);
      assert t[k] == s[k];
    }
    forall i | 0 < i < |t| && IsOperatorChar(t[i])
      ensures !IsOperatorChar(t[i - 1])
    {
      assert s[i] == t[i] && s[i - 1] == t[i - 1];
    }
  }

  /** Appending a buffer character other than a point, and an operator only
      after a non-operator. */
  lemma AppendKeepsKeyText(s: string, c: char)
    requires KeyText(s) && IsBufferChar(c) && c != '.'
    requires IsOperatorChar(c) && |s| > 0 ==> !IsOperatorChar(s[|s| - 1])
    ensures KeyText(s + [c])
  {
    var t := s + [c];
    forall i, j | 0 <= i < j < |t| && t[i] == '.' && t[j] == '.'
      ensures exists k :: i < k < j && !IsLiteralChar(t[k])
    {
      assert j < |s|;
      assert s[i] == t[i] && s[j] == t[j];
      var k :| i < k < j && !IsLiteralChar(s[k]);
      assert t[k] == s[k];
    }
    forall i | 0 < i < |t| && IsOperatorChar(t[i])
      ensures !IsOperatorChar(t[i - 1])
    {
      assert t[i - 1] == s[i - 1];
      if i < |s| {
        assert t[i] == s[i];
      }
    }
  }

  /** Appending a point after the last non-literal character at `b - 1`,
      when no point follows it. */
  lemma AppendPointKeepsKeyText(s: string, b: nat)
    requires KeyText(s) && b <= |s|
    requires b > 0 ==> !IsLiteralChar(s[b - 1])
    requires forall i :: b <= i < |s| ==> s[i] != '.'
    ensures KeyText(s + ['.'])
  {
    var t := s + ['.'];
    forall i, j | 0 <= i < j < |t| && t[i] == '.' && t[j] == '.'
      ensures exists k :: i < k < j && !IsLiteralChar(t[k])
    {
      assert t[i] == s[i];
      if j < |s| {
        assert t[j] == s[j];
        var k :| i < k < j && !IsLiteralChar(s[k]);
        assert t[k] == s[k];
      } else {
        assert i < b - 1;
        assert t[b - 1] == s[b - 1];
      }
    }
    forall i | 0 < i < |t| && IsOperatorChar(t[i])
      ensures !IsOperatorChar(t[i - 1])
    {
      assert i < |s| && t[i] == s[i] && t[i - 1] == s[i - 1];
    }
  }

  lemma ClampKeepsTyped(s: string)
    requires KeyText(s)
    ensures TypedBuffer(ClampLength(s))
  {
    PrefixKeepsKeyText(s, ClampLength(s));
  }

  /** A point-free literal run stays literal text one character longer
      exactly when that character is a digit or a point. */
  lemma LiteralExtends(s: string, p: nat)
    requires 0 < p <= |s| && LiteralText(s[p..]) && '.' !in s[p..]
    ensures IsLiteralChar(s[p - 1]) ==> LiteralText(s[p - 1..])
  {
    NoDotsMeansNoPoint(s[p..]);
    assert s[p - 1..][1..] == s[p..];
  }

  /** The character just before the number being typed cannot be part of a
      number, when that number has no point. */
  lemma TrailingBoundary(s: string)
    requires '.' !in TrailingNumber(s)
    ensures var p := TrailingLiteralStart(s); p > 0 ==> !IsLiteralChar(s[p - 1])
  {
    var p := TrailingLiteralStart(s);
    if p > 0 {
      LiteralExtends(s, p);
    }
  }

  /** No point follows the start of a point-free number being typed. */
  lemma TrailingPointFree(s: string)
    requires '.' !in TrailingNumber(s)
    ensures forall i :: TrailingLiteralStart(s) <= i < |s| ==> s[i] != '.'
  {
    var t := TrailingNumber(s);
    var p := TrailingLiteralStart(s);
    forall i | p <= i < |s|
      ensures s[i] != '.'
    {
      assert s[i] == t[i - p];
    }
  }

  lemma PointKeepsTyped(expr: string)
    requires TypedBuffer(expr)
    ensures TypedBuffer(PointInput(expr))
  {
    var current := TrailingNumber(expr);
    if '.' !in current {
      TrailingBoundary(expr);
      TrailingPointFree(expr);
      var b := TrailingLiteralStart(expr);
      if current == "" {
        AppendKeepsKeyText(expr, '0');
        assert expr + "0." == expr + ['0'] + ['.'];
        AppendPointKeepsKeyText(expr + ['0'], b);
        ClampKeepsTyped(expr + "0.");
      } else {
        AppendPointKeepsKeyText(expr, b);
        ClampKeepsTyped(expr + ".");
      }
    }
  }

  /** Replacing a trailing operator keeps the invariant: the character
      before it is not an operator. */
  lemma ReplaceKeepsTyped(expr: string, c: char)
    requires TypedBuffer(expr) && IsOperatorChar(c)
    requires |expr| > 0 && IsOperatorChar(expr[|expr| - 1])
    ensures TypedBuffer(expr[..|expr| - 1] + [c])
  {
    var n := |expr|;
    var head := expr[..n - 1];
    PrefixKeepsKeyText(expr, head);
    assert n > 1 ==> head[n - 2] == expr[n - 2] && !IsOperatorChar(expr[n - 2]);
    AppendKeepsKeyText(head, c);
  }

  lemma OperatorKeepsTyped(expr: string, c: char)
    requires TypedBuffer(expr) && IsOperatorChar(c)
    ensures TypedBuffer(OperatorInput(expr, c))
  {
    if expr != "" || c == '-' {
      var lc := LastChar(expr);
      if lc.Some? && IsOperatorChar(lc.value) {
        ReplaceKeepsTyped(expr, c);
      } else {
        AppendKeepsKeyText(expr, c);
        ClampKeepsTyped(expr + [c]);
      }
    }
  }

  lemma EditKeepsTyped(expr: string, c: char)
    requires TypedBuffer(expr)
    ensures TypedBuffer(EditBuffer(expr, c))
  {
    if IsDigit(c) || c == '(' || c == ')' {
      AppendKeepsKeyText(expr, c);
      ClampKeepsTyped(expr + [c]);
    } else if c == '.' {
      PointKeepsTyped(expr);
    } else if IsOperatorChar(c) {
      OperatorKeepsTyped(expr, c);
    }
  }

  /** Every key keeps the buffer within the cap, in the buffer alphabet, with
      one point per number and no two operators in a row. */
  lemma InputKeepsTyped(st: State, c: char)
    requires TypedBuffer(st.expr)
    ensures TypedBuffer(HandleInput(st, c).expr)
  {
    var restart := st.justEvaluated && StartsFresh(c);
    EditKeepsTyped(if restart then "" else st.expr, c);
  }

  /** Backspace keeps the buffer invariant. */
  lemma DeleteKeepsTyped(st: State)
    requires TypedBuffer(st.expr)
    ensures TypedBuffer(DoDelete(st).expr)
  {
    if st.expr != "" {
      PrefixKeepsKeyText(st.expr, DoDelete(st).expr);
    }
  }

  /** What a click or a key press asks for (script.js:278-300): a character
      for `handleInput`, or one of the four other handlers. */
  datatype Action = Input(c: char) | Delete | Clear | Equals | Percent

  /** The keyboard listener (script.js:291-300): which action a key name
      dispatches to, if any. Characters reach `handleInput` one at a time. */
  function KeyAction(k: string): (r: Option<Action>)
    ensures (r.Some? && r.value.Input?) <==> |k| == 1 && IsBufferChar(k[0])
    ensures r.Some? && r.value.Input? ==> k == [r.value.c]
    ensures (r.Some? && r.value.Equals?) <==> k == "Enter" || k == "="
    ensures (r.Some? && r.value.Delete?) <==> k == "Backspace"
    ensures (r.Some? && r.value.Clear?) <==> k == "Escape"
    ensures (r.Some? && r.value.Percent?) <==> k == "%"
  {
    if |k| == 1 && IsBufferChar(k[0]) then Some(Input(k[0]))
    else if k == "Enter" || k == "=" then Some(Equals)
    else if k == "Backspace" then Some(Delete)
    else if k == "Escape" then Some(Clear)
    else if k == "%" then Some(Percent)
    else None
  }

  /** One action applied to the state, with `render` for percent. Only
      `handleInput` and `doClear` clear `justEvaluated`; `=` on a non-empty
      buffer sets it, and backspace and percent leave it as it was. */
  function Perform(st: State, a: Action, render: real -> string): (r: State)
    ensures r.justEvaluated <==>
      || (a.Equals? && (st.expr != "" || st.justEvaluated))
      || ((a.Delete? || a.Percent?) && st.justEvaluated)
    ensures a.Clear? ==> r == Initial
  {
    match a
    case Input(c) => HandleInput(st, c)
    case Delete => DoDelete(st)
    case Clear => DoClear(st)
    case Equals => DoEquals(st)
    case Percent => DoPercent(st, render)
  }

  /** The actions performed one after another. */
  function Run(st: State, actions: seq<Action>, render: real -> string): (r: State)
    ensures |actions| > 0 && actions[|actions| - 1].Clear? ==> r == Initial
    decreases |actions|
  {
    if |actions| == 0 then st
    else Run(Perform(st, actions[0], render), actions[1..], render)
  }

  /** Every action but percent keeps the buffer invariant. */
  lemma PerformKeepsTyped(st: State, a: Action, render: real -> string)
    requires TypedBuffer(st.expr) && !a.Percent?
    ensures TypedBuffer(Perform(st, a, render).expr)
  {
    match a
    case Input(c) => InputKeepsTyped(st, c);
    case Delete => DeleteKeepsTyped(st);
    case Clear => assert Perform(st, a, render).expr == "";
    case Equals =>
    case Percent =>
  }

  /** Whatever is typed, deleted, cleared or evaluated, the buffer keeps its
      invariant; only percent can break it. */
  lemma {:induction false} SessionKeepsTyped(st: State, actions: seq<Action>, render: real -> string)
    requires TypedBuffer(st.expr)
    requires forall i :: 0 <= i < |actions| ==> !actions[i].Percent?
    ensures TypedBuffer(Run(st, actions, render).expr)
    decreases |actions|
  {
    if |actions| > 0 {
      PerformKeepsTyped(st, actions[0], render);
      SessionKeepsTyped(Perform(st, actions[0], render), actions[1..], render);
    }
  }

  /** A typed buffer never holds a character the scanner rejects, so `=` on it
      never reports an invalid character. */
  lemma TypedBufferScans(s: string)
    requires TypedBuffer(s)
    ensures Tokenize(s).Ok? && Evaluate(s) != Err(InvalidCharacter)
  {
    assert AllExpressionChars(s) by {
      forall i | 0 <= i < |s| ensures IsExpressionChar(s[i]) {
        assert IsBufferChar(s[i]);
      }
    }
  }

  /** An operator on an empty buffer is dropped, except `-`, which starts a
      negative number. */
  lemma OperatorOnEmpty(st: State, c: char)
    requires IsOperatorChar(c) && st.expr == ""
    ensures HandleInput(st, c) == State(if c == '-' then "-" else "", false, st.result)
  {
  }

  /** An operator right after an operator takes its place, so the buffer
      keeps its length. */
  lemma OperatorReplacesOperator(st: State, c: char)
    requires IsOperatorChar(c) && |st.expr| > 0 && IsOperatorChar(st.expr[|st.expr| - 1])
    ensures HandleInput(st, c).expr == st.expr[..|st.expr| - 1] + [c]
    ensures |HandleInput(st, c).expr| == |st.expr|
  {
  }

  /** An operator after anything else is appended, below the cap. */
  lemma OperatorAppends(st: State, c: char)
    requires IsOperatorChar(c) && 0 < |st.expr| < MaxLength
    requires !IsOperatorChar(st.expr[|st.expr| - 1])
    ensures HandleInput(st, c).expr == st.expr + [c]
  {
  }

  /** The last character of text ending in literal text is a digit or a
      point. */
  lemma LastOfLiteral(s: string, p: nat)
    requires p <= |s|
    ensures p < |s| && LiteralText(s[p..]) ==> IsLiteralChar(s[|s| - 1])
  {
    if p < |s| {
      assert s[p..][|s| - 1 - p] == s[|s| - 1];
    }
  }

  /** A point is dropped when some number-shaped tail of the buffer already
      has one: the number being typed is the longest such tail, so it has
      the point too. */
  lemma PointIgnoredInNumber(st: State, p: nat)
    requires !st.justEvaluated
    requires p <= |st.expr| && LiteralText(st.expr[p..]) && '.' in st.expr[p..]
    ensures HandleInput(st, '.') == st
  {
    var s := st.expr;
    var q := TrailingLiteralStart(s);
    assert q <= p;
    var i :| 0 <= i < |s[p..]| && s[p..][i] == '.';
    assert s[q..][i + p - q] == '.';
  }

  /** A point where no number is being typed starts one as "0.". */
  lemma PointStartsNumber(st: State)
    requires !st.justEvaluated && |st.expr| + 2 <= MaxLength
    requires |st.expr| > 0 ==> !IsLiteralChar(st.expr[|st.expr| - 1])
    ensures HandleInput(st, '.').expr == st.expr + "0."
  {
    var s := st.expr;
    LastOfLiteral(s, TrailingLiteralStart(s));
    assert TrailingNumber(s) == "";
  }

  /** One slot below the cap the clamp cuts "0." short: a point where no
      number is being typed appends only the "0". */
  lemma PointAtLastSlot(st: State)
    requires !st.justEvaluated && |st.expr| == MaxLength - 1
    requires !IsLiteralChar(st.expr[|st.expr| - 1])
    ensures HandleInput(st, '.').expr == st.expr + "0"
  {
    var s := st.expr;
    LastOfLiteral(s, TrailingLiteralStart(s));
    assert TrailingNumber(s) == "";
    assert (s + "0.")[..MaxLength] == s + "0";
  }

  /** A point after a digit is appended when no number-shaped tail of the
      buffer has a point yet. */
  lemma PointAfterDigit(st: State)
    requires !st.justEvaluated && 0 < |st.expr| < MaxLength
    requires IsDigit(st.expr[|st.expr| - 1])
    requires forall p :: 0 <= p <= |st.expr| && LiteralText(st.expr[p..]) ==> '.' !in st.expr[p..]
    ensures HandleInput(st, '.').expr == st.expr + "."
  {
    var s := st.expr;
    var q := TrailingLiteralStart(s);
    assert LiteralText(s[|s| - 1..]) by {
      assert s[|s| - 1..] == [s[|s| - 1]];
      UnsignedDigit(s[|s| - 1]);
    }
    assert TrailingNumber(s) != "";
  }

  /** While `justEvaluated` is set, a digit, `.` or `(` starts over exactly
      as on a fresh page. The flag is set by `=` and survives backspace and
      percent, so an edited buffer is discarded too. */
  lemma FreshStartAfterEquals(st: State, c: char)
    requires st.justEvaluated && StartsFresh(c)
    ensures HandleInput(st, c) == HandleInput(Initial, c)
  {
  }

  /** While `justEvaluated` is set, an operator or `)` continues the buffer
      and leaves the result shown. */
  lemma ContinueAfterEquals(st: State, c: char)
    requires st.justEvaluated && !StartsFresh(c)
    ensures HandleInput(st, c) == State(EditBuffer(st.expr, c), false, st.result)
  {
  }

  /** "12+3", `=`, backspace, `4` leaves "4": the backspace does not clear
      `justEvaluated`, so the digit starts over. */
  lemma DeleteAfterEqualsExample(st: State)
    requires st.expr == "12+3"
    ensures HandleInput(DoDelete(DoEquals(st)), '4').expr == "4"
  {
    assert DoEquals(st).justEvaluated;
  }

  /** Backspace undoes a digit or parenthesis typed below the cap. */
  lemma DeleteUndoesInput(st: State, c: char)
    requires !st.justEvaluated && |st.expr| < MaxLength
    requires IsDigit(c) || c == '(' || c == ')'
    ensures DoDelete(HandleInput(st, c)) == st
  {
    assert (st.expr + [c])[..|st.expr|] == st.expr;
  }

  /** Appending anything to a full buffer and clamping gives it back. */
  lemma ClampAtCap(s: string, x: string)
    requires |s| == MaxLength
    ensures ClampLength(s + x) == s
  {
    assert (s + x)[..MaxLength] == s;
  }

  /** At the cap, a key changes nothing, with one exception: an operator
      after an operator replaces it without a clamp (script.js:232), so the
      buffer keeps its length but takes the new operator. */
  lemma InputAtCap(st: State, c: char)
    requires !st.justEvaluated && |st.expr| == MaxLength
    ensures var last := st.expr[MaxLength - 1];
      if IsOperatorChar(c) && IsOperatorChar(last)
      then HandleInput(st, c) == st.(expr := st.expr[..MaxLength - 1] + [c])
      else HandleInput(st, c) == st
  {
    ClampAtCap(st.expr, [c]);
    ClampAtCap(st.expr, "0.");
    ClampAtCap(st.expr, ".");
  }

  /** A digit just before the percent run would have extended it: the run
      takes the whole number, not a tail of it. */
  lemma PercentRunWhole(s: string)
    requires HasDigit(s)
    ensures var run := PercentRun(s).value;
      run.start > 0 ==> !IsDigit(s[run.start - 1])
  {
    var run := PercentRun(s).value;
    var p, e := run.start, run.end;
    if p > 0 {
      var t := s[p - 1..e];
      assert t[1..] == s[p..e];
      assert forall i :: 1 <= i < |t| ==> t[i] == s[p..e][i - 1];
      assert IsDigit(s[p - 1]) ==> LiteralText(t);
    }
  }

  /** Typing "3+" then `*` gives "3*": the new operator replaces the old. */
  lemma ReplaceOperatorExample(st: State)
    requires st.expr == "3+"
    ensures HandleInput(st, '*').expr == "3*"
  {
    OperatorReplacesOperator(st, '*');
  }

  /** The percent run is pinned down by its end and its start: it ends just
      after the last digit, and it starts where the literal text ending there
      cannot be extended to the left. */
  lemma PercentRunAt(s: string, p: nat, e: nat)
    requires p < e <= |s| && IsDigit(s[e - 1])
    requires forall i :: e <= i < |s| ==> !IsDigit(s[i])
    requires LiteralText(s[p..e])
    requires p > 0 ==> !LiteralText(s[p - 1..e])
    ensures PercentRun(s) == Some(Span(p, e))
  {
    assert HasDigit(s) by {
      assert IsDigit(s[e - 1]);
    }
    var run := PercentRun(s).value;
    assert IsDigit(s[e - 1]) && IsDigit(s[run.end - 1]);
    assert run.end == e;
    if p > 0 {
      SuffixOfLiteral(s, run.start, p - 1, e);
    }
    assert LiteralText(s[p..run.end]);
  }

  /** In "200+50" the percent run is "50": it ends at the last digit and
      stops at the `+`. */
  lemma PercentRunExample(s: string)
    requires s == "200+50"
    ensures PercentRun(s) == Some(Span(4, 6))
  {
    assert LiteralText(s[4..6]) by {
      assert s[4..6] == ShowNat(50);
      ParseShowNat(50);
    }
    assert !LiteralText(s[3..6]) by {
      assert s[3..6][0] == '+';
    }
    PercentRunAt(s, 4, 6);
  }

  /** Percent on "200+50" rewrites the last number: "200+0.5", given that
      the hundredth of 50 is written "0.5". */
  lemma PercentExample(st: State, render: real -> string)
    requires st.expr == "200+50" && render(0.5) == "0.5"
    ensures DoPercent(st, render).expr == "200+0.5"
  {
    var s := st.expr;
    PercentRunExample(s);
    assert Unsigned(s[4..6]) == Fin(50.0) by {
      assert s[4..6] == ShowNat(50);
      ParseShowNat(50);
    }
    assert s[..4] + "0.5" + s[6..] == "200+0.5";
  }

  /** `=` on "5/0" shows "Error": division by zero gives NaN. */
  lemma EqualsDivisionByZero(st: State)
    requires st.expr == "5/0"
    ensures DoEquals(st) == State("5/0", true, ErrorText)
  {
    DivisionByZeroExample(st.expr);
  }

  /** `=` on "2+3*4" shows 14. */
  lemma EqualsPrecedence(st: State)
    requires st.expr == "2+3*4"
    ensures DoEquals(st) == State("2+3*4", true, Formatted(14.0))
  {
    PrecedenceExample(st.expr);
  }

  /** `=` on "(1+2" shows "Error" and keeps the buffer. */
  lemma EqualsUnclosed(st: State)
    requires st.expr == "(1+2"
    ensures DoEquals(st) == State("(1+2", true, ErrorText)
  {
    UnclosedExample(st.expr);
  }
}
