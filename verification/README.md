# Calculator core in Dafny

A model of the calculator in `script.js`: the text-to-value pipeline
(`tokenize`, `toRPN`, `evalRPN`, `evaluate`) and the editing session that
feeds it (`handleInput`, `doPercent`, `doDelete`, `doClear`, `doEquals`,
with `clampLength`, `isOperator` and `lastChar`). Numbers are exact reals
with a separate NaN (`Num = Fin(real) | NaN`). The exceptions the source
throws are the values of an `Error` datatype inside a `Result`. The page
state is an immutable `Session.State(expr, justEvaluated, result)`, and each
handler maps one state to the next.

Modules, in dependency order:

- `Text`: character classes and "literal text", the language
  `[0-9]*\.?[0-9]*` shared by the scanner and both regular expressions of
  the session.
- `Tokens`: operators, numbers, tokens, errors and `Result`.
- `Numbers`: NaN-propagating arithmetic and `parseFloat` of a literal,
  read as an exact decimal.
- `Lexer`: `tokenize`, including the fusion of a unary minus into the
  following number.
- `Shunting`: `toRPN`.
- `Evaluator`: `evalRPN`.
- `Syntax`: expression trees. For every well-formed tree, the printed form
  is reordered into its postfix form, which evaluates to the tree's value.
  So precedence, left association and grouping are those of ordinary
  arithmetic.
- `Pipeline`: `evaluate`, and worked examples.
- `Session`: the editing state machine, its buffer invariant, and examples.

The worked examples take their text as a parameter fixed by `requires`
(`s == "2+3*4"`), not as a literal in the conclusion; this keeps the
verifier from unfolding the scanner on the literal.

`isOperator` (script.js:77-79) is `Text.IsOperatorChar`. It is a predicate,
so it has no row of its own below.

The comment at script.js:231 speaks of keeping a minus when switching
sign. The code on the next line replaces any trailing operator with the
new one. The model follows the code (`Session.OperatorInput`,
`Session.OperatorReplacesOperator`).

`justEvaluated` is cleared only by `handleInput` and `doClear`. Backspace
and percent leave it set, so after `=` and an edit a digit, `.` or `(`
still discards the edited buffer (`Session.Perform`, `Session.FreshStartAfterEquals`,
`Session.DeleteAfterEqualsExample`).

## Model

| member | source | states |
|---|---|---|
| Numbers.Apply | script.js:177-182 | the result is NaN exactly when an operand is NaN or a division has divisor 0; otherwise it is the sum, difference or product, and for division `r * b == a` |
| Numbers.Unsigned | script.js:116-127 | `parseFloat` of an accumulated literal is NaN exactly for "" and "." |
| Numbers.ParseFloat | script.js:108-109 | a signed literal is NaN exactly for "", ".", "-" and "-."; a leading minus negates the unsigned value |
| Numbers.SplitAtPoint | script.js:119-126 | literal text is digits, then optionally a point followed by digits only |
| Numbers.ParseShowNat | script.js:127 | the decimal numeral of n is literal text and parses to n |
| Lexer.LiteralLength | script.js:101-107 | the inner loop reads only digits and points, at most one point in all, and stops at the first character that cannot continue the literal |
| Lexer.MaximalLiteral | script.js:120-126 | a literal followed by a character that cannot continue it is read in full and no further |
| Lexer.Scan | script.js:91-133 | scanning fails, with "Invalid character", exactly when some remaining character is not an expression character; on success the tokens already read are kept as a prefix |
| Lexer.Tokenize | script.js:88-135 | `tokenize` fails exactly when the text has a character outside space, digits, `.` and `()+-*/` |
| Lexer.ScanLiteral | script.js:116-129 | a maximal literal becomes one number token with its parsed value |
| Lexer.ScanFusedMinus | script.js:96-110 | in sign position (start, after an operator or `(`), `-` followed by a literal becomes one negative number |
| Lexer.ScanLoneMinus | script.js:108 | in sign position, a `-` with no literal after it stays an operator |
| Lexer.ScanBinaryMinus | script.js:96 | after a number or `)`, `-` is the subtraction operator |
| Lexer.ScanSymbol | script.js:112-114 | every other symbol character is a token of its own |
| Lexer.ScanSpace | script.js:93 | a space is skipped without producing a token |
| Lexer.OperatorCharRoundTrip | script.js:112-114 | each operator character scans to its own operator, and each operator's character scans back to it |
| Lexer.SecondPointSplits | script.js:104 | "1.2.3" scans as the two numbers 1.2 and .3 |
| Lexer.TokenizeShowNat | script.js:116-129 | a decimal numeral scans to the single number it denotes |
| Lexer.TokenizeOneCharTokens | script.js:91-133 | text of one-character tokens not starting with `-` scans to one token per character |
| Lexer.TokenizePrecedence | script.js:88-135 | "2+3*4" scans to 2, +, 3, *, 4 |
| Lexer.TokenizeGrouping | script.js:88-135 | "(2+3)*4" scans to its seven tokens |
| Lexer.TokenizeLeadingMinus | script.js:96-110 | "-5+3" scans to -5, +, 3 |
| Lexer.DoubleMinus | script.js:96-110 | "3--2" scans to 3, -, -2 |
| Lexer.TimesNegative | script.js:96-110 | "3*-2" scans to 3, *, -2 |
| Lexer.TokenizeUnopened | script.js:112-114 | "1+2)" scans to 1, +, 2, `)` |
| Shunting.PopsBeforeIsPrecedence | script.js:140-147 | with every operator left-associative, an incoming operator pops exactly the stacked operators of greater or equal precedence |
| Shunting.PopOperators | script.js:145-150 | the popped operators are a top run of the stack that all pop before the incoming operator; they go to the output top first; the element below them does not pop |
| Shunting.PopConserves | script.js:145-151 | popping adds no number, loses no operator, emits no parenthesis and keeps every `(` |
| Shunting.CloseGroup | script.js:153-156 | `)` fails exactly when no `(` is on the stack; otherwise the operators above the nearest `(` go to the output and that `(` is removed |
| Shunting.CloseRemovesOneOpen | script.js:156 | closing a group removes exactly one `(` |
| Shunting.Flush | script.js:161-165 | the final loop fails exactly when a `(` is left, and otherwise appends the whole stack, top first |
| Shunting.Shunt | script.js:142-160 | the main loop fails only with "Mismatched parentheses", and only when the input holds a `)` |
| Shunting.Step | script.js:143-159 | one token fails the loop exactly when it is a `)` with no `(` on the stack |
| Shunting.StepOpenCount | script.js:152-156 | each token changes the number of stacked `(` by +1 for `(`, -1 for `)` and 0 otherwise |
| Shunting.ShuntBalance | script.js:142-160 | the main loop succeeds with no `(` left exactly when the tokens balance |
| Shunting.ShuntNumbers | script.js:143 | the output receives the input's numbers in their original order |
| Shunting.ShuntOperators | script.js:144-156 | every operator read is on the stack or in the output |
| Shunting.ToRpn | script.js:137-167 | `toRPN` succeeds exactly on balanced input, fails only with "Mismatched parentheses", and outputs no parenthesis |
| Shunting.ToRpnConserves | script.js:137-167 | the output holds the input's numbers in order, the same operators, and nothing else |
| Shunting.ShuntAppend | script.js:142-160 | the loop over a concatenation continues from the state the first part left |
| Evaluator.EvalFrom | script.js:171-184 | a failure is "Malformed" or "Invalid RPN" (only "Malformed" without parentheses); on success the stack height changes by the numbers minus the operators |
| Evaluator.EvalFromSucceeds | script.js:171-184 | the loop succeeds exactly when no operator finds fewer than two operands and no parenthesis appears |
| Evaluator.EvalRpn | script.js:169-187 | `evalRPN` succeeds exactly when the stack never underflows and there is one more number than operators |
| Evaluator.EvalAppend | script.js:171-184 | evaluating a concatenation continues from the stack the first part left |
| Evaluator.DivisionByZeroIsNaN | script.js:181 | dividing by zero yields NaN instead of failing |
| Evaluator.MissingOperandIsMalformed | script.js:176 | an operator with one operand fails with "Malformed" |
| Syntax.PendingAfterBound | script.js:145-151 | what a tree's printing leaves on the stack binds at least as tightly as the tree, and unwinding it completes the postfix form |
| Syntax.PopRun | script.js:145-150 | an incoming operator pops exactly the run of tighter-or-equal operators above a guard |
| Syntax.CloseRun | script.js:153-156 | `)` pops exactly the operators above the nearest `(` |
| Syntax.ShuntInfix | script.js:142-160 | the loop writes a well-formed tree's postfix prefix and stacks its pending operators |
| Syntax.ShuntGroup | script.js:152-156 | a parenthesised tree is written out in full and leaves the stack as it was |
| Syntax.ShuntBin | script.js:144-151 | a binary tree's operator waits until its right operand is written |
| Syntax.ToRpnInfix | script.js:137-167 | `toRPN` of a well-formed tree's printing is the tree's postfix form |
| Syntax.EvalPostfix | script.js:169-187 | evaluating a tree's postfix form pushes the tree's value |
| Syntax.EvaluatesToValue | script.js:137-187 | reordering and evaluating a well-formed tree's printing yields its value |
| Syntax.MultiplicationFirst | script.js:140-151 | a + b * c reorders to a b c * + |
| Syntax.SubtractionGroupsLeft | script.js:141-151 | a - b - c reorders to a b - c - |
| Pipeline.Evaluate | script.js:189-193 | "Invalid character" exactly when the text has a character the scanner rejects; "Mismatched parentheses" exactly when the scanned tokens do not balance; "Invalid RPN" never |
| Pipeline.EvaluatesTree | script.js:189-193 | text that scans to a well-formed tree's printing evaluates to the tree's value |
| Pipeline.EvaluateSucceeds | script.js:189-193 | evaluation succeeds exactly when the text has only expression characters, its tokens balance, the postfix form never lacks an operand, and the tokens hold one more number than operators |
| Pipeline.PrecedenceExample | script.js:189-193 | "2+3*4" is 14 |
| Pipeline.GroupingExample | script.js:189-193 | "(2+3)*4" is 20 |
| Pipeline.LeadingMinusExample | script.js:189-193 | "-5+3" is -2 |
| Pipeline.DoubleMinusExample | script.js:189-193 | "3--2" is 5 |
| Pipeline.TimesNegativeExample | script.js:189-193 | "3*-2" is -6 |
| Pipeline.DivisionByZeroExample | script.js:189-193 | "5/0" is NaN |
| Pipeline.UnclosedExample | script.js:161-165 | "(1+2" fails with "Mismatched parentheses" |
| Pipeline.UnopenedExample | script.js:153-155 | "1+2)" fails with "Mismatched parentheses" |
| Pipeline.UnknownCharacterExample | script.js:131-132 | "2x" fails with "Invalid character" |
| Session.ClampLength | script.js:83-85 | the result is a prefix of the input, at most 64 long, the whole input when it fits, and exactly 64 long otherwise |
| Session.LastChar | script.js:81 | none exactly for the empty string; otherwise the string is its front plus that character |
| Session.TrailingLiteralStart | script.js:221 | the match of `/([0-9]*\.?[0-9]*)$/` is the longest suffix that is literal text |
| Session.TrailingNumber | script.js:221-222 | `current` is a suffix of the buffer, is literal text, and no longer suffix is |
| Session.LastDigitEnd | script.js:246 | none exactly when there is no digit; otherwise the position just after a digit with no digit after it |
| Session.PercentRun | script.js:246 | the match of `/(\d*\.?\d+)(?!.*\d)/` is absent exactly when there is no digit; otherwise it ends at the last digit and starts at the leftmost position from which the text up to there is literal text |
| Session.PercentRunWhole | script.js:246 | the percent run is never preceded by a digit: it takes the whole number |
| Session.PercentRunAt | script.js:246 | a span that ends just after the last digit, is literal text, and cannot extend left is the regex's match |
| Session.HandleInput | script.js:207-242 | every input clears `justEvaluated`; the result becomes "0" on a digit, `.` or `(` after `=` and is kept otherwise; a buffer within the cap stays within it |
| Session.PointInput | script.js:219-225 | the `.` rule keeps a buffer within the cap within it |
| Session.OperatorInput | script.js:227-236 | the operator rule keeps a buffer within the cap within it |
| Session.EditBuffer | script.js:213-241 | the key dispatch after any restart keeps a buffer within the cap within it |
| Session.OperatorOnEmpty | script.js:228 | on an empty buffer an operator is dropped, except `-`, which gives "-" |
| Session.OperatorReplacesOperator | script.js:229-232 | an operator after an operator replaces it, keeping the length |
| Session.OperatorAppends | script.js:233-235 | below the cap, an operator after a non-operator is appended, whether or not `justEvaluated` is set |
| Session.PointIgnoredInNumber | script.js:219-223 | with `justEvaluated` clear, a point is dropped when some number-shaped tail of the buffer has a point |
| Session.PointStartsNumber | script.js:224 | with `justEvaluated` clear and at least two characters below the cap, a point where no number is being typed appends "0." |
| Session.PointAtLastSlot | script.js:224 | with `justEvaluated` clear and one character below the cap, a point where no number is being typed appends only "0", because the clamp drops the point |
| Session.PointAfterDigit | script.js:224 | with `justEvaluated` clear and below the cap, a point after a point-free number is appended |
| Session.FreshStartAfterEquals | script.js:208-213 | while `justEvaluated` is set, a digit, `.` or `(` acts exactly as on a fresh page |
| Session.ContinueAfterEquals | script.js:208-213 | while `justEvaluated` is set, any other key edits the buffer and keeps the shown result |
| Session.InputAtCap | script.js:213-241 | with `justEvaluated` clear and 64 characters, every key leaves the state as it is, except an operator after an operator, which replaces it unclamped (script.js:232); with the flag set, a digit, `.` or `(` restarts the buffer instead (`Session.FreshStartAfterEquals`) |
| Session.DeleteUndoesInput | script.js:254-257 | with `justEvaluated` clear, backspace undoes a digit or parenthesis typed below the cap |
| Session.InputKeepsTyped | script.js:207-242 | every key keeps the buffer invariant: at most 64 characters, only buffer characters, one point per number, no two operators in a row |
| Session.PointKeepsTyped | script.js:219-225 | the dot rule never puts a second point into a number |
| Session.OperatorKeepsTyped | script.js:227-236 | the operator rule never puts two operators side by side |
| Session.DeleteKeepsTyped | script.js:254-257 | backspace keeps the buffer invariant |
| Session.KeyAction | script.js:291-300 | a key name dispatches to `handleInput` exactly when it is one buffer character, to `doEquals` for Enter and `=`, to `doDelete` for Backspace, to `doClear` for Escape and to `doPercent` for `%` |
| Session.Perform | script.js:278-300 | `justEvaluated` ends set exactly after `=` on a non-empty or already-evaluated buffer, or after backspace or percent when it was set; clear returns to the initial state |
| Session.Run | script.js:278-300 | a run of actions ending in clear ends in the initial state |
| Session.PerformKeepsTyped | script.js:207-263 | every action but percent keeps the buffer invariant |
| Session.SessionKeepsTyped | script.js:207-275 | any sequence of typing, backspace, clear and `=` keeps the buffer invariant |
| Session.TypedBufferScans | script.js:88-135 | a typed buffer always scans, so `=` never reports an invalid character for it |
| Session.DoDelete | script.js:254-257 | an empty buffer is left alone; otherwise the old buffer is the new one plus its last character; the flag and result are untouched |
| Session.DoClear | script.js:259-263 | the buffer is empty, the flag clear and the display "0", whatever the state was |
| Session.FormatNumber | script.js:195-196 | "Error" exactly for a non-finite value |
| Session.DoEquals | script.js:265-275 | an empty buffer changes nothing; otherwise the buffer is kept, the flag set, and the display shows "Error" exactly when evaluation fails or gives NaN, and the value otherwise |
| Session.DoPercent | script.js:244-252 | without a digit nothing changes; otherwise the percent run is replaced by the text of its value divided by 100, leaving flag and result alone |
| Session.ReplaceOperatorExample | script.js:229-232 | typing `*` after "3+" gives "3*" |
| Session.PercentRunExample | script.js:246 | in "200+50" the percent run is "50" |
| Session.PercentExample | script.js:244-252 | percent on "200+50" gives "200+0.5" |
| Session.EqualsDivisionByZero | script.js:265-275 | `=` on "5/0" shows "Error" |
| Session.EqualsPrecedence | script.js:265-275 | `=` on "2+3*4" shows 14 |
| Session.EqualsUnclosed | script.js:265-275 | `=` on "(1+2" shows "Error" and keeps the buffer |
| Session.DeleteAfterEqualsExample | script.js:254-257 | "12+3", `=`, backspace, `4` leaves "4" |

## Left out

- The page: DOM lookups, the theme toggle and its `localStorage` entry,
  `fitText` and the resize handling. The click listener's dispatch
  (script.js:278-288) reads `data-action` and `data-value` from the page
  markup, outside `script.js`, so it is not modelled; the handlers it
  calls are (`Session.HandleInput`, `Session.DoClear`, `Session.DoDelete`,
  `Session.DoEquals`, `Session.DoPercent`, joined in `Session.Action`).
  The keyboard listener's dispatch is `Session.KeyAction`.
- `formatNumber` beyond its first line. Rounding to ten decimals,
  `toLocaleString` grouping and trimming zeros only affect display text,
  so the display holds the value itself (`Display.Formatted`).
- Binary floating point. Arithmetic and `parseFloat` are exact on reals.
  Rounding, infinities and overflow from huge operands are not modelled,
  and a finite `Fin` never becomes infinite. This can change what `=`
  shows, not only how a number is written: the `b === 0` test at
  script.js:181 fires on exact zeros that floating point misses. For
  "1/(0.1+0.2-0.3)" the model divides by exactly 0 and shows "Error",
  while JavaScript divides by about 5.55e-17 and shows a large finite
  number.
- The "Invalid token" branch of `toRPN` (script.js:157-159). With typed
  tokens no other kind of token exists, so it cannot be reached.
- Session.DoPercent: JavaScript's number-to-text conversion is the
  parameter `render`. The model therefore does not say which text
  replaces the number, nor that the new buffer may exceed 64 characters
  or contain characters such as `e` (as in "1e-7") that the scanner
  rejects. That is why no buffer invariant is claimed for percent.
- Session.HandleInput: takes a single character. The source's
  `/[0-9]/.test(val)` would also accept longer strings holding a digit.
  The keyboard listener (script.js:293-296) passes one character
  (`Session.KeyAction`); the
  buttons pass their `data-value` attribute (script.js:285-287), which
  lives in the page markup, outside `script.js`, and is assumed to be one
  character.
- Session.PercentRun: `.` in the look-ahead does not cross line
  terminators. The buffer cannot hold one, so that case is not
  modelled.
