# Calculator core in Dafny

A model of the non-presentation logic of `AdvancedCalculator`, a browser
calculator with a standard and a scientific mode. The calculator keeps an
expression buffer that the keys edit, hands the finished expression to the
host evaluator on `=`, and keeps a log of the last twenty calculations. The
model covers:

- the expression buffer (`currentInput`) and the four operations that edit
  it: appending a digit or a decimal point (at most one point per operand),
  entering an operator (a leading minus is seeded, consecutive operators
  collapse so the last wins), deleting the last character, and clearing;
  also the `x^y` key, which appends the power marker `^`;
- the `=` step up to the evaluator: nothing happens on an empty buffer,
  otherwise every `^` is rewritten to `**` and nothing else changes;
- the bounded history log: recording an entry (newest first, at most
  twenty), clearing it, cutting a restored log to twenty, and reusing an
  entry's result;
- the factorial (domain checks, then a loop computing 2 * 3 * ... * n) and
  the HTML escape used when history entries are shown.

Modules: `InputBuffer` (the operator set, splitting the buffer into
operands, the two buffer invariants and the lemmas that the edits keep
them), `TextRewrite` (global one-character replacement, the power rewrite,
the HTML escape and a reference decoder for it), `History` (entries and the
push rule as values, with lemmas about series of pushes), `Factorial`, and
`Calculator` (the class holding `currentInput` and `history`, whose methods
update them in place).

Two behaviours of the source are modelled as written:

- `^` is not one of the five operators. After `^` the decimal-point check
  still looks at the whole operand before it (so `2.5^.` refuses the
  second point), and an operator after `^` is appended rather than
  collapsed (`2^` then `+` gives `2^+`).
- An operator other than `-` on an empty buffer does nothing.

The two buffer invariants (one decimal point per operand, no two adjacent
operators) are proved to be kept by every edit made through the calculator's
keys (single characters; operators through `HandleOperator`). They are not
invariants of the buffer as such: the keyboard handler sends operator keys to
`appendToInput`, which appends them without collapsing (`5+` then the `*` key
gives `5+*`), and a formatted result or a reused history result is written
into the buffer as it stands. The model states the preservation results as
implications for exactly that reason.

## Model

| member | source | states |
|---|---|---|
| InputBuffer.Split | script.js:297 | splitting at the five operators gives one operand more than there are operators, and no operand contains an operator |
| InputBuffer.SplitInterleave | script.js:297 | the split loses nothing: the operands with the operators put back between them are the buffer |
| InputBuffer.LastOperand | script.js:297-298 | the last part of the split is a suffix of the buffer without operators, preceded by an operator unless it is the whole buffer: the text after the last operator |
| InputBuffer.AppendKeepsOneDot | script.js:296-304 | appending one character keeps at most one decimal point per operand, provided a `.` is appended only when the last operand has none |
| InputBuffer.DropLastKeepsOneDot | script.js:349 | removing the last character keeps at most one decimal point per operand |
| InputBuffer.AppendKeepsNoAdjacent | script.js:282-289 | appending an operator after a non-operator, or any non-operator, never creates two adjacent operators |
| InputBuffer.DropLastKeepsNoAdjacent | script.js:349 | removing the last character never creates two adjacent operators |
| TextRewrite.ReplaceAll | script.js:313 | a global replace leaves text without the character unchanged, removes the character when the replacement lacks it, and introduces no character that was in neither the text nor the replacement |
| TextRewrite.ReplaceAllConcat | script.js:313 | the replacement of a concatenation is the concatenation of the replacements |
| TextRewrite.ReplaceAllAtFirst | script.js:313 | the text before the first occurrence is copied, that occurrence becomes the replacement, and the rest is treated the same way |
| TextRewrite.ReplaceAllLength | script.js:313 | replacing by a two-character text adds exactly one character per occurrence |
| TextRewrite.RewritePower | script.js:313 | the rewritten expression has no `^`, is longer by exactly the number of `^`, and equals the buffer when it has no `^` |
| TextRewrite.EscapeHtml | script.js:410-415 | the escaped text contains no `<` and no `>` |
| TextRewrite.EscapeHtmlIsEscapeEach | script.js:411-414 | the chain of three replacements, `&` first, equals escaping each character on its own: no entity is escaped twice |
| TextRewrite.EscapeHtmlRoundTrip | script.js:410-415 | decoding `&amp;`, `&lt;` and `&gt;` in the escaped text gives back the original text |
| History.Pushed | script.js:368-371 | the new entry is first, the length grows by one up to twenty, and the remaining entries are the old ones in order with only the oldest dropped on overflow |
| History.PushedAllKeepsNewest | script.js:368-371 | recording a series of entries leaves the series in reverse followed by the old log, cut to twenty |
| History.PushedManyKeepsLastTwenty | script.js:368-371 | recording twenty or more entries leaves exactly the last twenty recorded, newest first |
| Factorial.Factorial | script.js:508-520 | fails with InvalidInput exactly for negative or fractional n, with TooLarge exactly for whole n above 170, returns 1 for 0 and 1, and otherwise the product n! computed by a loop whose invariant is result = (i-1)! |
| Calculator.AdvancedCalculator.constructor | script.js:13-17 | a new calculator has an empty buffer and an empty history; the restore of a saved log that the source runs next at start-up is the separate `RestoreHistory` call |
| Calculator.AdvancedCalculator.Display | script.js:363-365 | the display is never empty: it shows the buffer, or "0" while the buffer is empty, without changing it |
| Calculator.AdvancedCalculator.AppendToInput | script.js:294-306 | a `.` is refused exactly when the text after the last operator already holds one; every other value extends the old buffer by exactly itself; a single-character append keeps one decimal point per operand, and a single non-operator character also keeps no two adjacent operators (an operator appended here, as the keyboard path does, can create a pair) |
| Calculator.AdvancedCalculator.HandleOperator | script.js:279-292 | on an empty buffer `-` seeds "-" and any other operator does nothing; after a trailing operator the new one replaces it and everything before it is untouched; otherwise it is appended; both buffer invariants are kept |
| Calculator.AdvancedCalculator.AppendPowerMarker | script.js:254-257 | appends `^`, which extends the current operand instead of starting a new one, and keeps both buffer invariants |
| Calculator.AdvancedCalculator.Delete | script.js:348-351 | removes exactly the last character, does nothing on an empty buffer, and keeps both buffer invariants |
| Calculator.AdvancedCalculator.Clear | script.js:342-346 | the buffer becomes empty |
| Calculator.AdvancedCalculator.Calculate | script.js:308-340 | nothing changes on an empty buffer; otherwise the evaluator receives the buffer with every `^` rewritten to `**`; on success the calculation is recorded with the old buffer as expression and the result replaces the buffer, on an error nothing changes |
| Calculator.AdvancedCalculator.PushHistory | script.js:368-374 | the entry with the supplied time goes first, the log keeps at most twenty entries, and the older entries follow in order, unedited |
| Calculator.AdvancedCalculator.ClearHistory | script.js:404-408 | the log becomes empty |
| Calculator.AdvancedCalculator.RestoreHistory | script.js:501-503 | a saved array is cut to its first twenty entries (so a saved log of at most twenty comes back unchanged); anything else leaves the log alone |
| Calculator.AdvancedCalculator.ReuseHistoryEntry | script.js:394-399 | choosing an entry copies its result text into the buffer; an index outside the log changes nothing |

## Left out

- The DOM, event listeners, keyboard and touch mapping, animations, particle, ripple and aurora effects, resize and orientation handling, theme and mode toggling: presentation with nothing to state beyond what the modelled operations do.
- Reading and writing the saved preferences (key-value store, JSON encoding and decoding, swallowed failures): foreign I/O. Only the cut to twenty entries is modelled; a missing, unreadable or non-array record is the `None` argument of `RestoreHistory`, and the restored entries are taken to be well-formed.
- The evaluation of the rewritten expression by the host language, the finiteness check on its result and `formatResult`: they depend on the host evaluator and on IEEE-754 doubles. `Calculate` takes them together as the function parameter `evaluate`.
- Calculator.AdvancedCalculator.Calculate: does not model `lastResult` (a double) or the error display and its timed clear; after an error the model leaves the buffer and log unchanged, and the delayed clear is the separate `Clear` operation.
- The scientific function table (trigonometry, logarithms, powers, constants, inverse), the degree conversion and the operand fallback from the buffer to the last result to 0: floating point throughout. Only the factorial and the `x^y` key are modelled.
- Factorial.Factorial: computes exact integers, while the source multiplies doubles, whose products above 2^53 are rounded; NaN and infinite arguments are not modelled, since reals have neither.
- The clock: the time of a history entry is the parameter `now`.
- The `memory` field: it is initialised and never used.
- Strings are sequences of Unicode characters, while the source's `slice(-1)` and `slice(0, -1)` (script.js:284, 349) work on UTF-16 code units; the two differ only for characters outside the Basic Multilingual Plane, which no key produces and which could reach the buffer only through a restored and reused history result.
- TextRewrite.EscapeHtml: takes a string; the conversion of non-string values with `String(...)` is not modelled.
