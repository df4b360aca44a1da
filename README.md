# Calculator expression buffer

A model of the one piece of logic in the desktop calculator: the expression
buffer. The buffer is the text of the read-only result field. Four events
change it:

- a digit, point or operator button (or its keyboard shortcut) appends its key;
- backspace drops the last character;
- "c" clears the field;
- "=" (or return) rewrites the display operator `x` to `*`, evaluates the
  text, and on success puts the result text in the field. On a syntax error or
  a division by zero it leaves the field as it was.

The operator keys `+`, `-`, `x` and `/` are refused on an empty buffer and
right after another operator. The model proves that this rule keeps the
buffer free of a leading operator and of two adjacent operators across any
run of presses, backspaces and clears. It also proves that the rule is exactly
the one that keeps this invariant. The same runs, pressing only the routed
keys, leave only digits, the point and the four operators in the buffer.
Both facts hold only between evaluations: a result text such as `-4` or
`1e-05` breaks them.

The field is a `QLineEdit`, whose default maximum length is 32767 characters.
Every `setText` cuts longer text down to that length. So a key pressed on a
full field is lost, and an over-long result is cut. The model does the same
through `FitText`.

Everything is in `calculator_gui.dfy`, in module `CalculatorGui`:

- spec functions on strings: `Pressed`, `Backspace` (through `SliceTo`, Python's `s[:stop]`), `Cleared`, `ReplaceTimes` and `Computed`, each passing new text through `FitText` where the source calls `setText`;
- `Step` and `Run`, which replay a sequence of events;
- the class `Calculator`, whose field `display` is the field's text. Its methods `ButtonClicked`, `DeleteLastCharacter`, `Clear` and `Compute` change `display` in place the way the widget's handlers do.

The evaluator (Python's `eval` followed by `str` of its value) is a parameter
`eval: string -> EvalResult`. It returns `Ok(text)`, `SyntaxErr` or `ZeroDivErr`.

## Model

| member | source | states |
|---|---|---|
| `CalculatorGui.RoutedKeysAreKeys` | calculator_gui.py:9-27 | the button labels wired to the append handler (all but "c" and "=") are exactly the digits, the point and the four operators |
| `CalculatorGui.FitText` | calculator_gui.py:42 | what the field keeps of a text: a prefix of at most 32767 characters, the text itself when it fits, exactly 32767 characters when it does not |
| `CalculatorGui.Accepts` | calculator_gui.py:89-93 | a non-operator is always taken; an operator is refused on the empty buffer, and otherwise taken exactly when the last character is not an operator |
| `CalculatorGui.Pressed` | calculator_gui.py:88-94 | a key the adjacency rule accepts is appended at the end (as the field keeps it; below the limit, exactly once); a refused operator leaves the buffer exactly as it was |
| `CalculatorGui.OperatorOnEmptyIgnored` | calculator_gui.py:89-91 | an operator pressed on the empty buffer leaves it empty |
| `CalculatorGui.OperatorAfterOperatorIgnored` | calculator_gui.py:92-93 | an operator pressed when the last character is an operator changes nothing |
| `CalculatorGui.NonOperatorAppended` | calculator_gui.py:89-94 | below the length limit a digit or point is always appended: one character longer, old text kept as prefix, key at the end |
| `CalculatorGui.KeyLostWhenFull` | calculator_gui.py:94 | on a field holding 32767 characters every key press leaves the text unchanged |
| `CalculatorGui.SliceTo` | calculator_gui.py:106 | Python prefix slicing: a prefix of the text; a negative stop counts from the end; a stop past either end is clamped |
| `CalculatorGui.Backspace` | calculator_gui.py:106 | the slice up to one before the length: a prefix of the old text that fits the field, one character shorter when the old text was non-empty and fit, empty when it was empty (see BackspaceDropsLast) |
| `CalculatorGui.BackspaceDropsLast` | calculator_gui.py:105-106 | backspace yields the text minus its final character, which put back gives the old text; on an empty buffer it yields the empty buffer |
| `CalculatorGui.BackspaceUndoesPress` | calculator_gui.py:94-106 | below the length limit, backspace right after an accepted key press restores the buffer from before the press |
| `CalculatorGui.Cleared` | calculator_gui.py:74 | clear yields the empty buffer whatever it held |
| `CalculatorGui.ReplaceTimes` | calculator_gui.py:98 | the text handed to the evaluator has the same length, each `x` becomes `*`, every other character is unchanged, and no `x` remains |
| `CalculatorGui.ReplaceTimesWithoutTimes` | calculator_gui.py:98 | text without `x` reaches the evaluator unchanged |
| `CalculatorGui.ReplaceTimesIdempotent` | calculator_gui.py:98 | rewriting the rewritten text changes nothing more |
| `CalculatorGui.ReplaceTimesConcat` | calculator_gui.py:98 | the rewrite of a concatenation is the concatenation of the rewrites |
| `CalculatorGui.Computed` | calculator_gui.py:96-103 | on `Ok` the buffer becomes a prefix of the result text that fits the field; on either error it is the old buffer |
| `CalculatorGui.ComputeFailureKeepsBuffer` | calculator_gui.py:96-103 | when evaluation fails with a syntax error or a division by zero the buffer is unchanged |
| `CalculatorGui.ComputeSuccessReplacesBuffer` | calculator_gui.py:96-99 | on success the whole buffer becomes the result text cut to the field's length (the text itself when it fits), and a following digit is appended to that text |
| `CalculatorGui.TimesReachesEvaluatorAsStar` | calculator_gui.py:98-99 | the typed `2x3` is evaluated as `2*3` and its result becomes the buffer |
| `CalculatorGui.ResultIsExtendedNotReplaced` | calculator_gui.py:88-99 | pressing 2 + 2 = 5 from the empty buffer shows `45` |
| `CalculatorGui.DivisionByZeroKeepsText` | calculator_gui.py:88-103 | pressing 1 / 0 = from the empty buffer keeps `1/0` |
| `CalculatorGui.AcceptsIffStaysWellFormed` | calculator_gui.py:88-94 | on a well-formed buffer a key is accepted if and only if appending it keeps the buffer well-formed (no leading operator, no two adjacent operators) |
| `CalculatorGui.PressedKeepsWellFormed` | calculator_gui.py:88-94 | every key press keeps a well-formed buffer well-formed |
| `CalculatorGui.BackspaceKeepsWellFormed` | calculator_gui.py:105-106 | backspace keeps a well-formed buffer well-formed |
| `CalculatorGui.ComputeMayBreakWellFormed` | calculator_gui.py:96-99 | a successful evaluation can leave a buffer that starts with an operator (a negative result), so the invariant holds only between evaluations |
| `CalculatorGui.Step` | calculator_gui.py:74-80 | one event (key, backspace, clear, "=") keeps a fitting buffer fitting; an editing event adds at most one character and keeps a well-formed buffer well-formed |
| `CalculatorGui.Run` | calculator_gui.py:74-80 | after any sequence of events a fitting buffer still fits the field, and editing events lengthen it by at most one character each |
| `CalculatorGui.EditsKeepWellFormed` | calculator_gui.py:74-106 | any run of presses, backspaces and clears keeps a well-formed buffer well-formed |
| `CalculatorGui.EditsFromEmptyWellFormed` | calculator_gui.py:74-106 | from the empty buffer, presses, backspaces and clears never produce a leading operator or two adjacent operators |
| `CalculatorGui.PressedKeepsKeys` | calculator_gui.py:88-94 | pressing a key on a buffer made only of keys leaves a buffer made only of keys |
| `CalculatorGui.BackspaceKeepsKeys` | calculator_gui.py:105-106 | backspace on a buffer made only of keys leaves a buffer made only of keys |
| `CalculatorGui.EditsKeepKeys` | calculator_gui.py:74-106 | any run of presses of routed keys, backspaces and clears keeps the buffer made only of digits, the point and the four operators |
| `CalculatorGui.ComputeMayLeaveNonKeys` | calculator_gui.py:96-99 | a successful evaluation can leave characters no key produces (`1/100000` shows `1e-05`), so the character set holds only between evaluations |
| `CalculatorGui.DigitsConcatenate` | calculator_gui.py:94 | a run of digit presses appends the digits in order, as long as the field has room for them |
| `CalculatorGui.Calculator.constructor` | calculator_gui.py:42 | the result field starts empty, within its maximum length |
| `CalculatorGui.Calculator.ButtonClicked` | calculator_gui.py:88-94 | the field becomes `Pressed` of its old text and stays within its maximum length; it stays well-formed if it was, and made only of keys if it was and the key is one |
| `CalculatorGui.Calculator.Compute` | calculator_gui.py:96-103 | the field becomes `Computed` of its old text and stays within its maximum length; on either absorbed error it is unchanged |
| `CalculatorGui.Calculator.DeleteLastCharacter` | calculator_gui.py:105-106 | the field becomes `Backspace` of its old text: it loses its last character, stays empty when empty, stays within its maximum length, and stays well-formed and made only of keys if it was |
| `CalculatorGui.Calculator.Clear` | calculator_gui.py:74 | the field becomes empty |

## Left out

- Window, grid layout, buttons, style sheets, icon and the placeholder "0": presentation only, no effect on the buffer text.
- Keyboard shortcuts: they only route keys to the same handlers, which the model covers.
- Python's `eval` and `str` of its value: a general-purpose interpreter with float semantics. The model takes it as the parameter `eval`.
- Exceptions from `eval` or `str` other than `SyntaxError` and `ZeroDivisionError` (for example the `ValueError` that `str` raises on an integer of more than 4300 digits): the handler does not catch them, so the widget states no behaviour for them. `EvalResult` has no case for them.
- Other `QLineEdit` text rules (input masks, validators) are not used by the calculator; only the default maximum length is modelled.
- The key is a single `char`. Every button text routed to the append handler is one character, so longer text never reaches it.
