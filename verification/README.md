# Calculator input state machine

This project models the input logic of the calculator component in
`components/Calculator.tsx`. The component keeps five pieces of state:

- the `display` text;
- the stored left operand, `previousValue`;
- the pending `operation`;
- the flag `waitingForNewValue`, meaning the next digit starts a new operand;
- the divide-by-zero flag `hasError`.

Six handlers change that state: digit, decimal point, operator, equals,
clear, and the Backspace branch of the key handler. Here the state is one
immutable `Calculator.State` record. Each handler is a pure transition
function, and `Calculator.Run` applies a sequence of presses in order.
`Keyboard.KeyToEvent` maps `KeyboardEvent.key` values to presses.

Two conversions between numbers and text appear in the component.

- Reading the display as a number (`parseFloat`) is `Numerals.Parse`. It
  reads an optional minus sign, the longest run of digits, and then an
  optional point followed by more digits.
- Showing a computed number (`String(result)`) is the function parameter
  `render`. Nothing is assumed about it in general. A result is therefore
  stated as "the display is `render(r)`", with `r` an exact rational. The
  lemmas that continue from a shown result assume, as a hypothesis, that
  the shown text reads back as the result.

Modules:

- `Options`: the optional value standing for `null`.
- `Numerals`: digits, the reading of display text, and the shape of an
  operand as it is typed (`IsEntryText`).
- `Calculator`: the state, the presses, `calculate` and the handlers.
- `Keyboard`: the key mapping and the key handler.
- `EntryProperties`: typing operands (digits, point, backspace).
- `SessionProperties`: the invariants of whole sessions (pairing, clear,
  the error freeze, left-to-right chaining).
- `Scenarios`: concrete press sequences and what they display.

The model reproduces these behaviours of the handlers as written:

- A division by zero only raises `hasError`. The display keeps the text it
  had.
- A digit or point pressed in the error state clears the flag but keeps a
  pending `waitingForNewValue`. After `8 ÷ 0 +`, the presses `5 6` therefore
  show "6", not "56" (`Scenarios.DigitsAfterChainedError`).
- A division by zero while chaining leaves `previousValue` alone. The new
  operator still replaces the pending one and `waitingForNewValue` is still
  set (`Scenarios.DivideByZeroWhileChaining`).
- Backspace never clears `hasError`.

## Model

| member | source | states |
|---|---|---|
| Calculator.Calculate | components/Calculator.tsx:79-92 | Division fails exactly when the operator is ÷ and the divisor is 0. Otherwise the result is characterised by the inverse operation: subtracting the right operand from a sum gives the left one back, and so on. |
| Calculator.HandleNumber | components/Calculator.tsx:14-24 | A digit starts a new operand after an error, after an operator or equals, or over a lone "0"; otherwise it is appended. The error flag is always cleared. `waitingForNewValue` survives only when it was set together with the error. The pending operand and operator are untouched. |
| Calculator.HandleOperation | components/Calculator.tsx:26-43 | Nothing changes in the error state. Otherwise the operator is recorded and a new operand is awaited. The first operand is stored as read from the display. With an operation pending, it is evaluated against the displayed value: a result replaces the stored operand and the display, and a division by zero raises the flag and keeps both. A stored operand with no operator pending is kept as it is, and only the operator is recorded. |
| Calculator.HandleEquals | components/Calculator.tsx:45-57 | Nothing changes in the error state or when nothing is pending. A result is shown, the pending operand and operator are forgotten, and a new operand is awaited. A division by zero changes only the error flag. |
| Calculator.HandleClear | components/Calculator.tsx:59-65 | The result is the initial state: display "0", nothing pending, no flags set. |
| Calculator.HandleDecimal | components/Calculator.tsx:67-77 | The display always holds a point afterwards. It becomes "0." after an error, an operator or equals. Without one, a point is appended to the typed operand. If the operand already has a point, the state is unchanged. |
| Calculator.HandleBackspace | components/Calculator.tsx:119-124 | Only the display changes and it is never empty. Without an error, a display longer than one character loses exactly its last character; otherwise the display becomes "0". |
| Calculator.Step | components/Calculator.tsx:154-231 | Covers the keypad presses and the Backspace branch of the key handler (lines 119-124 of the same file). Clear always resets to the mount state. Operator and equals presses change nothing in the error state. Digit and point presses always leave the error state and keep the stored operand and operator. Backspace changes at most the display. Without an error, an operator press records that operator and awaits a new operand. |
| Calculator.RunAppend | components/Calculator.tsx:14-125 | Running two press sequences one after the other is the same as running their concatenation. |
| Keyboard.KeyToEvent | components/Calculator.tsx:101-119 | Each key is mapped, in both directions, to its press: the single digits, ".", "+", "-", "*", "/", Enter or "=", Escape or Delete, and Backspace. Every other key maps to nothing. |
| Keyboard.OnKey | components/Calculator.tsx:100-125 | An unrecognised key leaves the state alone. A digit key presses that digit. "." presses the point. "+", "-", "*" and "/" press +, -, × and ÷. Enter and "=" press equals. Escape and Delete reset to the initial state. Backspace runs the backspace branch. |
| Keyboard.KeyboardMatchesKeypad | components/Calculator.tsx:101-125 | Pressing the key for any press has exactly the effect of that press. |
| Keyboard.EveryEventHasAKey | components/Calculator.tsx:101-119 | Every press can be produced by some key. |
| Keyboard.DigitGuardAsWrittenMeaning | components/Calculator.tsx:101 | The written digit test holds exactly for the ten one-digit keys and for the longer keys whose first character is '0' to '8'. |
| Keyboard.GuardsAgreeOnSingleCharacters | components/Calculator.tsx:101 | On one-character keys, the written test and the single-digit test agree. |
| Keyboard.DigitGuardAdmitsTwoCharacterKey | components/Calculator.tsx:101 | The key "12" passes the written test although it is not a digit key. |
| Numerals.Parse | components/Calculator.tsx:29 | Without a leading minus sign, the number read lies between the value of the leading digits and the next whole number. With the sign, it is the negation of such a number. Its exact value is stated by `Numerals.ParseDigits` and `Numerals.ParsePointed`. |
| Numerals.ParseDigits | components/Calculator.tsx:29 | A plain run of digits reads as the whole number it denotes. |
| Numerals.ParsePointed | components/Calculator.tsx:29 | Digits, a point and more digits read as the whole part plus the fraction. |
| Numerals.EntryTextPoint | components/Calculator.tsx:74 | A typed operand contains a point exactly when its leading digits stop before its end, and it contains at most one point. |
| Numerals.EntryAppendDigit | components/Calculator.tsx:22 | Appending a digit to a typed operand other than "0" keeps it a typed operand. Without a point its value becomes ten times the old value plus the digit; with a point, the digit is added at the next decimal place. |
| Numerals.EntryAppendPoint | components/Calculator.tsx:74-75 | Appending a point to a typed operand without one keeps it a typed operand and does not change the number it reads as. |
| Numerals.EntryDropLast | components/Calculator.tsx:120-121 | Dropping the last character of a typed operand longer than one character leaves a typed operand. |
| EntryProperties.EntryRunKeepsEntryText | components/Calculator.tsx:14-24 | Digit, point, backspace and clear presses keep the display a well-formed operand, with at most one point. |
| EntryProperties.EntryFromInitial | components/Calculator.tsx:67-77 | From the initial state, digit, point, backspace and clear presses alone never produce a second point. |
| EntryProperties.DecimalTwiceLikeOnce | components/Calculator.tsx:67-77 | Pressing the point twice shows the same display as pressing it once. The whole state is the same unless the error flag and `waitingForNewValue` were both set, because then the second press sees the flag still set. |
| EntryProperties.TypedDigits | components/Calculator.tsx:14-24 | Digits typed into a fresh operand show the digits without leading zeros ("0" when only zeros were typed), and the display reads back as the number the digits denote. Nothing else changes apart from the flags. |
| EntryProperties.BackspaceUndoesDigit | components/Calculator.tsx:14-24 | Backspace right after a digit appended to the current operand restores the state exactly. |
| EntryProperties.BackspaceUndoesDecimal | components/Calculator.tsx:74-75 | Backspace right after a point appended to the current operand restores the state exactly. |
| SessionProperties.StepKeepsPaired | components/Calculator.tsx:26-65 | Every press keeps this pairing: a left operand is stored exactly when an operator is pending. |
| SessionProperties.RunKeepsPaired | components/Calculator.tsx:26-65 | Every sequence of presses keeps the pairing. |
| SessionProperties.ReachableIsPaired | components/Calculator.tsx:8-12 | Every state reachable from the initial one is paired. |
| SessionProperties.ClearForgetsHistory | components/Calculator.tsx:59-65 | After a clear, the calculator behaves as if it had just been mounted, whatever came before. |
| SessionProperties.ErrorFreezesArithmetic | components/Calculator.tsx:26-57 | While the error flag is up, any number of operator and equals presses changes nothing at all. |
| SessionProperties.FirstOperand | components/Calculator.tsx:26-43 | Typing a digit-only operand and an operator from the initial state stores the operand's value and leaves its text on the display. |
| SessionProperties.ChainedOperand | components/Calculator.tsx:31-42 | Typing an operand and an operator while an operation is pending evaluates that operation at once and shows its result. |
| SessionProperties.FinalOperand | components/Calculator.tsx:45-57 | Typing the last operand and equals shows the pending operation's result and clears what was pending. |
| SessionProperties.OperatorAfterResult | components/Calculator.tsx:29-32 | After equals shows `r`, an operator stores `r` as the left operand, provided the shown text reads back as `r`. |
| SessionProperties.OperatorAfterChainedResult | components/Calculator.tsx:29-38 | Right after a chained result `r`, a second operator evaluates the pending operation on `r` and `r`, provided the shown text reads back as `r`. |
| SessionProperties.LeftToRight | components/Calculator.tsx:26-57 | `x op1 y op2 z =` shows `(x op1 y) op2 z` with no operator precedence, for any digit strings and operators whose evaluations succeed. |
| Scenarios.RunCons | components/Calculator.tsx:14-125 | Running a press followed by a sequence is running the sequence from the state after the press. |
| Scenarios.SevenDividedByZero | components/Calculator.tsx:87-90 | `7 ÷ 0 =` raises the error and keeps the display "0", the stored 7 and the pending ÷. |
| Scenarios.NoPrecedence | components/Calculator.tsx:31-56 | `2 + 3 × 4 =` shows 20, not 14. |
| Scenarios.NinePlusOne | components/Calculator.tsx:45-57 | `9 + 1 =` shows 10. |
| Scenarios.ContinueFromResult | components/Calculator.tsx:29-57 | `9 + 1 = + 2 =` shows 12, provided the text shown for 10 reads back as 10. |
| Scenarios.TypePointFive | components/Calculator.tsx:67-77 | Typing `1 . 5` (or `2 . 5`) into a fresh operand shows "1.5" (or "2.5"), which reads back as that number. |
| Scenarios.OnePointFivePlus | components/Calculator.tsx:26-43 | `1 . 5 +` stores 1.5 as the left operand and leaves "1.5" on the display. |
| Scenarios.TwoPointFiveEquals | components/Calculator.tsx:45-57 | With 1.5 + pending, `2 . 5 =` shows 4 and clears what was pending. |
| Scenarios.DecimalOperands | components/Calculator.tsx:67-77 | `1 . 5 + 2 . 5 =` shows 4. |
| Scenarios.RepeatedOperator | components/Calculator.tsx:33-38 | `2 + +` evaluates the pending addition against the displayed 2 and shows 4. |
| Scenarios.DivideByZeroWhileChaining | components/Calculator.tsx:33-42 | `8 ÷ 0 +` raises the error, keeps the stored 8, and still records + and sets `waitingForNewValue`. |
| Scenarios.DigitsAfterChainedError | components/Calculator.tsx:15-20 | After `8 ÷ 0 +`, the digits `5 6` show "6". |
| Scenarios.TypedNumbers | components/Calculator.tsx:22 | `5 0` shows "50", and `0 7` shows "7". |
| Scenarios.BackspaceExamples | components/Calculator.tsx:120-124 | Backspace turns "12" into "1" and "1" into "0". In the error state it shows "0" and keeps the flag. |

## Left out

- Rendering: the JSX keypad, the CSS, and the indicator line showing the pending operand and operator.
- Registering and removing the key listener, and `preventDefault`: these are browser plumbing. A key press is modelled as the key string passed to `Keyboard.OnKey`.
- React's hooks (`useState`, `useCallback`, `useEffect`) and batched updates. Each handler is modelled as one atomic transition on the state it sees.
- Floating-point arithmetic: numbers are exact reals, so rounding, overflow, `Infinity` and `NaN` are not modelled.
- `String(number)` is not modelled. It is the abstract `render` parameter. Continuing from a shown result (an operator after equals, or a second operator after a chained result) depends on `parseFloat(String(r))` being `r`. The model assumes this round trip only where a lemma states it as a hypothesis (`SessionProperties.OperatorAfterResult`, `SessionProperties.OperatorAfterChainedResult`, `Scenarios.ContinueFromResult`).
- Numerals.Parse departs from `parseFloat` on text the display can hold. Backspace on a shown negative result can leave "-", for example after `0 - 5 =` when -5 is shown as "-5". `parseFloat` reads "-" as `NaN`, but `Parse` reads it as 0. A shown result in exponent notation, such as "5e-7", reads as 5, because exponents are not parsed. These cases are left out together with `NaN` itself. Leading whitespace and a leading '+' are not accepted either, and the display never holds them.
- The `default` branch of `calculate` (returning `b`) is left out because it cannot be reached: every pending operation is one of the four operators.
- `app/page.tsx` and `app/layout.tsx` only mount the component and set page metadata.
- The written digit test followed by `parseInt` would press a number such as 12 for a key such as "12". That path is modelled only by `Keyboard.DigitGuardAsWritten`, as a finding. The handler uses the single-digit test.

## Findings

| source | as written | input that shows it | evidently intended | confidence | as-written member | corrected member |
|---|---|---|---|---|---|---|
| components/Calculator.tsx:101 | `e.key >= '0' && e.key <= '9'` compares strings by range, so it accepts any key of two or more characters that starts with '0' to '8' | key "12", which would call the digit handler with 12 | accept only the ten one-character digit keys | low: browsers do not report such key names; not executed | Keyboard.DigitGuardAdmitsTwoCharacterKey | Keyboard.KeyToEvent |
