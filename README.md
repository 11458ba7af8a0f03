# Calculator engine, modelled in Dafny

This project models the engine of a four-function web calculator. The engine
turns key presses into the text on the display. It has four fields:
- the display text;
- the pending left operand;
- the pending operator (`+`, `-`, `×`, `÷`);
- a flag saying that the next digit starts a fresh number.

The engine has one action per key: digit, decimal point, percent, clear,
backspace, sign toggle, operator and equals. Three pure helpers support the
actions:
- `parseDisplay`: display text to a finite number, or null;
- `calculate`: the four operators, with a zero divisor giving NaN;
- `formatResult`: a number to text, or `"Error"`.

The repository has two engines:
- `CalculatorLogic`, which the view drives;
- `Calculator`, which also renders itself. Only its logic is modelled here.

Layout:
- `wrappers.dfy`: `Option`, for the `T | null` values.
- `operators.dfy`: the closed set of operators and the `isOperator` guard.
- `numbers.dfy`: JavaScript numbers as `Finite(real) | NaN | Inf(negative)`, and `calculate`.
- `number_text.dfy`: `parseDisplay` and `formatResult`. Both are written out in full:
  - JavaScript `Number(...)` on strings: trimming, sign, `Infinity`, decimal with exponent, and `0x`/`0o`/`0b`.
  - `Number.prototype.toString` layout for values with at most 12 significant digits.
  - `toExponential(6)` with round-half-up.
- `number_text_properties.dfy`: what the two conversions promise. Every finite number's text reads back as a number, and the plain `toString` text reads back as exactly that number. `"Error"` is shown exactly for NaN and the infinities. No formatted text holds two decimal points.
- `calculator_state.dfy`: the four fields as a `State` value, and one pure transition per action. `Step` and `WidgetStep` dispatch a key on the two engines; `Run` and `WidgetRun` run a key sequence.
- `calculator_logic.dfy`: class `CalculatorLogic`, with the four fields updated in place. Each method is proved to perform its transition, and to keep the pending value and operator set and cleared together.
- `calculator.dfy`: class `Calculator`, in the same form, including the inline percent branch of its click handler.
- `calculator_properties.dfy`: properties over key sequences:
  - the pending pair stays together;
  - the display never holds two decimal points;
  - typed digits read back as the number they spell;
  - operators fold left to right;
  - the two engines differ only in percent.

Facts about the code that a reader might not expect:
- The display can become empty: 5, ±, ⌫, ± leaves `""` (`EmptyDisplayReachable`). Backspace keeps a lone `"-"`.
- Equals with no pending operand or operator does nothing (`EqualsWithNothingPending`). Equals pressed twice changes nothing the second time (`CalculateResultIdempotent`).
- After an error, a digit does not always start a fresh number. Percent on an unparsable display shows `"Error"` and clears the waiting flag in `CalculatorLogic`, so the next digit is appended to `"Error"` (`PercentAfterErrorDiverges`).
- Clear-entry, repeated equals and square root appear only as exercises in `src/CalculatorExercises.test.ts` (lines 28-122), whose tests expect methods that neither engine implements. They are not modelled.

## Model

| member | source | states |
|---|---|---|
| Operators.Symbol | src/CalculatorLogic.ts:1-2 | every operator's spelling is one of the four listed symbols |
| Operators.ParseOperator | src/CalculatorLogic.ts:4-5 | a recognised spelling reads back as the operator it spells |
| Operators.OperatorSpelling | src/CalculatorLogic.ts:4-5 | the guard accepts a string exactly when it spells an operator, and spelling then reading gives the operator back |
| Numbers.CalculateFinite | src/CalculatorLogic.ts:104-111 | on finite operands the result is finite exactly when it is not division by zero, and is then the exact sum, difference, product or quotient |
| Numbers.DivisionByZeroIsNaN | src/CalculatorLogic.ts:109 | a zero divisor gives NaN whatever the left operand |
| Numbers.NaNAbsorbs | src/CalculatorLogic.ts:104-111 | NaN on either side gives NaN for every operator |
| Numbers.CalculateInverses | src/CalculatorLogic.ts:104-111 | in exact arithmetic, subtraction undoes addition and multiplication undoes division by a non-zero number (not true of binary64, see Left out) |
| Numbers.CalculateCommutes | src/calculator.ts:91-98 | `+` and `×` are commutative on all numbers, special values included |
| NumberTextProperties.FormatResultError | src/CalculatorLogic.ts:113-122 | "Error" is shown exactly for NaN and infinities, and the formatted text parses back exactly when the number is finite |
| NumberTextProperties.FormatFiniteReadsBack | src/CalculatorLogic.ts:117-121 | the text of every finite number parses back as a number, and as that very number whenever the plain `toString` text is shown |
| NumberTextProperties.ShortStringValue | src/CalculatorLogic.ts:117 | the `toString` text of a number with at most 12 significant digits parses back as exactly that number |
| NumberTextProperties.LayoutReadsBack | src/CalculatorLogic.ts:117 | each `toString` layout (plain, with a point, with leading zeros, exponential) of s·10^(n-k) is a numeral that parses back as that value |
| NumberTextProperties.ExponentialReadsBack | src/CalculatorLogic.ts:119 | the `toExponential(6)` text of any non-zero number parses back as a number |
| NumberTextProperties.DenotesReadsBack | src/CalculatorLogic.ts:98-102 | a numeral, with or without a leading minus sign, is read by `parseDisplay` as its value |
| NumberTextProperties.FormatResultOnePoint | src/CalculatorLogic.ts:113-122 | no text `formatResult` produces holds more than one decimal point |
| CalculatorProperties.ParseDigits | src/CalculatorLogic.ts:98-102 | a non-empty digit string parses as the number its digits spell |
| CalculatorProperties.MinusAloneIsError | src/CalculatorLogic.ts:98-102 | a lone minus sign does not parse |
| LogicEngine.CalculatorLogic.constructor | src/CalculatorLogic.ts:12-15 | a fresh engine shows "0", has nothing pending and is not waiting |
| LogicEngine.CalculatorLogic.GetDisplay | src/CalculatorLogic.ts:17-19 | returns the display text |
| LogicEngine.CalculatorLogic.InputDigit | src/CalculatorLogic.ts:21-28 | when waiting the display becomes the digit and the flag clears; otherwise "0" is replaced and anything else extended; the pending pair is untouched |
| LogicEngine.CalculatorLogic.InputDecimal | src/CalculatorLogic.ts:30-37 | when waiting the display becomes "0." and the flag clears; otherwise a point is appended only if there is none |
| LogicEngine.CalculatorLogic.InputPercent | src/CalculatorLogic.ts:39-43 | the display becomes the formatted hundredth of its value (NaN if it does not parse) and the flag clears |
| LogicEngine.CalculatorLogic.Clear | src/CalculatorLogic.ts:45-50 | all four fields return to their initial values |
| LogicEngine.CalculatorLogic.Backspace | src/CalculatorLogic.ts:52-55 | no change while waiting; otherwise the last character goes, and a one-character display becomes "0" |
| LogicEngine.CalculatorLogic.ToggleSign | src/CalculatorLogic.ts:57-60 | "0" is left alone; otherwise one leading minus sign is stripped or added |
| LogicEngine.CalculatorLogic.InputOperator | src/CalculatorLogic.ts:62-79 | an unparsable display gives "Error" with the pending pair kept; otherwise a pending pair is folded first when not waiting, the operator is recorded and the flag set |
| LogicEngine.CalculatorLogic.CalculateResult | src/CalculatorLogic.ts:81-96 | no change with nothing pending; an unparsable display gives "Error"; otherwise the formatted result is shown, the pair cleared and the flag set |
| WidgetEngine.Calculator.constructor | src/calculator.ts:4-12 | a fresh engine shows "0", has nothing pending and is not waiting |
| WidgetEngine.Calculator.InputDigit | src/calculator.ts:14-21 | the same digit transition as `CalculatorLogic` |
| WidgetEngine.Calculator.InputDecimal | src/calculator.ts:23-30 | the same decimal-point transition as `CalculatorLogic` |
| WidgetEngine.Calculator.Clear | src/calculator.ts:38-43 | all four fields return to their initial values |
| WidgetEngine.Calculator.Backspace | src/calculator.ts:45-48 | no change while waiting; otherwise the last character goes, and a one-character display becomes "0" |
| WidgetEngine.Calculator.ToggleSign | src/calculator.ts:50-53 | "0" is left alone; otherwise one leading minus sign is stripped or added |
| WidgetEngine.Calculator.InputOperator | src/calculator.ts:55-72 | the same operator transition as `CalculatorLogic`, error path included |
| WidgetEngine.Calculator.CalculateResult | src/calculator.ts:74-89 | the same equals transition as `CalculatorLogic` |
| WidgetEngine.Calculator.PressPercent | src/calculator.ts:179-182 | the display becomes the formatted hundredth of its value, and the flag and the pending pair are untouched |
| CalculatorProperties.StepKeepsPending | src/CalculatorLogic.ts:45-96 | every action on either engine keeps the pending value and operator set or cleared together |
| CalculatorProperties.RunKeepsPending | src/CalculatorLogic.ts:45-96 | so does every key sequence on either engine |
| CalculatorProperties.StepKeepsOnePoint | src/CalculatorLogic.ts:21-96 | with one-digit digit keys, no action puts a second decimal point on the display |
| CalculatorProperties.ReachableOnePoint | src/CalculatorLogic.ts:30-37 | whatever keys are pressed on a fresh engine, the display holds at most one decimal point |
| CalculatorProperties.DecimalIdempotent | src/CalculatorLogic.ts:30-37 | after the decimal key the display holds a point and the flag is clear, and a second press changes nothing |
| CalculatorProperties.BackspaceUndoesDigit | src/CalculatorLogic.ts:52-55 | when entering a non-empty number, backspace after a digit restores the state exactly |
| CalculatorProperties.BackspaceAfterEmpty | src/CalculatorLogic.ts:52-55 | on an empty display, a digit then backspace leaves "0" |
| CalculatorProperties.ToggleTwice | src/CalculatorLogic.ts:57-60 | toggling twice restores the state exactly when the display is not "-0" and does not start with "--" |
| CalculatorProperties.ClearRestarts | src/CalculatorLogic.ts:45-50 | after clear any key sequence behaves exactly as on a fresh engine |
| CalculatorProperties.CalculateResultIdempotent | src/CalculatorLogic.ts:81-96 | pressing equals a second time changes nothing |
| CalculatorProperties.EqualsWithNothingPending | src/CalculatorLogic.ts:81-96 | equals with no pending operand or operator leaves the state as it is; otherwise it either clears the pending pair or shows "Error" with the pair kept |
| CalculatorProperties.DivisionByZeroShowsError | src/CalculatorLogic.ts:81-96 | equals on a pending division with a display reading zero shows "Error" and clears the pair |
| CalculatorProperties.ResultShowsNumber | src/CalculatorLogic.ts:90-92 | after equals the display parses back exactly when the result is finite |
| CalculatorProperties.PercentReadsBack | src/CalculatorLogic.ts:39-43 | percent of an unparsable display is "Error"; otherwise the new display parses, as exactly the hundredth whenever that needs no exponential form |
| CalculatorProperties.TypeOntoValue | src/CalculatorLogic.ts:21-28 | the digits typed onto a number spell the value of the digits as written, leading zeros dropped or not |
| CalculatorProperties.EnterNumber | src/CalculatorLogic.ts:21-28 | typing a number's digits on a fresh entry shows a display that parses as that number, with the pending pair kept |
| CalculatorProperties.TypeOntoAppends | src/CalculatorLogic.ts:21-28 | digits typed onto a display other than "0" and "" are appended as they are |
| CalculatorProperties.TypeOntoZero | src/CalculatorLogic.ts:21-28 | digits typed onto "0" show without their leading zeros, one digit kept |
| CalculatorProperties.EnterShowsDigits | src/CalculatorLogic.ts:21-28 | typing digits on a fresh entry shows them with leading zeros dropped, so digits not starting with 0 show exactly as typed, and only the display and waiting flag change |
| CalculatorProperties.EnterPoint | src/CalculatorLogic.ts:21-37 | digits then the decimal point on a fresh entry show the digits, leading zeros dropped, followed by one point |
| CalculatorProperties.EnterDecimal | src/CalculatorLogic.ts:21-37 | digits a, a point and digits b on a fresh entry show a (leading zeros dropped), the point and b, and read back as a + b / 10^(length of b) |
| CalculatorProperties.OneTwoThree | src/CalculatorLogic.test.ts:23-28 | keys 1, 2, 3 from the start show "123" |
| CalculatorProperties.FivePointTwo | src/CalculatorLogic.test.ts:39-45 | keys 5, point, point, 2 from the start show "5.2": the second point is ignored |
| CalculatorProperties.ChainLeftToRight | src/CalculatorLogic.ts:62-96 | `a o1 b o2 c =` shows the formatted (a o1 b) o2 c, with no operator precedence |
| CalculatorProperties.ErrorFromLoneMinus | src/CalculatorLogic.ts:62-68 | 5, ±, ⌫, + shows "Error", waits, and records no operator |
| CalculatorProperties.EmptyDisplayReachable | src/CalculatorLogic.ts:52-60 | 5, ±, ⌫, ± leaves an empty display |
| CalculatorProperties.EnginesDifferOnlyInPercent | src/calculator.ts:179-182 | the engines agree on every key but percent, where `Calculator` keeps the flag that `CalculatorLogic` clears |
| CalculatorProperties.RunsAgreeWithoutPercent | src/calculator.ts:14-89 | on key sequences without percent both engines end in the same state |
| CalculatorProperties.PercentAfterErrorDiverges | src/calculator.ts:179-182 | after a failed operator, percent then a digit shows "Error" and the digit on `CalculatorLogic`, but only the digit on `Calculator` |

## Left out

- DOM rendering, event listeners and the keyboard mapping (`render`, `attachEventListeners`, `CalculatorView`, `main`) forward calls to the engine and are not part of this model. The inline percent branch of `Calculator`'s click handler is the one exception.
- Binary64 arithmetic: numbers are exact reals. Rounding, overflow to infinity and the sign of zero are not modelled. The infinities stay in the number type, with their IEEE 754 rules, but `parseDisplay` turns them away.
- `toString` for values that need more than 12 significant digits: the exact 17-digit shortest round-trip text is not modelled. Such a text is always longer than 12 characters, so `formatResult` uses `toExponential(6)` in both the code and the model.
- NumberTextProperties.ExponentialReadsBack: proves that the `toExponential(6)` text parses back as a number, but not that it is within half a unit in the seventh significant digit of the value.
- Strings are sequences of Unicode code points, not UTF-16 code units. Whitespace covers the characters of ECMAScript WhiteSpace and LineTerminator.
- Clear-entry, repeated equals and square root do not exist in either engine. They appear only as exercises in `src/CalculatorExercises.test.ts`.
- Numbers.CalculateInverses: holds only in the exact arithmetic of this model. In binary64 it fails: 0.1 + 0.2 - 0.2 is 0.10000000000000003, not 0.1.
- Two operator literals in `CalculatorLogic.test.ts` are not among the four operators, and are not modelled.
