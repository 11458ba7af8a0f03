/**
 * The calculator's state and one pure transition per action. Both engine
 * classes keep these four fields and are proved to perform exactly these
 * transitions; the lemmas about the calculator are stated here, on values.
 */
module CalculatorState {
  import opened Wrappers
  import opened Operators
  import opened Numbers
  import opened NumberText

  /** display text, the pending left operand and operator, and whether the
      next digit starts a fresh number. */
  datatype State = State(
    display: string,
    previousValue: Option<Num>,
    operator: Option<Op>,
    waitingForOperand: bool)

  /** The keys of the keypad, as the view dispatches them. */
  datatype Key =
    | DigitKey(digit: string)
    | DecimalKey
    | PercentKey
    | ClearKey
    | BackspaceKey
    | ToggleKey
    | OperatorKey(op: Op)
    | EqualsKey

  function Initial(): State {
    State("0", None, None, false)
  }

  /** The pending value and the pending operator are set and cleared together. */
  predicate PendingPaired(s: State) {
    s.previousValue.Some? <==> s.operator.Some?
  }

  function InputDigit(s: State, digit: string): State {
    if s.waitingForOperand then s.(display := digit, waitingForOperand := false)
    else s.(display := if s.display == "0" then digit else s.display + digit)
  }

  function InputDecimal(s: State): State {
    if s.waitingForOperand then s.(display := "0.", waitingForOperand := false)
    else if '.' !in s.display then s.(display := s.display + ".")
    else s
  }

  /** The display divided by 100 (NaN when it does not parse). */
  function PercentText(display: string): string {
    var n := ParseDisplay(display);
    FormatResult(if n.None? then NaN else Finite(n.value / 100.0))
  }

  /** `CalculatorLogic.inputPercent`: also clears the waiting flag. */
  function InputPercent(s: State): State {
    s.(display := PercentText(s.display), waitingForOperand := false)
  }

  /** The percent branch of `Calculator`'s click handler: the flag is kept. */
  function InlinePercent(s: State): State {
    s.(display := PercentText(s.display))
  }

  function Clear(s: State): State {
    State("0", None, None, false)
  }

  function Backspace(s: State): State {
    if s.waitingForOperand then s
    else s.(display := if |s.display| > 1 then s.display[..|s.display| - 1] else "0")
  }

  function ToggleSign(s: State): State {
    if s.display == "0" then s
    else if |s.display| > 0 && s.display[0] == '-' then s.(display := s.display[1..])
    else s.(display := "-" + s.display)
  }

  function InputOperator(s: State, op: Op): State {
    var current := ParseDisplay(s.display);
    if current.None? then s.(display := "Error", waitingForOperand := true)
    else if s.previousValue.Some? && s.operator.Some? && !s.waitingForOperand then
      var folded := Calculate(s.previousValue.value, Finite(current.value), s.operator.value);
      State(FormatResult(folded), Some(folded), Some(op), true)
    else
      s.(previousValue := Some(Finite(current.value)), operator := Some(op), waitingForOperand := true)
  }

  function CalculateResult(s: State): State {
    if s.previousValue.None? || s.operator.None? then s
    else
      var current := ParseDisplay(s.display);
      if current.None? then s.(display := "Error", waitingForOperand := true)
      else
        var result := Calculate(s.previousValue.value, Finite(current.value), s.operator.value);
        State(FormatResult(result), None, None, true)
  }

  /** One key on `CalculatorLogic`. */
  function Step(s: State, k: Key): State {
    match k
    case DigitKey(d) => InputDigit(s, d)
    case DecimalKey => InputDecimal(s)
    case PercentKey => InputPercent(s)
    case ClearKey => Clear(s)
    case BackspaceKey => Backspace(s)
    case ToggleKey => ToggleSign(s)
    case OperatorKey(op) => InputOperator(s, op)
    case EqualsKey => CalculateResult(s)
  }

  /** One key on `Calculator`, whose percent key is handled inline. */
  function WidgetStep(s: State, k: Key): State {
    match k
    case DigitKey(d) => InputDigit(s, d)
    case DecimalKey => InputDecimal(s)
    case PercentKey => InlinePercent(s)
    case ClearKey => Clear(s)
    case BackspaceKey => Backspace(s)
    case ToggleKey => ToggleSign(s)
    case OperatorKey(op) => InputOperator(s, op)
    case EqualsKey => CalculateResult(s)
  }

  function Run(s: State, keys: seq<Key>): State
    decreases |keys|
  {
    if keys == [] then s else Run(Step(s, keys[0]), keys[1..])
  }

  function WidgetRun(s: State, keys: seq<Key>): State
    decreases |keys|
  {
    if keys == [] then s else WidgetRun(WidgetStep(s, keys[0]), keys[1..])
  }
}
