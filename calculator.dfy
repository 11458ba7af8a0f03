/**
 * `Calculator`: the engine that renders itself. Only its logic is
 * modelled: the action methods, which repeat those of `CalculatorLogic`, and
 * the percent branch of its click handler, which updates the display inline
 * and leaves the waiting flag as it was.
 */
module WidgetEngine {
  import opened Wrappers
  import opened Operators
  import opened Numbers
  import opened NumberText
  import opened CalculatorState

  class Calculator {
    var display: string
    var previousValue: Option<Num>
    var operator: Option<Op>
    var waitingForOperand: bool

    function Model(): State
      reads this
    {
      State(display, previousValue, operator, waitingForOperand)
    }

    ghost predicate Valid()
      reads this
    {
      PendingPaired(Model())
    }

    /** The container element of the DOM is not modelled. */
    constructor ()
      ensures Valid()
      ensures Model() == Initial()
    {
      display := "0";
      previousValue := None;
      operator := None;
      waitingForOperand := false;
    }

    method InputDigit(digit: string)
      requires Valid()
      modifies this
      ensures Valid()
      ensures Model() == CalculatorState.InputDigit(old(Model()), digit)
    {
      if waitingForOperand {
        display := digit;
        waitingForOperand := false;
      } else {
        display := if display == "0" then digit else display + digit;
      }
    }

    method InputDecimal()
      requires Valid()
      modifies this
      ensures Valid()
      ensures Model() == CalculatorState.InputDecimal(old(Model()))
    {
      if waitingForOperand {
        display := "0.";
        waitingForOperand := false;
      } else if '.' !in display {
        display := display + ".";
      }
    }

    method Clear()
      modifies this
      ensures Valid()
      ensures Model() == CalculatorState.Clear(old(Model()))
    {
      display := "0";
      previousValue := None;
      operator := None;
      waitingForOperand := false;
    }

    method Backspace()
      requires Valid()
      modifies this
      ensures Valid()
      ensures Model() == CalculatorState.Backspace(old(Model()))
    {
      if waitingForOperand {
        return;
      }
      display := if |display| > 1 then display[..|display| - 1] else "0";
    }

    method ToggleSign()
      requires Valid()
      modifies this
      ensures Valid()
      ensures Model() == CalculatorState.ToggleSign(old(Model()))
    {
      if display == "0" {
        return;
      }
      display := if |display| > 0 && display[0] == '-' then display[1..] else "-" + display;
    }

    method InputOperator(op: Op)
      requires Valid()
      modifies this
      ensures Valid()
      ensures Model() == CalculatorState.InputOperator(old(Model()), op)
    {
      var currentValue := ParseDisplay(display);
      if currentValue.None? {
        display := "Error";
        waitingForOperand := true;
        return;
      }

      if previousValue.Some? && operator.Some? && !waitingForOperand {
        previousValue := Some(Calculate(previousValue.value, Finite(currentValue.value), operator.value));
        display := FormatResult(previousValue.value);
      } else {
        previousValue := Some(Finite(currentValue.value));
      }

      operator := Some(op);
      waitingForOperand := true;
    }

    method CalculateResult()
      requires Valid()
      modifies this
      ensures Valid()
      ensures Model() == CalculatorState.CalculateResult(old(Model()))
    {
      if previousValue.None? || operator.None? {
        return;
      }

      var currentValue := ParseDisplay(display);
      if currentValue.None? {
        display := "Error";
        waitingForOperand := true;
        return;
      }
      var result := Calculate(previousValue.value, Finite(currentValue.value), operator.value);

      display := FormatResult(result);
      previousValue := None;
      operator := None;
      waitingForOperand := true;
    }

    /** The `percent` case of the click handler. */
    method PressPercent()
      requires Valid()
      modifies this
      ensures Valid()
      ensures Model() == CalculatorState.InlinePercent(old(Model()))
    {
      var n := ParseDisplay(display);
      var value := if n.None? then NaN else Finite(n.value / 100.0);
      display := FormatResult(value);
    }
  }
}
