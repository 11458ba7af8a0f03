/**
 * What the calculator promises over whole key sequences: the pending pair
 * stays together, the display never holds two decimal points, typed digits
 * read back as the number they spell, operators fold left to right, and the
 * two engines differ only in how the percent key treats the waiting flag.
 */
module CalculatorProperties {
  import opened Wrappers
  import opened Operators
  import opened Numbers
  import opened NumberText
  import opened NumberTextProperties
  import opened CalculatorState

  // ---------------------------------------------------------------------
  // Running keys

  /** Running two key sequences one after the other is running their
      concatenation. */
  lemma {:induction false} RunAppend(s: State, a: seq<Key>, b: seq<Key>)
    ensures Run(s, a + b) == Run(Run(s, a), b)
    decreases |a|
  {
    if a == [] {
      assert a + b == b;
    } else {
      assert (a + b)[0] == a[0];
      assert (a + b)[1..] == a[1..] + b;
      RunAppend(Step(s, a[0]), a[1..], b);
    }
  }

  // ---------------------------------------------------------------------
  // The pending pair

  /** Every action sets and clears the pending value and operator together. */
  lemma StepKeepsPending(s: State, k: Key)
    requires PendingPaired(s)
    ensures PendingPaired(Step(s, k)) && PendingPaired(WidgetStep(s, k))
  {
  }

  /** So does every sequence of actions, on either engine. */
  lemma {:induction false} RunKeepsPending(s: State, keys: seq<Key>)
    requires PendingPaired(s)
    ensures PendingPaired(Run(s, keys)) && PendingPaired(WidgetRun(s, keys))
    decreases |keys|
  {
    if keys != [] {
      StepKeepsPending(s, keys[0]);
      RunKeepsPending(Step(s, keys[0]), keys[1..]);
      RunKeepsPending(WidgetStep(s, keys[0]), keys[1..]);
    }
  }

  // ---------------------------------------------------------------------
  // At most one decimal point on the display

  /** The view's digit keys each send one decimal digit. */
  predicate DigitKeyOk(k: Key) {
    k.DigitKey? ==> |k.digit| == 1 && IsDigit(k.digit[0])
  }

  lemma {:induction false} NoPointIn(t: string)
    requires '.' !in t
    ensures multiset(t)['.'] == 0
  {
  }

  lemma {:induction false} DigitKeepsOnePoint(s: State, d: string)
    requires AtMostOnePoint(s.display) && |d| == 1 && IsDigit(d[0])
    ensures AtMostOnePoint(InputDigit(s, d).display)
  {
    NoPointIn(d);
    assert multiset(s.display + d) == multiset(s.display) + multiset(d);
  }

  lemma {:induction false} DecimalKeepsOnePoint(s: State)
    requires AtMostOnePoint(s.display)
    ensures AtMostOnePoint(InputDecimal(s).display)
  {
    if !s.waitingForOperand && '.' !in s.display {
      NoPointIn(s.display);
      assert multiset(s.display + ".") == multiset(s.display) + multiset(".");
    }
  }

  lemma {:induction false} BackspaceKeepsOnePoint(s: State)
    requires AtMostOnePoint(s.display)
    ensures AtMostOnePoint(Backspace(s).display)
  {
    var d := s.display;
    if !s.waitingForOperand && |d| > 1 {
      assert d == d[..|d| - 1] + [d[|d| - 1]];
      assert multiset(d) == multiset(d[..|d| - 1]) + multiset([d[|d| - 1]]);
    }
  }

  lemma {:induction false} ToggleKeepsOnePoint(s: State)
    requires AtMostOnePoint(s.display)
    ensures AtMostOnePoint(ToggleSign(s).display)
  {
    var d := s.display;
    if d != "0" {
      if |d| > 0 && d[0] == '-' {
        assert d == [d[0]] + d[1..];
        assert multiset(d) == multiset([d[0]]) + multiset(d[1..]);
      } else {
        assert multiset("-" + d) == multiset("-") + multiset(d);
      }
    }
  }

  lemma {:induction false} ErrorHasNoPoint()
    ensures AtMostOnePoint("Error")
  {
    NoPointIn("Error");
  }

  lemma {:induction false} OperatorKeepsOnePoint(s: State, op: Op)
    requires AtMostOnePoint(s.display)
    ensures AtMostOnePoint(InputOperator(s, op).display)
  {
    ErrorHasNoPoint();
    var current := ParseDisplay(s.display);
    if current.Some? && s.previousValue.Some? && s.operator.Some? {
      FormatResultOnePoint(Calculate(s.previousValue.value, Finite(current.value), s.operator.value));
    }
  }

  lemma {:induction false} EqualsKeepsOnePoint(s: State)
    requires AtMostOnePoint(s.display)
    ensures AtMostOnePoint(CalculateResult(s).display)
  {
    ErrorHasNoPoint();
    var current := ParseDisplay(s.display);
    if current.Some? && s.previousValue.Some? && s.operator.Some? {
      FormatResultOnePoint(Calculate(s.previousValue.value, Finite(current.value), s.operator.value));
    }
  }

  lemma {:induction false} PercentKeepsOnePoint(display: string)
    ensures AtMostOnePoint(PercentText(display))
  {
    var n := ParseDisplay(display);
    FormatResultOnePoint(if n.None? then NaN else Finite(n.value / 100.0));
  }

  /** No action puts a second decimal point on the display. */
  lemma {:induction false} StepKeepsOnePoint(s: State, k: Key)
    requires AtMostOnePoint(s.display) && DigitKeyOk(k)
    ensures AtMostOnePoint(Step(s, k).display) && AtMostOnePoint(WidgetStep(s, k).display)
  {
    match k
    case DigitKey(d) => DigitKeepsOnePoint(s, d);
    case DecimalKey => DecimalKeepsOnePoint(s);
    case PercentKey => PercentKeepsOnePoint(s.display);
    case ClearKey => NoPointIn("0");
    case BackspaceKey => BackspaceKeepsOnePoint(s);
    case ToggleKey => ToggleKeepsOnePoint(s);
    case OperatorKey(op) => OperatorKeepsOnePoint(s, op);
    case EqualsKey => EqualsKeepsOnePoint(s);
  }

  lemma {:induction false} RunKeepsOnePoint(s: State, keys: seq<Key>)
    requires AtMostOnePoint(s.display)
    requires forall i :: 0 <= i < |keys| ==> DigitKeyOk(keys[i])
    ensures AtMostOnePoint(Run(s, keys).display) && AtMostOnePoint(WidgetRun(s, keys).display)
    decreases |keys|
  {
    if keys != [] {
      StepKeepsOnePoint(s, keys[0]);
      assert forall i :: 0 <= i < |keys[1..]| ==> DigitKeyOk(keys[1..][i]) by {
        forall i | 0 <= i < |keys[1..]| ensures DigitKeyOk(keys[1..][i]) {
          assert keys[1..][i] == keys[i + 1];
        }
      }
      RunKeepsOnePoint(Step(s, keys[0]), keys[1..]);
      RunKeepsOnePoint(WidgetStep(s, keys[0]), keys[1..]);
    }
  }

  /** Whatever keys are pressed from a fresh calculator, the display holds
      at most one decimal point. */
  lemma {:induction false} ReachableOnePoint(keys: seq<Key>)
    requires forall i :: 0 <= i < |keys| ==> DigitKeyOk(keys[i])
    ensures AtMostOnePoint(Run(Initial(), keys).display)
    ensures AtMostOnePoint(WidgetRun(Initial(), keys).display)
  {
    NoPointIn("0");
    RunKeepsOnePoint(Initial(), keys);
  }

  // ---------------------------------------------------------------------
  // Single actions

  /** After clear the calculator behaves exactly as a fresh one. */
  lemma {:induction false} ClearRestarts(s: State, keys: seq<Key>)
    ensures Run(s, [ClearKey] + keys) == Run(Initial(), keys)
  {
    assert ([ClearKey] + keys)[0] == ClearKey;
    assert ([ClearKey] + keys)[1..] == keys;
  }

  /** The decimal key ends number entry with a point on the display, and a
      second press changes nothing. */
  lemma DecimalIdempotent(s: State)
    ensures '.' in InputDecimal(s).display && !InputDecimal(s).waitingForOperand
    ensures InputDecimal(InputDecimal(s)) == InputDecimal(s)
  {
    if s.waitingForOperand {
      assert "0."[1] == '.';
    } else if '.' !in s.display {
      assert (s.display + ".")[|s.display|] == '.';
    }
  }

  /** Backspace takes back the digit just typed, unless a result was on
      show or the display was empty. */
  lemma {:induction false} BackspaceUndoesDigit(s: State, d: string)
    requires !s.waitingForOperand && s.display != [] && |d| == 1
    ensures Backspace(InputDigit(s, d)) == s
  {
    if s.display != "0" {
      assert (s.display + d)[..|s.display|] == s.display;
    }
  }

  /** On an empty display a digit then backspace leaves "0", not the empty
      text. */
  lemma BackspaceAfterEmpty(s: State, d: string)
    requires !s.waitingForOperand && s.display == [] && |d| == 1
    ensures Backspace(InputDigit(s, d)).display == "0"
  {
  }

  /** Toggling twice restores the display exactly when the first toggle
      does not strip the sign off "-0" or off a doubled "--". */
  lemma {:induction false} ToggleTwice(s: State)
    ensures ToggleSign(ToggleSign(s)) == s <==>
      !(|s.display| >= 2 && s.display[0] == '-' && (s.display[1..] == "0" || s.display[1] == '-'))
  {
    var d := s.display;
    if d == "0" {
    } else if |d| > 0 && d[0] == '-' {
      var e := d[1..];
      assert |d| >= 2 ==> e[0] == d[1];
      if e == "0" {
        assert d == "-0";
      } else if |e| > 0 && e[0] == '-' {
        assert |e[1..]| < |d|;
      } else {
        assert "-" + e == d;
      }
    } else {
      var t := ToggleSign(s);
      assert t.display == "-" + d && t.display[0] == '-' && t.display != "0";
      assert t.display[1..] == d;
      assert ToggleSign(t) == s;
    }
  }

  /** Pressing equals again after equals changes nothing: the pending pair
      is gone after success, and "Error" does not parse after failure. */
  lemma CalculateResultIdempotent(s: State)
    ensures CalculateResult(CalculateResult(s)) == CalculateResult(s)
  {
  }

  /** Equals with no pending operand or no pending operator changes
      nothing; otherwise it either completes the operation or shows
      "Error" while keeping the pending pair. */
  lemma EqualsWithNothingPending(s: State)
    ensures s.previousValue.None? || s.operator.None? ==> CalculateResult(s) == s
    ensures s.previousValue.Some? && s.operator.Some? ==>
      var r := CalculateResult(s);
      || (r.previousValue.None? && r.operator.None? && r.waitingForOperand)
      || (r.display == "Error" && r.previousValue == s.previousValue && r.operator == s.operator)
  {
  }

  /** Dividing by a zero on the display shows "Error" and ends the
      operation. */
  lemma DivisionByZeroShowsError(s: State)
    requires s.previousValue.Some? && s.operator == Some(Div)
    requires ParseDisplay(s.display) == Some(0.0)
    ensures CalculateResult(s) == State("Error", None, None, true)
  {
    DivisionByZeroIsNaN(s.previousValue.value);
  }

  /** After equals the display reads back as a number exactly when the
      result is finite. */
  lemma {:induction false} ResultShowsNumber(s: State)
    requires s.previousValue.Some? && s.operator.Some? && ParseDisplay(s.display).Some?
    ensures var result := Calculate(s.previousValue.value, Finite(ParseDisplay(s.display).value), s.operator.value);
      ParseDisplay(CalculateResult(s).display).Some? <==> result.Finite?
  {
    FormatResultError(Calculate(s.previousValue.value, Finite(ParseDisplay(s.display).value), s.operator.value));
  }

  /** Percent shows "Error" for a display that does not parse, and
      otherwise a text that reads back as a number; as the hundredth part
      itself whenever that needs no exponential form. */
  lemma {:induction false} PercentReadsBack(display: string)
    ensures ParseDisplay(display).None? ==> PercentText(display) == "Error"
    ensures ParseDisplay(display).Some? ==> ParseDisplay(PercentText(display)).Some?
    ensures var n := ParseDisplay(display);
      n.Some? && ShortString(n.value / 100.0).Some? && |ShortString(n.value / 100.0).value| <= 12 ==>
        ParseDisplay(PercentText(display)) == Some(n.value / 100.0)
  {
    var n := ParseDisplay(display);
    if n.Some? {
      FormatFiniteReadsBack(n.value / 100.0);
    }
  }

  // ---------------------------------------------------------------------
  // Entering numbers

  /** The keys that type the characters of w, one digit key each. */
  function DigitKeys(w: string): (keys: seq<Key>)
    ensures |keys| == |w|
    ensures forall i :: 0 <= i < |w| ==> keys[i] == DigitKey([w[i]])
  {
    if w == [] then []
    else
      assert w[..1] == [w[0]];
      assert forall i :: 0 <= i < |w| - 1 ==> w[1..][i] == w[i + 1];
      [DigitKey(w[..1])] + DigitKeys(w[1..])
  }

  /** The display after typing w onto the number being entered on d. */
  function TypeOnto(d: string, w: string): string
    decreases |w|
  {
    if w == [] then d
    else TypeOnto(if d == "0" then [w[0]] else d + [w[0]], w[1..])
  }

  /** Typing digits onto a number being entered only edits the display. */
  lemma {:induction false} TypeDigits(s: State, w: string)
    requires !s.waitingForOperand
    ensures Run(s, DigitKeys(w)) == s.(display := TypeOnto(s.display, w))
    decreases |w|
  {
    if w != [] {
      var keys := DigitKeys(w);
      assert keys[1..] == DigitKeys(w[1..]);
      assert w[..1] == [w[0]];
      TypeDigits(Step(s, keys[0]), w[1..]);
    }
  }

  lemma {:induction false} DigitsSuffix(w: string)
    requires w != [] && AllDigits(w)
    ensures AllDigits(w[..1]) && AllDigits(w[1..]) && w[..1] + w[1..] == w
  {
    assert forall i :: 0 <= i < |w| - 1 ==> w[1..][i] == w[i + 1];
  }

  /** One typed digit: "0" is replaced, anything else is extended. */
  lemma {:induction false} TypeOneDigit(d: string, c: string, e: string)
    requires d != [] && AllDigits(d) && |c| == 1 && IsDigit(c[0])
    requires e == if d == "0" then c else d + c
    ensures e != [] && AllDigits(e) && AllDigits(d + c)
    ensures DigitsValue(e) == DigitsValue(d + c)
  {
    DigitsValueConcat(d, c);
    if d == "0" {
      assert DigitsValue(d) == 0;
    }
  }

  lemma {:induction false} TypeOntoFirst(d: string, w: string, e: string)
    requires w != [] && e == if d == "0" then w[..1] else d + w[..1]
    ensures TypeOnto(d, w) == TypeOnto(e, w[1..])
  {
    assert w[..1] == [w[0]];
  }

  lemma {:induction false} SplitAfterFirst(d: string, w: string)
    requires w != []
    ensures d + w[..1] + w[1..] == d + w
  {
    assert w[..1] + w[1..] == w;
  }

  /** The text typed so far denotes the digits as written, leading zeros
      dropped or not. */
  lemma {:induction false} TypeOntoValue(d: string, w: string)
    requires d != [] && AllDigits(d) && AllDigits(w)
    ensures TypeOnto(d, w) != [] && AllDigits(TypeOnto(d, w))
    ensures DigitsValue(TypeOnto(d, w)) == DigitsValue(d + w)
    decreases |w|
  {
    if w != [] {
      DigitsSuffix(w);
      var c := w[..1];
      var e := if d == "0" then c else d + c;
      TypeOntoFirst(d, w, e);
      TypeOneDigit(d, c, e);
      TypeOntoValue(e, w[1..]);
      SameValueAppend(e, d + c, w[1..]);
      SplitAfterFirst(d, w);
    } else {
      assert d + w == d;
    }
  }

  lemma {:induction false} SameValueAppend(a: string, b: string, w: string)
    requires AllDigits(a) && AllDigits(b) && AllDigits(w) && DigitsValue(a) == DigitsValue(b)
    ensures DigitsValue(a + w) == DigitsValue(b + w)
  {
    DigitsValueConcat(a, w);
    DigitsValueConcat(b, w);
  }

  /** A non-empty digit string on the display parses as its value. */
  lemma {:induction false} ParseDigits(t: string)
    requires t != [] && AllDigits(t)
    ensures ParseDisplay(t) == Some(DigitsValue(t) as real)
  {
    DigitsNoExponent(t);
    UnsignedPlain(t);
    MantissaWhole(t);
    assert TimesTenTo(DigitsValue(t) as real, 0) == DigitsValue(t) as real;
    ParseUnsigned(t);
  }

  /** w with its leading zeros dropped, keeping at least one digit. */
  function DropLeadingZeros(w: string): string
    decreases |w|
  {
    if |w| > 1 && w[0] == '0' then DropLeadingZeros(w[1..]) else w
  }

  /** Onto a display that is neither empty nor "0", typed digits are
      appended as they are. */
  lemma {:induction false} TypeOntoAppends(d: string, w: string)
    requires d != [] && d != "0"
    ensures TypeOnto(d, w) == d + w
    decreases |w|
  {
    if w == [] {
      assert d + w == d;
    } else {
      var e := d + [w[0]];
      assert |e| >= 2;
      TypeOntoAppends(e, w[1..]);
      assert e + w[1..] == d + w;
    }
  }

  /** Typing w onto the display "0" shows w without its leading zeros. */
  lemma {:induction false} TypeOntoZero(w: string)
    requires w != []
    ensures TypeOnto("0", w) == DropLeadingZeros(w)
    decreases |w|
  {
    var c := [w[0]];
    assert TypeOnto("0", w) == TypeOnto(c, w[1..]);
    if |w| > 1 && w[0] == '0' {
      assert c == "0";
      TypeOntoZero(w[1..]);
    } else if |w| == 1 {
      assert w[1..] == [] && c == w;
    } else {
      TypeOntoAppends(c, w[1..]);
      assert c + w[1..] == w;
    }
  }

  /** A fresh entry: the first digit key replaces the display and clears
      the waiting flag, as if typed onto "0". */
  lemma {:induction false} EnterKeys(s: State, w: string)
    requires w != []
    requires s.waitingForOperand || s.display == "0"
    ensures Run(s, DigitKeys(w)) == s.(display := TypeOnto("0", w), waitingForOperand := false)
  {
    var keys := DigitKeys(w);
    var first := s.(display := w[..1], waitingForOperand := false);
    assert w[..1] == [w[0]];
    assert Step(s, keys[0]) == first;
    assert keys == [keys[0]] + keys[1..];
    assert keys[1..] == DigitKeys(w[1..]);
    assert Run(s, keys) == Run(first, DigitKeys(w[1..]));
    TypeDigits(first, w[1..]);
  }

  /** Typing the digits of a number on a fresh entry shows a display that
      reads back as that number, and leaves the pending pair alone. */
  lemma {:induction false} EnterNumber(s: State, w: string)
    requires w != [] && AllDigits(w)
    requires s.waitingForOperand || s.display == "0"
    ensures var r := Run(s, DigitKeys(w));
      && r.previousValue == s.previousValue && r.operator == s.operator
      && !r.waitingForOperand
      && ParseDisplay(r.display) == Some(DigitsValue(w) as real)
  {
    EnterShowsDigits(s, w);
    EnteredDigits(w);
    ParseDigits(DropLeadingZeros(w));
  }

  /** Typing digits on a fresh entry shows exactly those digits with their
      leading zeros dropped (one digit is always kept), so digits that do
      not start with 0 are shown as typed. */
  lemma {:induction false} EnterShowsDigits(s: State, w: string)
    requires w != []
    requires s.waitingForOperand || s.display == "0"
    ensures Run(s, DigitKeys(w)) == s.(display := DropLeadingZeros(w), waitingForOperand := false)
    ensures w[0] != '0' ==> Run(s, DigitKeys(w)).display == w
  {
    EnterKeys(s, w);
    TypeOntoZero(w);
  }

  /** The digits a fresh entry shows are digits and keep w's value. */
  lemma {:induction false} EnteredDigits(w: string)
    requires w != [] && AllDigits(w)
    ensures DropLeadingZeros(w) != [] && AllDigits(DropLeadingZeros(w))
    ensures DigitsValue(DropLeadingZeros(w)) == DigitsValue(w)
  {
    TypeOntoZero(w);
    TypeOntoValue("0", w);
    DigitsValueConcat("0", w);
    assert DigitsValue("0") == 10 * DigitsValue([]) + DigitValue('0');
  }

  /** w, a point, then f, all digits, reads back as w + f / 10^|f|. */
  lemma {:induction false} ParsePointed(w: string, f: string)
    requires w != [] && AllDigits(w) && f != [] && AllDigits(f)
    ensures ParseDisplay(w + "." + f) == Some(DigitsValue(w) as real + DigitsValue(f) as real / TenTo(|f|))
  {
    var t := w + "." + f;
    assert t[0] == w[0];
    assert t[|t| - 1] == f[|f| - 1];
    assert |w| >= 2 ==> t[1] == w[1];
    assert |w| == 1 ==> t[1] == '.';
    ParseUnsigned(t);
    PointNumeral(w, f);
    MantissaPoint(w, f);
  }

  /** Typing a, then the decimal point, on a fresh entry shows a without
      its leading zeros followed by the point. */
  lemma {:induction false} EnterPoint(s: State, a: string)
    requires a != [] && AllDigits(a)
    requires s.waitingForOperand || s.display == "0"
    ensures Run(s, DigitKeys(a) + [DecimalKey])
      == s.(display := DropLeadingZeros(a) + ".", waitingForOperand := false)
  {
    var D := DropLeadingZeros(a);
    RunAppend(s, DigitKeys(a), [DecimalKey]);
    EnterKeys(s, a);
    TypeOntoZero(a);
    EnteredDigits(a);
    var s1 := s.(display := D, waitingForOperand := false);
    assert '.' !in D by {
      forall i | 0 <= i < |D| ensures D[i] != '.' { assert IsDigit(D[i]); }
    }
    assert [DecimalKey][1..] == [];
    assert Run(s1, [DecimalKey]) == InputDecimal(s1);
  }

  /** Typing a, the decimal point, then b on a fresh entry shows a without
      its leading zeros, the point and b, and reads back as a + b / 10^|b|. */
  lemma {:induction false} EnterDecimal(s: State, a: string, b: string)
    requires a != [] && AllDigits(a) && b != [] && AllDigits(b)
    requires s.waitingForOperand || s.display == "0"
    ensures var r := Run(s, DigitKeys(a) + [DecimalKey] + DigitKeys(b));
      && r.previousValue == s.previousValue && r.operator == s.operator
      && !r.waitingForOperand
      && r.display == DropLeadingZeros(a) + "." + b
      && ParseDisplay(r.display) == Some(DigitsValue(a) as real + DigitsValue(b) as real / TenTo(|b|))
  {
    var D := DropLeadingZeros(a);
    RunAppend(s, DigitKeys(a) + [DecimalKey], DigitKeys(b));
    EnterPoint(s, a);
    var s2 := s.(display := D + ".", waitingForOperand := false);
    TypeDigits(s2, b);
    TypeOntoAppends(D + ".", b);
    EnteredPointValue(a, b);
  }

  /** What EnterDecimal shows reads back as a + b / 10^|b|. */
  lemma {:induction false} EnteredPointValue(a: string, b: string)
    requires a != [] && AllDigits(a) && b != [] && AllDigits(b)
    ensures ParseDisplay(DropLeadingZeros(a) + "." + b)
      == Some(DigitsValue(a) as real + DigitsValue(b) as real / TenTo(|b|))
  {
    EnteredDigits(a);
    ParsePointed(DropLeadingZeros(a), b);
  }

  /** Keys 1, 2, 3 from the start show "123". */
  lemma OneTwoThree()
    ensures Run(Initial(), [DigitKey("1"), DigitKey("2"), DigitKey("3")]).display == "123"
  {
    var keys := [DigitKey("1"), DigitKey("2"), DigitKey("3")];
    assert keys[1..] == [DigitKey("2"), DigitKey("3")];
    assert keys[1..][1..] == [DigitKey("3")];
  }

  /** Keys 5, point, point, 2 from the start show "5.2": the second point
      is ignored. */
  lemma FivePointTwo()
    ensures Run(Initial(), [DigitKey("5"), DecimalKey, DecimalKey, DigitKey("2")]).display == "5.2"
  {
    var keys := [DigitKey("5"), DecimalKey, DecimalKey, DigitKey("2")];
    assert keys[1..] == [DecimalKey, DecimalKey, DigitKey("2")];
    assert keys[1..][1..] == [DecimalKey, DigitKey("2")];
    assert keys[1..][1..][1..] == [DigitKey("2")];
    assert '.' in "5.";
  }

  // ---------------------------------------------------------------------
  // Operators fold left to right

  /** The number the digits of w spell. */
  function Spelled(w: string): Num
    requires AllDigits(w)
  {
    Finite(DigitsValue(w) as real)
  }

  lemma {:induction false} FirstOperand(w: string, o: Op)
    requires w != [] && AllDigits(w)
    ensures var s := Run(Initial(), DigitKeys(w) + [OperatorKey(o)]);
      s.previousValue == Some(Spelled(w)) && s.operator == Some(o) && s.waitingForOperand
  {
    RunAppend(Initial(), DigitKeys(w), [OperatorKey(o)]);
    EnterNumber(Initial(), w);
  }

  lemma {:induction false} NextOperand(s: State, w: string, o: Op)
    requires s.previousValue.Some? && s.operator.Some? && s.waitingForOperand
    requires w != [] && AllDigits(w)
    ensures var r := Run(s, DigitKeys(w) + [OperatorKey(o)]);
      var folded := Calculate(s.previousValue.value, Spelled(w), s.operator.value);
      r == State(FormatResult(folded), Some(folded), Some(o), true)
  {
    RunAppend(s, DigitKeys(w), [OperatorKey(o)]);
    EnterNumber(s, w);
  }

  lemma {:induction false} LastOperand(s: State, w: string)
    requires s.previousValue.Some? && s.operator.Some? && s.waitingForOperand
    requires w != [] && AllDigits(w)
    ensures var result := Calculate(s.previousValue.value, Spelled(w), s.operator.value);
      Run(s, DigitKeys(w) + [EqualsKey]) == State(FormatResult(result), None, None, true)
  {
    RunAppend(s, DigitKeys(w), [EqualsKey]);
    EnterNumber(s, w);
  }

  /** `a o1 b o2 c =` shows (a o1 b) o2 c: each operator is applied as soon
      as the next one is pressed, with no precedence between them. */
  lemma {:induction false} ChainLeftToRight(a: string, b: string, c: string, o1: Op, o2: Op)
    requires a != [] && AllDigits(a) && b != [] && AllDigits(b) && c != [] && AllDigits(c)
    ensures var keys := DigitKeys(a) + [OperatorKey(o1)] + DigitKeys(b) + [OperatorKey(o2)] + DigitKeys(c) + [EqualsKey];
      var result := Calculate(Calculate(Spelled(a), Spelled(b), o1), Spelled(c), o2);
      Run(Initial(), keys) == State(FormatResult(result), None, None, true)
  {
    var k1 := DigitKeys(a) + [OperatorKey(o1)];
    var k2 := DigitKeys(b) + [OperatorKey(o2)];
    var k3 := DigitKeys(c) + [EqualsKey];
    assert DigitKeys(a) + [OperatorKey(o1)] + DigitKeys(b) + [OperatorKey(o2)] + DigitKeys(c) + [EqualsKey]
      == k1 + (k2 + k3);
    RunAppend(Initial(), k1, k2 + k3);
    var s1 := Run(Initial(), k1);
    FirstOperand(a, o1);
    RunAppend(s1, k2, k3);
    NextOperand(s1, b, o2);
    LastOperand(Run(s1, k2), c);
  }

  // ---------------------------------------------------------------------
  // The two engines

  /** The engines agree on every key but percent, where `Calculator` keeps
      the waiting flag that `CalculatorLogic` clears. */
  lemma EnginesDifferOnlyInPercent(s: State, k: Key)
    ensures k != PercentKey ==> WidgetStep(s, k) == Step(s, k)
    ensures WidgetStep(s, PercentKey) == Step(s, PercentKey).(waitingForOperand := s.waitingForOperand)
  {
  }

  /** On key sequences without percent the two engines end in the same
      state. */
  lemma {:induction false} RunsAgreeWithoutPercent(s: State, keys: seq<Key>)
    requires forall i :: 0 <= i < |keys| ==> keys[i] != PercentKey
    ensures WidgetRun(s, keys) == Run(s, keys)
    decreases |keys|
  {
    if keys != [] {
      EnginesDifferOnlyInPercent(s, keys[0]);
      assert forall i :: 0 <= i < |keys[1..]| ==> keys[1..][i] == keys[i + 1];
      RunsAgreeWithoutPercent(Step(s, keys[0]), keys[1..]);
    }
  }

  /** After a failed operator, percent then a digit: `CalculatorLogic`
      appends the digit to "Error", `Calculator` starts a new number. */
  lemma PercentAfterErrorDiverges(s: State, d: string)
    requires s.waitingForOperand && ParseDisplay(s.display).None?
    ensures Run(s, [PercentKey, DigitKey(d)]).display == "Error" + d
    ensures WidgetRun(s, [PercentKey, DigitKey(d)]).display == d
  {
    var keys := [PercentKey, DigitKey(d)];
    assert keys[1..] == [DigitKey(d)] && keys[1..][1..] == [];
    assert PercentText(s.display) == "Error";
    var s1 := Step(s, PercentKey);
    assert s1.display == "Error" && !s1.waitingForOperand;
    assert Run(s, keys) == Run(Step(s1, DigitKey(d)), []);
    var l1 := WidgetStep(s, PercentKey);
    assert l1.waitingForOperand;
    assert WidgetRun(s, keys) == WidgetRun(WidgetStep(l1, DigitKey(d)), []);
  }

  /** A lone minus sign does not parse, so an operator on it shows "Error". */
  lemma {:induction false} MinusAloneIsError()
    ensures ParseDisplay("-").None?
  {
    assert Trim("-") == "-";
    assert RadixOfPrefix("-") == 0;
    assert "-"[1..] == [];
    assert ExponentIndex([]) == 0;
    assert MantissaValue([]) == None;
  }

  /** 5, ±, ⌫, + shows "Error": the lone minus sign left by backspace does
      not parse, and the operator is not recorded. */
  lemma {:induction false} ErrorFromLoneMinus()
    ensures Run(Initial(), [DigitKey("5"), ToggleKey, BackspaceKey, OperatorKey(Add)]) == State("Error", None, None, true)
  {
    var keys := [DigitKey("5"), ToggleKey, BackspaceKey, OperatorKey(Add)];
    assert keys[1..] == [ToggleKey, BackspaceKey, OperatorKey(Add)];
    assert keys[1..][1..] == [BackspaceKey, OperatorKey(Add)];
    assert keys[1..][1..][1..] == [OperatorKey(Add)];
    assert keys[1..][1..][1..][1..] == [];
    assert "-5"[..1] == "-";
    MinusAloneIsError();
  }

  /** 5, ±, ⌫, ± leaves the display empty: backspace keeps the lone minus
      sign and the sign toggle then removes it. */
  lemma EmptyDisplayReachable()
    ensures Run(Initial(), [DigitKey("5"), ToggleKey, BackspaceKey, ToggleKey]).display == ""
  {
    var keys := [DigitKey("5"), ToggleKey, BackspaceKey, ToggleKey];
    assert keys[1..] == [ToggleKey, BackspaceKey, ToggleKey];
    assert keys[1..][1..] == [BackspaceKey, ToggleKey];
    assert keys[1..][1..][1..] == [ToggleKey];
    assert "-5"[..1] == "-";
  }
}
