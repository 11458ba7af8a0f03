/**
 * JavaScript numbers as the calculator uses them: a finite value, NaN, or an
 * infinity. Finite values are exact reals: the model keeps the special
 * values and their propagation rules, but neither rounding to binary64 nor
 * overflow, and it does not tell +0 from -0.
 */
module Numbers {
  import opened Operators

  datatype Num = Finite(value: real) | NaN | Inf(negative: bool)

  /** Unary minus. */
  function Negate(a: Num): Num {
    match a
    case Finite(x) => Finite(-x)
    case NaN => NaN
    case Inf(neg) => Inf(!neg)
  }

  /** `a + b`, with the special-value rules of IEEE 754 addition. */
  function Plus(a: Num, b: Num): Num {
    match (a, b)
    case (NaN, _) => NaN
    case (_, NaN) => NaN
    case (Inf(p), Inf(q)) => if p == q then Inf(p) else NaN
    case (Inf(p), Finite(_)) => Inf(p)
    case (Finite(_), Inf(q)) => Inf(q)
    case (Finite(x), Finite(y)) => Finite(x + y)
  }

  /** `a - b`, which JavaScript defines as `a + (-b)`. */
  function Minus(a: Num, b: Num): Num {
    Plus(a, Negate(b))
  }

  /** `a * b`, with the special-value rules of IEEE 754 multiplication. */
  function Times(a: Num, b: Num): Num {
    match (a, b)
    case (NaN, _) => NaN
    case (_, NaN) => NaN
    case (Inf(p), Inf(q)) => Inf(p != q)
    case (Inf(p), Finite(y)) => if y == 0.0 then NaN else Inf(p != (y < 0.0))
    case (Finite(x), Inf(q)) => if x == 0.0 then NaN else Inf(q != (x < 0.0))
    case (Finite(x), Finite(y)) => Finite(x * y)
  }

  /** `a / b`, with the special-value rules of IEEE 754 division. */
  function Quotient(a: Num, b: Num): Num {
    match (a, b)
    case (NaN, _) => NaN
    case (_, NaN) => NaN
    case (Inf(_), Inf(_)) => NaN
    case (Inf(p), Finite(y)) => Inf(p != (y < 0.0))
    case (Finite(_), Inf(_)) => Finite(0.0)
    case (Finite(x), Finite(y)) =>
      if y != 0.0 then Finite(x / y)
      else if x == 0.0 then NaN
      else Inf(x < 0.0)
  }

  /** `calculate(a, b, op)`: the four operators, where a zero divisor gives NaN
      before any division is attempted. */
  function Calculate(a: Num, b: Num, op: Op): Num {
    match op
    case Add => Plus(a, b)
    case Sub => Minus(a, b)
    case Mul => Times(a, b)
    case Div => if b == Finite(0.0) then NaN else Quotient(a, b)
  }

  /** On finite operands the result is finite exactly when it is not a
      division by zero, and it is then the exact arithmetic result. */
  lemma CalculateFinite(x: real, y: real, op: Op)
    ensures Calculate(Finite(x), Finite(y), op).Finite? <==> !(op == Div && y == 0.0)
    ensures op == Add ==> Calculate(Finite(x), Finite(y), op) == Finite(x + y)
    ensures op == Sub ==> Calculate(Finite(x), Finite(y), op) == Finite(x - y)
    ensures op == Mul ==> Calculate(Finite(x), Finite(y), op) == Finite(x * y)
    ensures op == Div && y != 0.0 ==> Calculate(Finite(x), Finite(y), op) == Finite(x / y)
  {
  }

  /** Dividing by zero never yields a number, whatever the left operand. */
  lemma DivisionByZeroIsNaN(a: Num)
    ensures Calculate(a, Finite(0.0), Div) == NaN
  {
  }

  /** NaN on either side poisons every operator. */
  lemma NaNAbsorbs(a: Num, op: Op)
    ensures Calculate(NaN, a, op) == NaN
    ensures Calculate(a, NaN, op) == NaN
  {
  }

  /** Subtraction undoes addition, and multiplication undoes division by a
      non-zero number. */
  lemma CalculateInverses(x: real, y: real)
    ensures Calculate(Calculate(Finite(x), Finite(y), Add), Finite(y), Sub) == Finite(x)
    ensures y != 0.0 ==> Calculate(Calculate(Finite(x), Finite(y), Div), Finite(y), Mul) == Finite(x)
  {
    if y != 0.0 {
      assert x / y * y == x;
    }
  }

  /** `+` and `×` are commutative on all numbers, special values included. */
  lemma CalculateCommutes(a: Num, b: Num)
    ensures Calculate(a, b, Add) == Calculate(b, a, Add)
    ensures Calculate(a, b, Mul) == Calculate(b, a, Mul)
  {
  }
}
