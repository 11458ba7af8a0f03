/**
 * The closed set of binary operators the calculator accepts: `+`, `-`,
 * `×` (U+00D7) and `÷` (U+00F7), and the runtime guard that recognises
 * their one-character spellings.
 */
module Operators {
  import opened Wrappers

  datatype Op = Add | Sub | Mul | Div

  /** The spelling of each operator, in the order of the `OPERATORS` list. */
  const OperatorSymbols: seq<string> := ["+", "-", "\U{00D7}", "\U{00F7}"]

  function Symbol(op: Op): (s: string)
    ensures s in OperatorSymbols
  {
    match op
    case Add => "+"
    case Sub => "-"
    case Mul => "\U{00D7}"
    case Div => "\U{00F7}"
  }

  /** `isOperator`: true exactly for the four listed spellings. */
  predicate IsOperator(s: string) {
    s in OperatorSymbols
  }

  /** Reads an operator spelling back into the enumeration. */
  function ParseOperator(s: string): (r: Option<Op>)
    ensures r.Some? ==> Symbol(r.value) == s
  {
    if s == "+" then Some(Add)
    else if s == "-" then Some(Sub)
    else if s == "\U{00D7}" then Some(Mul)
    else if s == "\U{00F7}" then Some(Div)
    else None
  }

  /** The guard accepts a string exactly when it spells an operator, and
      spelling then reading gives the operator back. */
  lemma OperatorSpelling(s: string, op: Op)
    ensures IsOperator(s) <==> ParseOperator(s).Some?
    ensures ParseOperator(Symbol(op)) == Some(op)
  {
  }
}
