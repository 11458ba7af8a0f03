/** The `T | null` values of the calculator's state and helpers. */
module Wrappers {

  datatype Option<+T> = None | Some(value: T)
}
