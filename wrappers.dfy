/** Optional values and the outcome of an operation that may raise. */
module Wrappers {

  datatype Option<+T> = None | Some(value: T)

  /** Why a register operation refused to run; the register is left as it was. */
  datatype Failure =
    | OutOfRange      // a row position or row label that the table does not have
    | UnknownField    // a column name outside the schema

  /** The outcome of an operation that either completes or raises before changing anything. */
  datatype Outcome = Done | Raised(failure: Failure)
}
