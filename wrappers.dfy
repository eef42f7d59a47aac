/** Kotlin's nullable values and the pass-or-throw shape of a check, as datatypes. */
module Wrappers {

  /** `T?` in Kotlin: a value or null. */
  datatype Option<+T> = None | Some(value: T)

  /** A check that either passes or fails with an error (a thrown exception). */
  datatype Outcome<+E> = Pass | Fail(error: E)
}
