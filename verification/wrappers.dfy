/** Failure-aware wrappers shared by the ia32 attribute-store model. */
module Wrappers {

  /** A C pointer that may be NULL: `None` is NULL, `Some(v)` points at `v`. */
  datatype Option<+T> = None | Some(value: T)

  /** The outcome of an operation that either yields a value or stops the
      program with a fault (a failed debug assertion, a NULL access, an
      allocation failure). */
  datatype Result<+T, +E> = Success(value: T) | Failure(error: E)
}
