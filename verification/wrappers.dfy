/** Failure-carrying values shared by every module of the model.
    `None` plays the part of a Java `null` reference. */
module Wrappers {

  /** An optional value; `None` is the absent (`null`) value. */
  datatype Option<+T> = None | Some(value: T) {

    /** The value, or `default` when absent. */
    function GetOr(default: T): T {
      match this
      case Some(v) => v
      case None => default
    }
  }

  /** The outcome of a stage that either yields a value or stops with an error. */
  datatype Result<+T, +E> = Ok(value: T) | Err(error: E)

  /** The outcome of a check that yields nothing on success. */
  datatype Check<+E> = Pass | Fail(error: E)
}
