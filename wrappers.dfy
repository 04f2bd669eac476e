/**
 * Failure-compatible values shared by the model: `Option` stands for a JavaScript
 * value that may be `undefined`, `Result` for an evaluation that may throw a `TypeError`.
 */
module Wrappers {

  datatype Option<+T> = None | Some(value: T)

  /** The completion of a JavaScript evaluation: a normal value, or a thrown `TypeError`. */
  datatype Result<+T> = Ok(value: T) | TypeError

}
