/** Option and Result datatypes shared by the modules. */
module Wrappers {

  /** An optional value: `None` stands for JavaScript's `undefined`/absent. */
  datatype Option<+T> = None | Some(value: T)

  /** The outcome of a step that may throw: `Err` carries the thrown error. */
  datatype Result<+T, +E> = Ok(value: T) | Err(error: E)
}
