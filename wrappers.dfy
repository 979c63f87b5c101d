/** Option and Result: the null references and the exceptions of the source,
    made explicit. */
module Wrappers {

  datatype Option<+T> = None | Some(value: T)

  /** The outcome of a step that the source may abort by throwing. */
  datatype Result<+T> = Ok(value: T) | Thrown
}
