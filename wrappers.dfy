/** Failure-carrying values shared by the modules of the model. */
module Wrappers {

  datatype Option<+T> = None | Some(value: T)

  /** The `syn::Result` of the source: a value, or the parse error that stopped it. */
  datatype Result<+T, +E> = Ok(value: T) | Err(error: E)
}
