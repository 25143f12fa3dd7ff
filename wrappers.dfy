/** Option and Result datatypes shared by the model. */
module Wrappers {

  /** A value that may be missing; for a spreadsheet cell, None is pandas' NaN. */
  datatype Option<+T> = None | Some(value: T)

  /** The outcome of a step that can raise. */
  datatype Result<+R, +E> = Ok(value: R) | Err(error: E)
}
