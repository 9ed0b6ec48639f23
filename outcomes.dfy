/** Failure-carrying values shared by the modules of this model: an absent
    value (Python's `None`) and the outcome of an operation that can raise. */
module Outcomes {

  datatype Option<+T> = None | Some(value: T)

  /** `Err` stands for the exception the Python code raises. */
  datatype Result<+T, +E> = Ok(value: T) | Err(error: E)
}
