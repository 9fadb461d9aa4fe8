/** The exceptions the modelled Python code raises, and the datatypes that carry them. */
module Outcomes {

  /** Python exception classes raised by the dataset, annotation and padding code. */
  datatype Error = ValueError | IndexError | TypeError

  /** A Python value that may be `None`. */
  datatype Option<+T> = None | Some(value: T)

  /** Either a returned value or a raised exception. */
  datatype Result<+T> = Ok(value: T) | Err(error: Error)
}
