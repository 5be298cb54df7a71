/** Small shared datatypes: an optional value and the outcome of an operation that may throw. */
module Common {

  datatype Option<+T> = None | Some(value: T)

  /** `Err` carries the message of the error the source throws. */
  datatype Result<+T> = Ok(value: T) | Err(message: string)
}
