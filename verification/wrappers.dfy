/** The optional-value and value-or-error datatypes used across the model. */
module Wrappers {

  /** An optional value; stands for a nullable column or an absent XML attribute. */
  datatype Option<+T> = None | Some(value: T)

  /** Either a value or an error; stands for a call that may raise. */
  datatype Result<+T, +E> = Ok(value: T) | Err(error: E)
}
