/** The two wrapper types the model uses throughout. */
module Wrappers {

  /** A nullable column or a lookup that may find nothing. */
  datatype Option<+T> = None | Some(value: T)

  /** What a request handler ends in: a value, or an exception. An HTTP
      exception carries its status code; code 500 is an exception that reaches
      the framework, such as a constraint violation at flush. */
  datatype Result<+T> = Ok(value: T) | Raised(code: nat)
}
