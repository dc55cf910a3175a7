/**
 The error channel of the generator helpers: a value or a status carrying a
 code and a human-readable message, as `google::cloud::StatusOr` does.
 */
module Status {

  /** The status codes the generator helpers can return. */
  datatype StatusCode = InvalidArgument

  /** A successful value, or an error status with its code and message. */
  datatype StatusOr<T> = Ok(value: T) | Err(code: StatusCode, message: string)
}
