/** Failure-carrying results and the error taxonomy shared by the case
    expression builder and the RisingWave compiler. */
module Common {

  datatype Option<+T> = None | Some(value: T)

  datatype Result<+T, +E> = Ok(value: T) | Err(error: E)

  /** The kinds of failure the compiler core raises. Messages are not modelled. */
  datatype Error =
    | SignatureValidationError   // an argument fails its declared signature (arity, boolean-only)
    | TypeMismatch               // dtypes that cannot be promoted or compared (a TypeError)
    | UnsupportedOperation       // the dialect cannot express an operation, unit or mode
    | InvalidShape               // a shape that is neither scalar nor columnar (a ValueError)
}
