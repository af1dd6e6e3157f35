/** Failure values shared by the whole pipeline: the C++ exceptions the
    components throw become `Err` values of these types. */
module Results {

  /** The standard exception classes the components throw. */
  datatype Error =
    | InvalidArgument   // std::invalid_argument
    | OutOfRange        // std::out_of_range
    | RuntimeError      // std::runtime_error
    | LengthError       // std::length_error (a vector sized past max_size())

  datatype Result<T> = Ok(value: T) | Err(error: Error)

  /** The outcome of an operation that returns nothing but may throw. */
  datatype Outcome = Pass | Fail(error: Error)

  datatype Option<T> = None | Some(value: T)
}
