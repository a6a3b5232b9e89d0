/** Optional values and error results shared by the whole model. */
module Base {

  /** A value that may be absent: Python's `None` where a list or a number was expected. */
  datatype Option<+T> = None | Some(value: T)

  /** The exceptions the modelled code raises. */
  datatype Error =
    | KeyError(key: string)          // a missing DataFrame column was read
    | AttributeError(what: string)   // a method was called on a value that lacks it
    | ValueError(message: string)    // a conversion or a configuration check failed
    | TypeError(message: string)     // a value of the wrong type was converted

  /** A computation that either produces a value or raises one of the errors above. */
  datatype Result<+T> = Success(value: T) | Failure(error: Error)
}
