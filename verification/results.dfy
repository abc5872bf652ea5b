/** Optional values and the exceptions the modelled code raises, as values. */
module Results {

  /** A dictionary lookup that may find nothing, or an argument left at its default. */
  datatype Option<+T> = None | Some(value: T) {

    /** The stored value, or `default` when there is none (Python's `d.get(key, default)`). */
    function GetOr(default: T): T {
      match this
      case Some(v) => v
      case None => default
    }
  }

  /** The Python exception classes the modelled code raises. */
  datatype Error =
    | ValueError(message: string)
    | KeyError(key: string)
    | TypeError(message: string)
    | IndexError(message: string)
    | AttributeError(message: string)

  /** Either the value a call returns or the exception it raises. */
  datatype Result<+T> = Ok(value: T) | Err(error: Error)
}
