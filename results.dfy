/** Optional values and the success-or-error results that stand for Python's
    `None` and for raised exceptions throughout the model. */
module Results {

  datatype Option<+T> = None | Some(value: T) {
    function GetOr(default: T): T {
      match this
      case Some(v) => v
      case None => default
    }
  }

  datatype Result<+T, +E> = Ok(value: T) | Err(error: E)

  /** The Python exceptions the modelled code lets escape. */
  datatype PyError =
    | JSONDecodeError
    | KeyError(key: string)
    | IndexError
    | TypeError
    | AttributeError
    | ValueError(message: string)
    | IntegrityError

  /** How a call that returns nothing ended: normally, or by raising `error`. */
  datatype Outcome<+E> = Pass | Fail(error: E)
}
