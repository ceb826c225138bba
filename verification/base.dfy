/** Small shared vocabulary: optional values (`undefined` in the studio's code) and
    results of calls that may throw. */
module Base {

  /** A value that may be absent, as an optional property or `undefined` is. */
  datatype Option<+T> = None | Some(value: T) {

    function GetOr(default: T): T {
      match this
      case Some(v) => v
      case None => default
    }
  }

  /** The outcome of a call that either returns a value or throws `error`. */
  datatype Result<+T, +E> = Ok(value: T) | Err(error: E) {

    predicate IsFailure() {
      Err?
    }

    function PropagateFailure<U>(): Result<U, E>
      requires Err?
    {
      Err(error)
    }

    function Extract(): T
      requires Ok?
    {
      value
    }
  }

  /** JavaScript truthiness of an optional boolean flag: only an explicit `true` counts. */
  predicate IsSet(flag: Option<bool>) {
    flag == Some(true)
  }
}
