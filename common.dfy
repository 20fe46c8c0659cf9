/** Option and Result: the two failure-carrying shapes every other module uses
    in place of JavaScript's `undefined`/`null` and thrown errors. */
module Common {

  datatype Option<+T> = None | Some(value: T) {
    function GetOr(default: T): T {
      match this
      case Some(v) => v
      case None => default
    }
  }

  datatype Result<+T, +E> = Ok(value: T) | Err(error: E)
}
