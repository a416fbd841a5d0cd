/** Option and Result values shared by every layer of the model. */
module Wrappers {

  /** A value that may be absent; JavaScript's `undefined` and `null` both read as None. */
  datatype Option<+T> = None | Some(value: T) {
    function GetOr(default: T): T {
      match this
      case Some(v) => v
      case None => default
    }
  }

  /** The outcome of an operation that the source may abandon by throwing or rejecting. */
  datatype Result<+R> = Ok(value: R) | Err(error: string)
}
