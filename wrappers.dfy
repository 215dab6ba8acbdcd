/** Outcome types shared by the model: an optional value, and the result of a
    Python call that either returns a value or raises one of the exceptions the
    modelled code can raise. */
module Wrappers {

  datatype Option<+T> = None | Some(value: T)

  /** The exceptions the modelled code lets escape. */
  datatype Exception =
    | KeyError(key: string)   // `d[k]` on a dict without `k`
    | TypeError               // subscripting or iterating a value that does not support it
    | InvalidUrl              // a URL that is not a string reaches the HTTP layer
    | UnsupportedName         // a catalog entry whose "name" is not a string

  datatype Result<+T> = Ok(value: T) | Raised(error: Exception)
}
