/** An Option type shared by the model. */
module Wrappers {
  datatype Option<+T> = None | Some(value: T)
}

/**
 * The outcome of one call through the HTTP client. The client itself is not
 * part of this model: every request either settles with a response whose
 * `data` is given, or throws.
 */
module Http {
  datatype Response<+T> =
    | Failed          // the awaited request threw (network error, non-2xx status, ...)
    | Received(data: T)
}
