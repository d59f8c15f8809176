/** Option stands for Python's `Optional`: `None` or a present value. */
module Wrappers {

  datatype Option<+T> = None | Some(value: T)
}

/**
 * What one HTTP request to an exchange yields, as seen by the collector after
 * `requests.get`, `raise_for_status()`, `.json()` and the field look-ups.
 */
module Http {

  /** Why a reply could not be used. */
  datatype Failure =
    | Transport              // requests.get raised, e.g. on a connection error (no timeout is set)
    | ErrorStatus(status: int)  // raise_for_status raised on a 4xx/5xx status
    | Unparsable             // the body is not JSON, a key is missing or float() failed

  /** A reply: the fields the code reads from the body, or the reason it raised. */
  datatype Reply<+T> = Ok(body: T) | Failed(why: Failure)
}
