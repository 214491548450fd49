/** Optional request fields and HTTP-style replies shared by the two route handlers. */
module Wrappers {

  /** A request field that may be absent from the JSON body or the query string. */
  datatype Option<+T> = None | Some(value: T)

  /** What a handler answers: a JSON payload with status 200, or an error status. */
  datatype Reply<+T> = Ok(body: T) | Error(status: nat)

  /** The status both handlers answer for a missing or invalid field. */
  const BadRequest: nat := 400
}
