/** Optional values, used for absent request fields, null aggregate sums and
    tokens that fail verification. */
module Wrappers {

  datatype Option<+T> = None | Some(value: T) {

    /** The value, or `default` when absent (JavaScript's `x ?? default`). */
    function GetOr(default: T): T {
      match this
      case Some(v) => v
      case None => default
    }
  }
}

/** Shapes shared by the two routers: user identifiers and HTTP replies. */
module Api {

  /** A user's identifier. The datastore issues opaque strings; here each is
      a natural number handed out by a counter. */
  type UserId = nat

  const OK: int := 200
  const CREATED: int := 201
  const BAD_REQUEST: int := 400
  const UNAUTHORIZED: int := 401
  const FORBIDDEN: int := 403
  const NOT_FOUND: int := 404
  const CONFLICT: int := 409
  const SERVER_ERROR: int := 500

  /** What a route handler sends: a status with a JSON body, or an error
      status (the error message strings are not modelled). */
  datatype Reply<T> = Ok(status: int, body: T) | Err(status: int)
}
