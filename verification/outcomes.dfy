/** Outcomes of the request handlers: the error kinds the controllers and the
    middleware answer with, and the pair (outcome, new state) that a
    state-changing handler yields. */
module Outcomes {

  datatype Option<+T> = None | Some(value: T)

  /** The error kinds of the service, each with the HTTP status it is sent
      with. */
  datatype Error =
    | MissingFields       // 400
    | InvalidQuantity     // 400
    | InsufficientStock   // 400
    | NothingToUpdate     // 400
    | NotFound            // 404
    | Conflict            // 409
    | InvalidCredentials  // 401
    | Unauthorized        // 401
    | InvalidToken        // 401
    | Forbidden           // 403

  /** Either the record a handler answers with, or the error it answers with. */
  datatype Result<+T> = Ok(value: T) | Err(error: Error)

  /** What one handler call yields: its outcome and the state after the call. */
  datatype Step<+T, +S> = Step(outcome: Result<T>, state: S)

  /** JavaScript truthiness of an optional string field of a request:
      present and not the empty string. */
  predicate Truthy(s: Option<string>)
  {
    s.Some? && s.value != ""
  }
}

/** The identity types shared by the token layer and the middleware. */
module Identity {

  /** The two roles a user can hold. */
  datatype Role = Admin | Customer

  /** The payload a signed token carries. */
  datatype Claims = Claims(id: int, role: Role)

  /** The user attached to a request once its token has been verified. */
  datatype Principal = Principal(id: int, role: Role)
}
