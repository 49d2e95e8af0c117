/** What a request handler answers: the status code and the kind of failure, without the
    message strings and the `success` envelope. */
module Http {

  datatype Reason =
    | MissingFields
    | InvalidField(field: string)
    | InvalidDate
    | HotelNotFound
    | UserNotFound
    | SlotUnavailable
    | NotAdmin
    | DuplicateHotelId
    | DuplicateHotelName
    | EmailExists
    | InvalidEmail
    | InvalidPassword
    | NoToken
    | ServerError

  /** What a middleware does: call `next`, or send an error response. */
  datatype Verdict = Next | Reject(code: nat, reason: Reason)

  /** What a controller sends: a success status with its data, or an error status. */
  datatype Reply<T> = Ok(code: nat, data: T) | Err(code: nat, reason: Reason)
}
