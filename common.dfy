/** Small shared vocabulary: an optional value, the caller identity handed out by the
    authentication service, and the answer of the booking service's per-user lookup. */
module Common {

  /** A JavaScript value that may be `undefined`/`null`, or an absent request field. */
  datatype Option<T> = None | Some(value: T)

  /** The user object the authentication service returns from its verify endpoint. */
  datatype User = User(id: string, name: string, email: string, role: string)

  /** The answer of `GET /api/bookings/event/:id/me`: either the call failed (network
      error or non-2xx status), or it returned `hasBooking` and, when there is one, the
      booking's status. */
  datatype BookingLookup =
    | LookupFailed
    | LookupAnswer(hasBooking: bool, bookingStatus: Option<string>)
}
