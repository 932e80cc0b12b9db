/** The seat ledger: `PATCH /api/events/:id/seats`, the internal operation the booking
    service calls to reserve seats (positive `seatsToBook`) or release them (negative).
    The handler reads the event, refuses a reservation larger than what is left, clamps the
    new availability into `[0, capacity]` and saves. The read and the save are separate
    steps; the model runs them as one sequential operation. */
module SeatLedger {
  import opened Common
  import opened EventModel

  function Min(a: int, b: int): int { if a <= b then a else b }
  function Max(a: int, b: int): int { if a >= b then a else b }

  /** The outcome of the seat arithmetic alone. */
  datatype Adjustment = Refused | Adjusted(available: int)

  /** The seat arithmetic of the handler: refuse a reservation that exceeds the available
      seats, otherwise `min(capacity, max(0, available - seatsToBook))`. */
  function Adjust(capacity: int, available: int, seatsToBook: int): (r: Adjustment)
    ensures r.Refused? <==> seatsToBook > 0 && available < seatsToBook
    ensures r.Adjusted? && capacity >= 0 ==> 0 <= r.available <= capacity
  {
    if seatsToBook > 0 && available < seatsToBook then Refused
    else Adjusted(Min(capacity, Max(0, available - seatsToBook)))
  }

  /** Reserving `k` seats out of a ledger in bounds lowers the availability by exactly
      `k`. */
  lemma ReserveLowersByExactly(capacity: int, available: int, k: int)
    requires 0 < k <= available <= capacity
    ensures Adjust(capacity, available, k) == Adjusted(available - k)
  {
  }

  /** Releasing `k` seats raises the availability by `k`, capped at the capacity. */
  lemma ReleaseRaisesCapped(capacity: int, available: int, k: int)
    requires 0 < k && 0 <= available
    ensures Adjust(capacity, available, -k) == Adjusted(Min(capacity, available + k))
  {
  }

  /** Releasing what was just reserved restores the ledger. */
  lemma ReleaseUndoesReserve(capacity: int, available: int, k: int)
    requires 0 < k <= available <= capacity
    ensures Adjust(capacity, available, k).Adjusted?
    ensures Adjust(capacity, Adjust(capacity, available, k).available, -k) == Adjusted(available)
  {
  }

  /** A release on a full ledger changes nothing: the clamp absorbs it. */
  lemma ReleaseAtCapacityIsNoOp(capacity: int, k: int)
    requires 0 <= k && 0 <= capacity
    ensures Adjust(capacity, capacity, -k) == Adjusted(capacity)
  {
  }

  /** Seats handed out when a sequence of requests runs one after the other against one
      event: the final availability and the number of seats granted to reservations. */
  function Replay(capacity: int, available: int, requests: seq<int>): (int, nat)
    decreases |requests|
  {
    if requests == [] then (available, 0)
    else
      match Adjust(capacity, available, requests[0])
      case Refused => Replay(capacity, available, requests[1..])
      case Adjusted(v) =>
        var (final, granted) := Replay(capacity, v, requests[1..]);
        (final, granted + (if requests[0] > 0 then requests[0] else 0))
  }

  /** However many reservations run one after another, the seats granted never exceed
      what was available (so never the capacity), and granted plus remaining seats add up
      to the starting availability. */
  lemma {:induction false} ReservationsNeverOversell(capacity: int, available: int, requests: seq<int>)
    requires 0 <= available <= capacity
    requires forall i :: 0 <= i < |requests| ==> requests[i] > 0
    ensures var (final, granted) := Replay(capacity, available, requests);
      0 <= final && granted + final == available && granted <= capacity
  {
    if requests != [] {
      match Adjust(capacity, available, requests[0])
      case Refused =>
        ReservationsNeverOversell(capacity, available, requests[1..]);
      case Adjusted(v) =>
        ReserveLowersByExactly(capacity, available, requests[0]);
        ReservationsNeverOversell(capacity, v, requests[1..]);
    }
  }

  datatype SeatResponse =
    | NotFound                      // 404 'Event not found'
    | NotEnoughSeats                // 400 'Not enough seats available'
    | ServerError                   // 500 'Failed to update seats' (the save was refused)
    | Updated(availableSeats: int)  // 200 with the new availability

  /** The response of the handler for a stored event, at time `now`. `seatsToBook` is the
      body's field after JavaScript's numeric coercion: `None` when it coerces to `NaN`
      (absent, or not a number). `NaN > 0` is false, so such a request passes the 400
      check; the availability then becomes `NaN`, which the save refuses to cast, and the
      handler answers 500. */
  function SeatOutcome(e: EventRecord, seatsToBook: Option<int>, now: int): (resp: SeatResponse)
    requires ShapeValid(e)
    ensures resp == NotEnoughSeats <==>
      seatsToBook.Some? && seatsToBook.value > 0 && e.availableSeats < seatsToBook.value
    ensures resp == ServerError <==> !resp.NotEnoughSeats? && (seatsToBook.None? || e.date.value <= now)
    ensures resp.Updated? ==> 0 <= resp.availableSeats <= e.capacity.value
    ensures resp != NotFound
  {
    match seatsToBook
    case None => ServerError
    case Some(k) =>
      match Adjust(e.capacity.value, e.availableSeats, k)
      case Refused => NotEnoughSeats
      case Adjusted(v) => if SchemaValid(e, now) then Updated(v) else ServerError
  }

  /** The handler. Only `availableSeats` is computed here; the save hook also refreshes
      `updatedAt`. Every other outcome leaves the collection as it was. */
  method PatchSeats(db: EventCollection, id: EventId, seatsToBook: Option<int>, now: int)
    returns (resp: SeatResponse)
    requires db.Valid()
    modifies db
    ensures db.Valid()
    ensures id !in old(db.docs) ==> resp == NotFound
    ensures id in old(db.docs) ==> resp == SeatOutcome(old(db.docs[id]), seatsToBook, now)
    ensures resp.Updated? ==>
      db.docs == old(db.docs)[id := old(db.docs[id]).(availableSeats := resp.availableSeats, updatedAt := now)]
    ensures !resp.Updated? ==> db.docs == old(db.docs)
    ensures old(db.AllSeatsInBounds()) ==> db.AllSeatsInBounds()
  {
    var event := db.FindById(id);
    if event == null {
      return NotFound;
    }
    if seatsToBook.Some? && seatsToBook.value > 0 && event.availableSeats < seatsToBook.value {
      return NotEnoughSeats;
    }
    if seatsToBook.None? {
      // The availability would be `NaN`: the save's cast fails.
      return ServerError;
    }
    var updatedAvailability := event.availableSeats - seatsToBook.value;
    event.availableSeats := Min(event.capacity.value, Max(0, updatedAvailability));
    var ok := event.Save(db, now);
    if !ok {
      return ServerError;
    }
    resp := Updated(event.availableSeats);
  }
}
