/** The event detail page: whether the user holds an active booking, the ticket selector
    and its input, the booking request with its waitlist flag, and who is shown the review
    form. The HTTP calls are parameters; the toasts, the navigation after a timer and the
    feedback list of the page are left out. */
module EventDetailPage {
  import opened Common
  import opened JsString
  import FeedbackRoutes

  /** `checkUserBooking`: the booking lookup's `hasBooking`, unless the booking is
      cancelled; a failed lookup counts as no booking. */
  function HasActiveBooking(lookup: BookingLookup): (active: bool)
    ensures lookup.LookupFailed? ==> !active
    ensures lookup.LookupAnswer? ==>
      (active <==> lookup.hasBooking && lookup.bookingStatus != Some("cancelled"))
  {
    match lookup
    case LookupFailed => false
    case LookupAnswer(hasBooking, status) => hasBooking && status != Some("cancelled")
  }

  /** The page offers the review form on the same lookup answers for which the event
      service lets a review through its eligibility check. */
  lemma PageAgreesWithService(lookup: BookingLookup)
    ensures HasActiveBooking(lookup) <==> FeedbackRoutes.Eligibility(lookup).None?
  {
  }

  /** The review form is shown to a logged-in user with an active booking. */
  function ReviewFormShown(user: Option<User>, hasActiveBooking: bool): (shown: bool)
    ensures shown <==> user.Some? && hasActiveBooking
  {
    user.Some? && hasActiveBooking
  }

  /** The booking section: the normal form while seats remain, the waitlist form
      otherwise, each with the ticket selector's maximum. */
  datatype Section = BookNow(max: int) | JoinWaitlist(max: int)

  function SectionFor(availableSeats: int): (s: Section)
    ensures s.BookNow? <==> availableSeats > 0
    ensures 1 <= s.max <= 10
    ensures s.BookNow? ==> s.max == if availableSeats < 10 then availableSeats else 10
    ensures s.JoinWaitlist? ==> s.max == 10
  {
    if availableSeats > 0 then BookNow(if availableSeats < 10 then availableSeats else 10)
    else JoinWaitlist(10)
  }

  /** The ticket input: `parseInt(value) || 1`. `NaN` and 0 fall back to 1; any other
      number, negative ones included, is kept. */
  function TicketInput(value: string): (tickets: int)
    ensures tickets != 0
    ensures ParseInt(value, Inferred).None? ==> tickets == 1
    ensures ParseInt(value, Inferred) == Some(0) ==> tickets == 1
    ensures ParseInt(value, Inferred).Some? && ParseInt(value, Inferred).value != 0 ==>
      tickets == ParseInt(value, Inferred).value
  {
    match ParseInt(value, Inferred)
    case None => 1
    case Some(n) => if n == 0 then 1 else n
  }

  /** Typed digits give their number (1 when they spell 0). */
  lemma TicketDigits(value: string)
    requires value != [] && AllDigits(value)
    ensures TicketInput(value) == if DigitsValue(value) == 0 then 1 else DigitsValue(value)
  {
    ParseIntOfDigits(value, Inferred);
  }

  /** The body of the booking request. */
  datatype BookingRequest = BookingRequest(
    eventId: string, numberOfTickets: int, paymentMethod: string, joinWaitlist: bool)

  function RequestFor(eventId: string, availableSeats: int, tickets: int): (r: BookingRequest)
    ensures r.eventId == eventId && r.numberOfTickets == tickets
    ensures r.paymentMethod == "credit_card"
    ensures r.joinWaitlist <==> availableSeats < tickets
  {
    BookingRequest(eventId, tickets, "credit_card", availableSeats < tickets)
  }

  /** With seats left, a count the normal form's selector allows never asks for the
      waitlist; on the waitlist form every count from 1 does. */
  lemma SelectorAndWaitlistAgree(eventId: string, availableSeats: int, tickets: int)
    requires 1 <= tickets <= SectionFor(availableSeats).max
    ensures SectionFor(availableSeats).BookNow? ==> !RequestFor(eventId, availableSeats, tickets).joinWaitlist
    ensures SectionFor(availableSeats).JoinWaitlist? ==> RequestFor(eventId, availableSeats, tickets).joinWaitlist
  {
  }

  /** The booking service's answer: the created booking's status (absent when the body
      carries no booking), or an error with the body's `error` text if any. */
  datatype BookingAnswer = Answered(bookingStatus: Option<string>) | BookingFailed(error: Option<string>)

  /** What `handleBooking` ends in. */
  datatype BookingEffect =
    | LoginRedirect
    | TicketRangeError
    | Waitlisted
    | Booked
    | Failed(message: string)

  /** The state of the booking panel. */
  class BookingPanel {
    var tickets: int
    var busy: bool
    var message: string

    constructor ()
      ensures tickets == 1 && !busy && message == ""
    {
      tickets := 1;
      busy := false;
      message := "";
    }

    /** The ticket input's change handler. */
    method SetTickets(value: string)
      modifies this
      ensures tickets == TicketInput(value) && busy == old(busy) && message == old(message)
    {
      tickets := TicketInput(value);
    }

    /** `handleBooking`: without a user, a redirect to the login page; with a ticket count
        outside 1..10, an error; in both cases no request is sent and the panel does not
        change. Otherwise one request is sent, the waitlisted answer and any other answer
        take different branches, and the panel is not busy afterwards. */
    method HandleBooking(user: Option<User>, eventId: string, availableSeats: int,
                         post: BookingRequest -> BookingAnswer)
      returns (sent: Option<BookingRequest>, effect: BookingEffect)
      modifies this
      ensures user.None? ==> sent.None? && effect == LoginRedirect
      ensures user.Some? && !(1 <= old(tickets) <= 10) ==> sent.None? && effect == TicketRangeError
      ensures sent.None? ==> tickets == old(tickets) && busy == old(busy) && message == old(message)
      ensures sent.Some? <==> user.Some? && 1 <= old(tickets) <= 10
      ensures sent.Some? ==> sent.value == RequestFor(eventId, availableSeats, old(tickets))
      ensures sent.Some? ==> !busy && message == "" && tickets == old(tickets)
      ensures sent.Some? ==> effect == match post(sent.value)
        case Answered(status) => if status == Some("waitlisted") then Waitlisted else Booked
        case BookingFailed(error) => Failed(if error.Some? && error.value != "" then error.value else "Booking failed")
    {
      if user.None? {
        return None, LoginRedirect;
      }
      if tickets < 1 || tickets > 10 {
        return None, TicketRangeError;
      }
      busy := true;
      message := "";
      var request := RequestFor(eventId, availableSeats, tickets);
      sent := Some(request);
      var answer := post(request);
      if answer.BookingFailed? {
        var error := answer.error;
        effect := Failed(if error.Some? && error.value != "" then error.value else "Booking failed");
      } else if answer.bookingStatus == Some("waitlisted") {
        effect := Waitlisted;
      } else {
        effect := Booked;
      }
      busy := false;
    }
  }
}
