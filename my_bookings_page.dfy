/** The "My Bookings" page: the badge colour of each booking status, the payment label,
    which actions a booking card offers, the data put in a ticket's QR code, and the
    cancel confirmation. Times on this page are shown with `TimeFormat.FormatTime` under
    `parseInt` without a radix (`Radix.Inferred`). */
module MyBookingsPage {
  import opened Common
  import BookingModel

  const ConfirmedColor := "#28a745"
  const WaitlistedColor := "#ffc107"
  const CancelledColor := "#dc3545"
  const NeutralColor := "#6c757d"

  /** `getStatusColor`. */
  function StatusColor(status: string): (color: string)
    ensures status == "confirmed" ==> color == ConfirmedColor
    ensures status == "waitlisted" ==> color == WaitlistedColor
    ensures status == "cancelled" ==> color == CancelledColor
    ensures status !in {"confirmed", "waitlisted", "cancelled"} ==> color == NeutralColor
  {
    match status
    case "confirmed" => ConfirmedColor
    case "waitlisted" => WaitlistedColor
    case "cancelled" => CancelledColor
    case "pending" => NeutralColor
    case _ => NeutralColor
  }

  /** The colour tells the three settled states apart from each other and from everything
      else: two statuses share a colour exactly when they are equal or both outside
      {confirmed, waitlisted, cancelled}. */
  lemma ColorIdentifiesStatus(a: string, b: string)
    ensures StatusColor(a) == StatusColor(b) <==>
      a == b || (a !in {"confirmed", "waitlisted", "cancelled"} && b !in {"confirmed", "waitlisted", "cancelled"})
  {
  }

  /** The payment badge: 'completed' and 'refunded' get a label, anything else is shown
      as it is. */
  function PaymentLabel(paymentStatus: string): (badge: string)
    ensures paymentStatus == "completed" ==> badge == "✓ Paid"
    ensures paymentStatus == "refunded" ==> badge == "↺ Refunded"
    ensures paymentStatus !in {"completed", "refunded"} ==> badge == paymentStatus
  {
    if paymentStatus == "completed" then "✓ Paid"
    else if paymentStatus == "refunded" then "↺ Refunded"
    else paymentStatus
  }

  /** Every payment status of the booking schema gets a distinct label. */
  lemma PaymentLabelsDistinct(a: string, b: string)
    requires a in BookingModel.PaymentStatuses && b in BookingModel.PaymentStatuses && a != b
    ensures PaymentLabel(a) != PaymentLabel(b)
  {
  }

  /** What a booking card shows besides its details. */
  datatype CardExtras = CardExtras(qrButton: bool, cancelButton: bool, waitlistNotice: bool)

  function CardFor(bookingStatus: string): (extras: CardExtras)
    ensures extras.qrButton <==> bookingStatus == "confirmed"
    ensures extras.cancelButton <==> bookingStatus == "confirmed"
    ensures extras.waitlistNotice <==> bookingStatus == "waitlisted"
  {
    CardExtras(bookingStatus == "confirmed", bookingStatus == "confirmed", bookingStatus == "waitlisted")
  }

  /** A card never offers actions and the waitlist notice together, and a cancelled or
      pending booking offers neither. */
  lemma ActionsExcludeNotice(bookingStatus: string)
    ensures var e := CardFor(bookingStatus);
      && !(e.qrButton && e.waitlistNotice)
      && (bookingStatus in {"cancelled", "pending"} ==> !e.qrButton && !e.cancelButton && !e.waitlistNotice)
  {
  }

  /** A value in the QR code's JSON object. */
  datatype QrValue = Text(s: string) | Date(ms: int)

  /** The QR payload as the ordered key/value pairs of `JSON.stringify`; an absent value
      (`undefined`) leaves its key out. */
  function QrPayload(b: BookingModel.BookingRecord): (fields: seq<(string, QrValue)>)
    ensures |fields| <= 5
    ensures forall i :: 0 <= i < |fields| ==>
      fields[i].0 in {"bookingReference", "eventId", "eventTitle", "eventDate", "userEmail"}
    ensures b.bookingReference.Some? && b.eventDate.Some? ==>
      fields == [("bookingReference", Text(b.bookingReference.value)), ("eventId", Text(b.eventId)),
                 ("eventTitle", Text(b.eventTitle)), ("eventDate", Date(b.eventDate.value)),
                 ("userEmail", Text(b.userEmail))]
  {
    (if b.bookingReference.Some? then [("bookingReference", Text(b.bookingReference.value))] else [])
    + [("eventId", Text(b.eventId)), ("eventTitle", Text(b.eventTitle))]
    + (if b.eventDate.Some? then [("eventDate", Date(b.eventDate.value))] else [])
    + [("userEmail", Text(b.userEmail))]
  }

  /** The payload depends on those five fields only: the user's name, the payment, the
      ticket count and the rest of the booking never reach the QR code. */
  lemma QrPayloadOnlyFiveFields(a: BookingModel.BookingRecord, b: BookingModel.BookingRecord)
    requires a.bookingReference == b.bookingReference && a.eventId == b.eventId
    requires a.eventTitle == b.eventTitle && a.eventDate == b.eventDate && a.userEmail == b.userEmail
    ensures QrPayload(a) == QrPayload(b)
  {
  }

  /** `cancelBookingId` is truthy: set and not the empty string. */
  predicate Selected(id: Option<string>) {
    id.Some? && id.value != ""
  }

  /** The cancel confirmation of the page. */
  class CancelDialog {
    var showModal: bool
    var cancelId: Option<string>

    constructor ()
      ensures !showModal && cancelId.None?
    {
      showModal := false;
      cancelId := None;
    }

    /** `showCancelConfirmation`: remembers the booking and opens the dialog. */
    method Ask(bookingId: string)
      modifies this
      ensures cancelId == Some(bookingId) && showModal
    {
      cancelId := Some(bookingId);
      showModal := true;
    }

    /** `handleCancel`: without a selected booking nothing happens and no request is
        sent. Otherwise the cancel request goes to the selected booking's URL; the dialog
        closes either way, and the selection is cleared only after success. `patch` stands
        for the HTTP call and says whether it succeeded. */
    method HandleCancel(bookingBase: string, patch: string -> bool) returns (sent: Option<string>)
      modifies this
      ensures !Selected(old(cancelId)) ==>
        sent.None? && showModal == old(showModal) && cancelId == old(cancelId)
      ensures Selected(old(cancelId)) ==>
        sent == Some(bookingBase + "/bookings/" + old(cancelId).value + "/cancel")
      ensures Selected(old(cancelId)) ==> !showModal
      ensures Selected(old(cancelId)) ==> cancelId == (if patch(sent.value) then None else old(cancelId))
    {
      if !Selected(cancelId) {
        return None;
      }
      var url := bookingBase + "/bookings/" + cancelId.value + "/cancel";
      sent := Some(url);
      if patch(url) {
        showModal := false;
        cancelId := None;
      } else {
        showModal := false;
      }
    }

    /** `closeModal`. */
    method Close()
      modifies this
      ensures !showModal && cancelId.None?
    {
      showModal := false;
      cancelId := None;
    }
  }
}
