/** The booking document of the booking service: required fields, the ticket and price
    bounds, the three enumerations with their defaults, and the save hook that stamps a
    new booking with its reference and total. The collection keeps references unique.

    As for events, a save validates first, then runs the hook, then writes; the write is
    refused when the reference is already taken. The clock (`Date.now()`) and the random
    number (`Math.floor(Math.random() * 1000)`) are parameters. Prices are in cents. */
module BookingModel {
  import opened Common
  import opened JsString

  type BookingId = string

  const PaymentStatuses: set<string> := {"pending", "completed", "failed", "refunded"}
  const PaymentMethods: set<string> := {"credit_card", "debit_card", "upi", "net_banking", "wallet"}
  const BookingStatuses: set<string> := {"confirmed", "pending", "cancelled", "waitlisted"}
  const MinTickets := 1
  const MaxTickets := 10
  const ReferencePrefix := "BKG"

  /** What a caller supplies when it builds a booking. A missing required string is ""; a
      missing number, date or defaulted field is `None`. */
  datatype BookingInput = BookingInput(
    userId: string, userName: string, userEmail: string, eventId: string,
    eventTitle: string, eventDate: Option<int>, eventVenue: string, eventTime: Option<string>,
    numberOfTickets: Option<int>, pricePerTicket: Option<int>,
    paymentStatus: Option<string>, paymentMethod: Option<string>,
    transactionId: Option<string>, bookingStatus: Option<string>)

  /** A booking document. `totalAmount` and `bookingReference` are absent until the first
      save. */
  datatype BookingRecord = BookingRecord(
    userId: string, userName: string, userEmail: string, eventId: string,
    eventTitle: string, eventDate: Option<int>, eventVenue: string, eventTime: Option<string>,
    numberOfTickets: Option<int>, pricePerTicket: Option<int>, totalAmount: Option<int>,
    paymentStatus: string, paymentMethod: string, transactionId: Option<string>,
    bookingStatus: string, bookingReference: Option<string>, createdAt: int, updatedAt: int)

  /** The schema validators. */
  predicate SchemaValid(r: BookingRecord) {
    && r.userId != "" && r.userName != "" && r.userEmail != "" && r.eventId != ""
    && r.eventTitle != "" && r.eventDate.Some? && r.eventVenue != ""
    && r.numberOfTickets.Some? && MinTickets <= r.numberOfTickets.value <= MaxTickets
    && r.pricePerTicket.Some? && r.pricePerTicket.value >= 0
    && r.paymentStatus in PaymentStatuses
    && r.paymentMethod in PaymentMethods
    && r.bookingStatus in BookingStatuses
  }

  /** `new Booking(input)` at time `now`: defaults applied, nothing computed yet. */
  function NewRecord(input: BookingInput, now: int): BookingRecord {
    BookingRecord(
      input.userId, input.userName, input.userEmail, input.eventId, input.eventTitle,
      input.eventDate, input.eventVenue, input.eventTime, input.numberOfTickets,
      input.pricePerTicket, None,
      if input.paymentStatus.Some? then input.paymentStatus.value else "pending",
      if input.paymentMethod.Some? then input.paymentMethod.value else "credit_card",
      input.transactionId,
      if input.bookingStatus.Some? then input.bookingStatus.value else "pending",
      None, now, now)
  }

  /** Left out, the enumerated fields take their defaults, which are members of their
      enumerations; the transaction id stays null. */
  lemma NewRecordDefaults(input: BookingInput, now: int)
    requires input.paymentStatus.None? && input.paymentMethod.None? && input.bookingStatus.None?
    requires input.transactionId.None?
    ensures var r := NewRecord(input, now);
      && r.paymentStatus == "pending" && r.paymentStatus in PaymentStatuses
      && r.paymentMethod == "credit_card" && r.paymentMethod in PaymentMethods
      && r.bookingStatus == "pending" && r.bookingStatus in BookingStatuses
      && r.transactionId.None? && r.totalAmount.None? && r.bookingReference.None?
  {
  }

  /** The reference a new booking gets at millisecond `now` with random number `rand`:
      "BKG", then the timestamp's digits, then the random number's digits (not padded). */
  function Reference(now: nat, rand: nat): (ref: string)
    requires rand < 1000
    ensures |ref| >= |ReferencePrefix| + 2 && ref[..3] == ReferencePrefix
    ensures AllDigits(ref[3..])
    ensures |NatToString(now)| + 4 <= |ref| <= |NatToString(now)| + 6
    ensures ref[3..3 + |NatToString(now)|] == NatToString(now)
    ensures ref[3 + |NatToString(now)|..] == NatToString(rand)
  {
    var ref := ReferencePrefix + NatToString(now) + NatToString(rand);
    assert ref[3..] == NatToString(now) + NatToString(rand);
    assert |NatToString(rand)| <= 3 by {
      if rand >= 10 {
        assert |NatToString(rand / 10)| <= 2;
      }
    }
    ref
  }

  lemma NatToStringInjective(m: nat, n: nat)
    requires NatToString(m) == NatToString(n)
    ensures m == n
  {
  }

  /** Two references generated at timestamps with equally many digits (every millisecond
      from September 2001 to November 2286 has 13) coincide only when both the timestamp
      and the random number do. Within one millisecond, then, two bookings clash exactly
      when they draw the same random number. */
  lemma ReferenceInjective(now1: nat, rand1: nat, now2: nat, rand2: nat)
    requires rand1 < 1000 && rand2 < 1000
    requires |NatToString(now1)| == |NatToString(now2)|
    ensures Reference(now1, rand1) == Reference(now2, rand2) <==> now1 == now2 && rand1 == rand2
  {
    if Reference(now1, rand1) == Reference(now2, rand2) {
      var a, b := NatToString(now1), NatToString(now2);
      var x, y := NatToString(rand1), NatToString(rand2);
      var k := |a|;
      assert Reference(now1, rand1) == ReferencePrefix + a + x;
      assert Reference(now2, rand2) == ReferencePrefix + b + y;
      assert (ReferencePrefix + a + x)[3..3 + k] == a;
      assert (ReferencePrefix + b + y)[3..3 + k] == b;
      assert (ReferencePrefix + a + x)[3 + k..] == x;
      assert (ReferencePrefix + b + y)[3 + k..] == y;
      NatToStringInjective(now1, now2);
      NatToStringInjective(rand1, rand2);
    }
  }

  /** What the first successful save of a valid new booking stores. */
  function FirstSaveRecord(r: BookingRecord, now: nat, rand: nat): (saved: BookingRecord)
    requires SchemaValid(r) && rand < 1000
    ensures SchemaValid(saved) && saved.bookingReference.Some?
    ensures saved.totalAmount.Some?
    ensures r.pricePerTicket.value <= saved.totalAmount.value <= MaxTickets * r.pricePerTicket.value
  {
    var total := r.numberOfTickets.value * r.pricePerTicket.value;
    TotalBounds(r.numberOfTickets.value, r.pricePerTicket.value);
    r.(bookingReference := Some(Reference(now, rand)), totalAmount := Some(total), updatedAt := now)
  }

  lemma TotalBounds(tickets: int, price: int)
    requires MinTickets <= tickets <= MaxTickets && price >= 0
    ensures price <= tickets * price <= MaxTickets * price
  {
    assert (tickets - 1) * price >= 0;
    assert (MaxTickets - tickets) * price >= 0;
  }

  /** An in-memory booking document. */
  class BookingDoc {
    const id: BookingId
    var userId: string
    var userName: string
    var userEmail: string
    var eventId: string
    var eventTitle: string
    var eventDate: Option<int>
    var eventVenue: string
    var eventTime: Option<string>
    var numberOfTickets: Option<int>
    var pricePerTicket: Option<int>
    var totalAmount: Option<int>
    var paymentStatus: string
    var paymentMethod: string
    var transactionId: Option<string>
    var bookingStatus: string
    var bookingReference: Option<string>
    var createdAt: int
    var updatedAt: int
    /** True until the document has been written once. */
    var isNew: bool

    function Record(): BookingRecord
      reads this
    {
      BookingRecord(userId, userName, userEmail, eventId, eventTitle, eventDate, eventVenue,
        eventTime, numberOfTickets, pricePerTicket, totalAmount, paymentStatus, paymentMethod,
        transactionId, bookingStatus, bookingReference, createdAt, updatedAt)
    }

    /** `new Booking(input)`. */
    constructor Create(id: BookingId, input: BookingInput, now: int)
      ensures this.id == id && isNew && Record() == NewRecord(input, now)
    {
      var r := NewRecord(input, now);
      this.id := id;
      userId, userName, userEmail, eventId := r.userId, r.userName, r.userEmail, r.eventId;
      eventTitle, eventDate, eventVenue, eventTime := r.eventTitle, r.eventDate, r.eventVenue, r.eventTime;
      numberOfTickets, pricePerTicket, totalAmount := r.numberOfTickets, r.pricePerTicket, r.totalAmount;
      paymentStatus, paymentMethod, transactionId := r.paymentStatus, r.paymentMethod, r.transactionId;
      bookingStatus, bookingReference := r.bookingStatus, r.bookingReference;
      createdAt, updatedAt := r.createdAt, r.updatedAt;
      isNew := true;
    }

    /** A document read back from the collection. */
    constructor Loaded(id: BookingId, r: BookingRecord)
      ensures this.id == id && !isNew && Record() == r
    {
      this.id := id;
      userId, userName, userEmail, eventId := r.userId, r.userName, r.userEmail, r.eventId;
      eventTitle, eventDate, eventVenue, eventTime := r.eventTitle, r.eventDate, r.eventVenue, r.eventTime;
      numberOfTickets, pricePerTicket, totalAmount := r.numberOfTickets, r.pricePerTicket, r.totalAmount;
      paymentStatus, paymentMethod, transactionId := r.paymentStatus, r.paymentMethod, r.transactionId;
      bookingStatus, bookingReference := r.bookingStatus, r.bookingReference;
      createdAt, updatedAt := r.createdAt, r.updatedAt;
      isNew := false;
    }

    /** The `pre('save')` hook at millisecond `now` with random number `rand`. It runs
        after validation, so both numbers are present. */
    method PreSave(now: nat, rand: nat)
      requires rand < 1000 && numberOfTickets.Some? && pricePerTicket.Some?
      modifies this
      ensures isNew == old(isNew)
      ensures old(isNew) ==> Record() == old(Record()).(
        bookingReference := Some(Reference(now, rand)),
        totalAmount := Some(old(numberOfTickets).value * old(pricePerTicket).value),
        updatedAt := now)
      ensures !old(isNew) ==> Record() == old(Record()).(updatedAt := now)
    {
      if isNew {
        bookingReference := Some(Reference(now, rand));
        totalAmount := Some(numberOfTickets.value * pricePerTicket.value);
      }
      updatedAt := now;
    }

    /** `booking.save()`: validate, run the hook, write. A refused write leaves the
        collection as it was. */
    method Save(db: BookingCollection, now: nat, rand: nat) returns (r: SaveResult)
      requires db.Valid() && rand < 1000
      modifies this, db
      ensures db.Valid()
      ensures !SchemaValid(old(Record())) <==> r == Invalid
      ensures r == Invalid ==> Record() == old(Record()) && isNew == old(isNew)
      ensures r != Saved ==> db.docs == old(db.docs)
      ensures r == Saved ==> !isNew && db.docs == old(db.docs)[id := Record()]
      ensures r != Invalid && old(isNew) ==> Record() == FirstSaveRecord(old(Record()), now, rand)
      ensures r != Invalid && !old(isNew) ==> Record() == old(Record()).(updatedAt := now)
      ensures r == DuplicateReference <==>
        r != Invalid && ReferenceTaken(old(db.docs), id, Record().bookingReference)
      ensures r == DuplicateReference ==> isNew == old(isNew)
    {
      if !SchemaValid(Record()) {
        return Invalid;
      }
      PreSave(now, rand);
      r := db.Write(id, Record());
      if r == Saved {
        isNew := false;
      }
    }
  }

  datatype SaveResult = Saved | Invalid | DuplicateReference

  /** Whether a booking other than `id` already holds `ref`. */
  predicate ReferenceTaken(docs: map<BookingId, BookingRecord>, id: BookingId, ref: Option<string>) {
    ref.Some? && exists j :: j in docs && j != id && docs[j].bookingReference == ref
  }

  /** The unique index on `bookingReference`. */
  ghost predicate UniqueReferences(docs: map<BookingId, BookingRecord>) {
    forall i, j :: i in docs && j in docs && i != j && docs[i].bookingReference.Some?
      ==> docs[i].bookingReference != docs[j].bookingReference
  }

  /** A write that passes the index keeps it unique. */
  lemma WriteKeepsReferencesUnique(docs: map<BookingId, BookingRecord>, id: BookingId, r: BookingRecord)
    requires UniqueReferences(docs) && !ReferenceTaken(docs, id, r.bookingReference)
    ensures UniqueReferences(docs[id := r])
  {
    var d := docs[id := r];
    forall i, j | i in d && j in d && i != j && d[i].bookingReference.Some?
      ensures d[i].bookingReference != d[j].bookingReference
    {
      if i == id {
        assert j in docs && j != id;
      } else if j == id {
        assert docs[i].bookingReference.Some?;
        assert i in docs && i != id;
      } else {
        assert d[i] == docs[i] && d[j] == docs[j];
      }
    }
  }

  /** The bookings collection, by id: every stored booking passed the validators and no
      two share a reference. */
  class BookingCollection {
    var docs: map<BookingId, BookingRecord>

    ghost predicate Valid()
      reads this
    {
      (forall id :: id in docs ==> SchemaValid(docs[id])) && UniqueReferences(docs)
    }

    constructor ()
      ensures docs == map[] && Valid()
    {
      docs := map[];
    }

    /** Store a validated booking under `id`, unless another booking holds its
        reference. */
    method Write(id: BookingId, r: BookingRecord) returns (res: SaveResult)
      requires Valid() && SchemaValid(r)
      modifies this
      ensures Valid()
      ensures res != Invalid
      ensures res == DuplicateReference <==> ReferenceTaken(old(docs), id, r.bookingReference)
      ensures res == Saved ==> docs == old(docs)[id := r]
      ensures res != Saved ==> docs == old(docs)
    {
      if ReferenceTaken(docs, id, r.bookingReference) {
        return DuplicateReference;
      }
      WriteKeepsReferencesUnique(docs, id, r);
      docs := docs[id := r];
      res := Saved;
    }
  }

  /** Saving a new booking twice on the same document: once the first save is written,
      the second one is written too, keeps the reference and total the hook set, and only
      moves `updatedAt`; the stored copy is the document. */
  method SaveTwice(doc: BookingDoc, db: BookingCollection, now1: nat, rand1: nat, now2: nat, rand2: nat)
      returns (r1: SaveResult, r2: SaveResult)
    requires doc.isNew && db.Valid() && rand1 < 1000 && rand2 < 1000
    modifies doc, db
    ensures db.Valid()
    ensures r1 == Saved ==> r2 == Saved
    ensures r1 == Saved ==>
      && SchemaValid(old(doc.Record()))
      && doc.Record() == FirstSaveRecord(old(doc.Record()), now1, rand1).(updatedAt := now2)
      && doc.Record().bookingReference == Some(Reference(now1, rand1))
      && doc.id in db.docs && db.docs[doc.id] == doc.Record()
  {
    r1 := doc.Save(db, now1, rand1);
    if r1 == Saved {
      assert db.docs[doc.id] == doc.Record();
      assert !ReferenceTaken(db.docs, doc.id, doc.Record().bookingReference);
    }
    r2 := doc.Save(db, now2, rand2);
  }
}
