/** The event document of the event service: its schema constraints and defaults, the
    save hook that initialises the seat ledger of a new event, and the collection that
    persists saved events.

    Saving follows the document mapper: the schema validators run first (on every path,
    the date included), and only a document that passes them reaches the hook and is
    written. Dates are milliseconds since the epoch, prices are in cents. */
module EventModel {
  import opened Common
  import opened JsString
  import CategoryImages

  type EventId = string

  const Statuses: set<string> := {"upcoming", "ongoing", "completed", "cancelled"}
  /** The schema default of `imageUrl` (the conference picture). */
  const DefaultImageUrl := CategoryImages.ConferenceImage
  /** The placeholder an older client sent, which the hook also replaces. */
  const PlaceholderImageUrl := "https://via.placeholder.com/400x300?text=Event+Image"
  const MaxTitleLength := 100
  const MaxDescriptionLength := 2000

  /** The fields a create request supplies. A missing required text field is "" (both
      fail the `required` validator alike); a missing field that has a schema default,
      and a missing number or date, is `None`. */
  datatype EventInput = EventInput(
    title: string, description: string, category: Option<string>, venue: string,
    date: Option<int>, time: string, capacity: Option<int>, price: Option<int>,
    imageUrl: Option<string>, organizer: string, status: Option<string>,
    createdBy: Option<string>)

  /** A stored event. */
  datatype EventRecord = EventRecord(
    title: string, description: string, category: string, venue: string,
    date: Option<int>, time: string, capacity: Option<int>, availableSeats: int,
    price: Option<int>, imageUrl: string, organizer: string, status: string,
    createdBy: string, createdAt: int, updatedAt: int)

  /** Every schema validator except the one that compares the date with the clock. */
  predicate ShapeValid(r: EventRecord) {
    && r.title != "" && |r.title| <= MaxTitleLength
    && r.description != "" && |r.description| <= MaxDescriptionLength
    && r.category in CategoryImages.Categories
    && r.venue != ""
    && r.date.Some?
    && r.time != ""
    && r.capacity.Some? && r.capacity.value >= 1
    && r.price.Some? && r.price.value >= 0
    && r.organizer != ""
    && r.status in Statuses
    && r.createdBy != ""
  }

  /** All schema validators at time `now`: the date must lie strictly in the future. */
  predicate SchemaValid(r: EventRecord, now: int) {
    ShapeValid(r) && r.date.value > now
  }

  /** The seat-ledger invariant of one event. */
  predicate SeatsInBounds(r: EventRecord) {
    r.capacity.Some? && 0 <= r.availableSeats <= r.capacity.value
  }

  /** The document `new Event(input)` builds: defaults applied, `title` and `venue`
      trimmed, `availableSeats` at its default 0, both timestamps at `now`. */
  function NewRecord(input: EventInput, now: int): EventRecord
  {
    EventRecord(
      Trim(input.title), input.description,
      if input.category.Some? then input.category.value else "other",
      Trim(input.venue), input.date, input.time, input.capacity, 0, input.price,
      if input.imageUrl.Some? then input.imageUrl.value else DefaultImageUrl,
      input.organizer,
      if input.status.Some? then input.status.value else "upcoming",
      if input.createdBy.Some? then input.createdBy.value else "system",
      now, now)
  }

  /** Fields a create request leaves out take the schema defaults: category 'other',
      status 'upcoming', the default picture, creator 'system'; seats start at 0 until the
      first save. */
  lemma MissingFieldsTakeDefaults(input: EventInput, now: int)
    requires input.category.None? && input.status.None? && input.imageUrl.None?
    requires input.createdBy.None?
    ensures var r := NewRecord(input, now);
      && r.category == "other" && r.category in CategoryImages.Categories
      && r.status == "upcoming" && r.status in Statuses
      && r.imageUrl == DefaultImageUrl && r.createdBy == "system"
      && r.availableSeats == 0 && r.createdAt == now && r.updatedAt == now
  {
  }

  /** The picture the hook leaves on a new event: an empty URL or the placeholder is
      replaced by the category's picture, any other URL is kept. */
  function NewEventImage(imageUrl: string, category: string): (url: string)
    ensures imageUrl != "" && imageUrl != PlaceholderImageUrl ==> url == imageUrl
    ensures imageUrl == "" || imageUrl == PlaceholderImageUrl ==> url == CategoryImages.ImageFor(category)
    ensures url != "" && url != PlaceholderImageUrl
  {
    if imageUrl == "" || imageUrl == PlaceholderImageUrl then CategoryImages.ImageFor(category)
    else imageUrl
  }

  /** What the first save of a valid new event stores. */
  function CreatedRecord(input: EventInput, now: int): (r: EventRecord)
    requires SchemaValid(NewRecord(input, now), now)
    ensures SeatsInBounds(r) && r.availableSeats == r.capacity.value
    ensures ShapeValid(r)
  {
    var d := NewRecord(input, now);
    d.(availableSeats := d.capacity.value, imageUrl := NewEventImage(d.imageUrl, d.category),
       updatedAt := now)
  }

  /** A create request that leaves out `imageUrl` gets the schema default, which is not
      empty and not the placeholder, so the hook keeps it whatever the category. */
  lemma MissingImageKeepsSchemaDefault(input: EventInput, now: int)
    requires input.imageUrl.None?
    requires SchemaValid(NewRecord(input, now), now)
    ensures CreatedRecord(input, now).imageUrl == DefaultImageUrl
  {
  }

  /** A new event's picture depends on its category only when the request sent no usable
      URL. */
  lemma CreatedImage(input: EventInput, now: int)
    requires SchemaValid(NewRecord(input, now), now)
    ensures var url := CreatedRecord(input, now).imageUrl;
      if input.imageUrl == Some("") || input.imageUrl == Some(PlaceholderImageUrl)
      then url == CategoryImages.ImageFor(NewRecord(input, now).category)
      else url == NewRecord(input, now).imageUrl
  {
  }

  /** An in-memory event document. */
  class EventDoc {
    const id: EventId
    var title: string
    var description: string
    var category: string
    var venue: string
    var date: Option<int>
    var time: string
    var capacity: Option<int>
    var availableSeats: int
    var price: Option<int>
    var imageUrl: string
    var organizer: string
    var status: string
    var createdBy: string
    var createdAt: int
    var updatedAt: int
    /** True until the document has been saved once. */
    var isNew: bool

    function Record(): EventRecord
      reads this
    {
      EventRecord(title, description, category, venue, date, time, capacity,
        availableSeats, price, imageUrl, organizer, status, createdBy, createdAt, updatedAt)
    }

    /** `new Event(input)`. */
    constructor Create(id: EventId, input: EventInput, now: int)
      ensures this.id == id && isNew
      ensures Record() == NewRecord(input, now)
    {
      var r := NewRecord(input, now);
      this.id := id;
      title, description, category, venue := r.title, r.description, r.category, r.venue;
      date, time, capacity, availableSeats := r.date, r.time, r.capacity, r.availableSeats;
      price, imageUrl, organizer, status := r.price, r.imageUrl, r.organizer, r.status;
      createdBy, createdAt, updatedAt := r.createdBy, r.createdAt, r.updatedAt;
      isNew := true;
      new;
      assert Record() == r;
    }

    /** A document read back from the collection. */
    constructor Loaded(id: EventId, r: EventRecord)
      ensures this.id == id && !isNew && Record() == r
    {
      this.id := id;
      title, description, category, venue := r.title, r.description, r.category, r.venue;
      date, time, capacity, availableSeats := r.date, r.time, r.capacity, r.availableSeats;
      price, imageUrl, organizer, status := r.price, r.imageUrl, r.organizer, r.status;
      createdBy, createdAt, updatedAt := r.createdBy, r.createdAt, r.updatedAt;
      isNew := false;
    }

    /** The `pre('save')` hook. It runs after validation, so `capacity` is present. On
        the first save it opens every seat and picks the picture; on every save it
        refreshes `updatedAt`. */
    method PreSave(now: int)
      requires capacity.Some?
      modifies this
      ensures isNew == old(isNew) && capacity == old(capacity)
      ensures old(isNew) ==> availableSeats == capacity.value
      ensures !old(isNew) ==> availableSeats == old(availableSeats)
      ensures imageUrl == if old(isNew) then NewEventImage(old(imageUrl), category) else old(imageUrl)
      ensures Record() == old(Record()).(availableSeats := availableSeats, imageUrl := imageUrl, updatedAt := now)
    {
      if isNew {
        availableSeats := capacity.value;
        if imageUrl == "" || imageUrl == PlaceholderImageUrl {
          imageUrl := CategoryImages.ImageFor(category);
        }
      }
      updatedAt := now;
    }

    /** `doc.save()`: validate, run the hook, write. A failed validation leaves the
        document and the collection as they were. */
    method Save(db: EventCollection, now: int) returns (ok: bool)
      requires db.Valid()
      modifies this, db
      ensures db.Valid()
      ensures ok == SchemaValid(old(Record()), now)
      ensures !ok ==> db.docs == old(db.docs) && Record() == old(Record()) && isNew == old(isNew)
      ensures ok ==> !isNew && db.docs == old(db.docs)[id := Record()]
      ensures ok && old(isNew) ==> Record() == old(Record()).(availableSeats := old(Record()).capacity.value,
        imageUrl := NewEventImage(old(imageUrl), category), updatedAt := now)
      ensures ok && !old(isNew) ==> Record() == old(Record()).(updatedAt := now)
    {
      if !SchemaValid(Record(), now) {
        return false;
      }
      PreSave(now);
      isNew := false;
      db.docs := db.docs[id := Record()];
      ok := true;
    }
  }

  /** The events collection: what has been saved, by id. Every stored event passed the
      schema validators when it was written. */
  class EventCollection {
    var docs: map<EventId, EventRecord>

    ghost predicate Valid()
      reads this
    {
      forall id :: id in docs ==> ShapeValid(docs[id])
    }

    /** The seat-ledger invariant over every stored event. */
    ghost predicate AllSeatsInBounds()
      reads this
    {
      forall id :: id in docs ==> SeatsInBounds(docs[id])
    }

    constructor ()
      ensures docs == map[] && Valid() && AllSeatsInBounds()
    {
      docs := map[];
    }

    /** `Event.findById(id)`: a fresh document, or null when there is none. */
    method FindById(id: EventId) returns (doc: EventDoc?)
      ensures id !in docs ==> doc == null
      ensures id in docs ==> doc != null && fresh(doc) && doc.id == id && !doc.isNew
                             && doc.Record() == docs[id]
    {
      if id in docs {
        doc := new EventDoc.Loaded(id, docs[id]);
      } else {
        doc := null;
      }
    }
  }

  datatype CreateResponse = Created(event: EventRecord) | CreateFailed

  /** `POST /api/events` after the admin gate: build the document from the request body
      with `createdBy` set to the caller, save it, and answer 201 with the stored event or
      500 when validation fails. `id` is the fresh identifier the database assigns. */
  method CreateEvent(db: EventCollection, id: EventId, body: EventInput, callerId: string, now: int)
    returns (resp: CreateResponse)
    requires db.Valid() && id !in db.docs
    modifies db
    ensures db.Valid()
    ensures var input := body.(createdBy := Some(callerId));
      if SchemaValid(NewRecord(input, now), now) then
        resp == Created(CreatedRecord(input, now)) && db.docs == old(db.docs)[id := resp.event]
      else
        resp == CreateFailed && db.docs == old(db.docs)
    ensures old(db.AllSeatsInBounds()) ==> db.AllSeatsInBounds()
  {
    var input := body.(createdBy := Some(callerId));
    var doc := new EventDoc.Create(id, input, now);
    var ok := doc.Save(db, now);
    if ok {
      resp := Created(doc.Record());
    } else {
      resp := CreateFailed;
    }
  }
}
