/** The feedback document of the event service: field constraints, defaults, and the
    unique index on (eventId, userId) that admits at most one review per attendee and
    event. The collection checks the validators before the index, as the document mapper
    does: an invalid document is refused before the database sees it. */
module FeedbackModel {
  import opened Common

  type FeedbackId = string

  const MinRating := 1
  const MaxRating := 5
  const MaxCommentLength := 1000

  /** A stored review. `updatedAt` is null until the first edit. */
  datatype Feedback = Feedback(
    eventId: string, userId: string, userName: string, rating: int, comment: string,
    createdAt: int, updatedAt: Option<int>, isEdited: bool)

  predicate RatingInRange(rating: int) {
    MinRating <= rating <= MaxRating
  }

  /** The schema validators: the three required strings, the rating bounds and the
      comment length. */
  predicate SchemaValid(f: Feedback) {
    && f.eventId != "" && f.userId != "" && f.userName != ""
    && RatingInRange(f.rating)
    && |f.comment| <= MaxCommentLength
  }

  /** Two reviews the unique index keeps apart: same event, same author. */
  predicate SameSlot(a: Feedback, b: Feedback) {
    a.eventId == b.eventId && a.userId == b.userId
  }

  /** The unique index: no two stored reviews share an (eventId, userId) pair. */
  ghost predicate OnePerAuthor(docs: map<FeedbackId, Feedback>) {
    forall i, j :: i in docs && j in docs && i != j ==> !SameSlot(docs[i], docs[j])
  }

  /** The document a create builds, with the schema defaults: not edited, no update
      time, created at `now`. */
  function NewFeedback(eventId: string, userId: string, userName: string, rating: int,
                       comment: string, now: int): Feedback
  {
    Feedback(eventId, userId, userName, rating, comment, now, None, false)
  }

  /** A new review is unedited and has no update time; it passes the validators exactly
      when its required strings are present, the rating lies in 1..5 and the comment
      has at most 1000 characters. */
  lemma NewFeedbackDefaults(eventId: string, userId: string, userName: string, rating: int,
                            comment: string, now: int)
    ensures var f := NewFeedback(eventId, userId, userName, rating, comment, now);
      && !f.isEdited && f.updatedAt.None? && f.createdAt == now
      && (SchemaValid(f) <==> eventId != "" && userId != "" && userName != ""
                              && 1 <= rating <= 5 && |comment| <= 1000)
  {
  }

  datatype WriteResult = Written | ValidationError | DuplicateKey

  /** What writing `f` under `id` does: the validators first, then the unique index
      against every other stored review. */
  function WriteOutcome(docs: map<FeedbackId, Feedback>, id: FeedbackId, f: Feedback): (r: WriteResult)
    ensures r == ValidationError <==> !SchemaValid(f)
    ensures r == Written <==>
      SchemaValid(f) && forall j :: j in docs && j != id ==> !SameSlot(docs[j], f)
  {
    if !SchemaValid(f) then ValidationError
    else if exists j :: j in docs && j != id && SameSlot(docs[j], f) then DuplicateKey
    else Written
  }

  /** A write the collection accepts keeps every stored review valid and keeps the
      index unique: no review stored under another id shares the new one's author and
      event. */
  lemma WriteKeepsOnePerAuthor(docs: map<FeedbackId, Feedback>, id: FeedbackId, f: Feedback)
    requires OnePerAuthor(docs)
    requires WriteOutcome(docs, id, f) == Written
    ensures OnePerAuthor(docs[id := f]) && SchemaValid(f)
    ensures forall j :: j in docs && j != id ==> !SameSlot(docs[j], f)
  {
    var d := docs[id := f];
    forall i, j | i in d && j in d && i != j
      ensures !SameSlot(d[i], d[j])
    {
      if i == id {
        assert j in docs && j != id;
      } else if j == id {
        assert i in docs && i != id;
        assert !SameSlot(docs[i], f);
      } else {
        assert d[i] == docs[i] && d[j] == docs[j];
      }
    }
  }

  /** A second review by the same author for the same event is refused by the index,
      whatever its rating and comment. */
  lemma SecondReviewRefused(docs: map<FeedbackId, Feedback>, id: FeedbackId, other: FeedbackId, f: Feedback)
    requires other in docs && other != id && SameSlot(docs[other], f)
    requires SchemaValid(f)
    ensures WriteOutcome(docs, id, f) == DuplicateKey
  {
  }

  /** An in-memory review loaded from the collection. */
  class FeedbackDoc {
    const id: FeedbackId
    var eventId: string
    var userId: string
    var userName: string
    var rating: int
    var comment: string
    var createdAt: int
    var updatedAt: Option<int>
    var isEdited: bool

    function Record(): Feedback
      reads this
    {
      Feedback(eventId, userId, userName, rating, comment, createdAt, updatedAt, isEdited)
    }

    constructor Loaded(id: FeedbackId, f: Feedback)
      ensures this.id == id && Record() == f
    {
      this.id := id;
      eventId, userId, userName, rating := f.eventId, f.userId, f.userName, f.rating;
      comment, createdAt, updatedAt, isEdited := f.comment, f.createdAt, f.updatedAt, f.isEdited;
    }

    /** `feedback.save()`: the collection's write of the current fields. */
    method Save(db: FeedbackCollection) returns (r: WriteResult)
      requires db.Valid()
      modifies db
      ensures db.Valid()
      ensures r == WriteOutcome(old(db.docs), id, Record())
      ensures r == Written ==> db.docs == old(db.docs)[id := Record()]
      ensures r != Written ==> db.docs == old(db.docs)
    {
      r := db.Write(id, Record());
    }
  }

  /** The feedback collection, by id. */
  class FeedbackCollection {
    var docs: map<FeedbackId, Feedback>

    ghost predicate Valid()
      reads this
    {
      (forall id :: id in docs ==> SchemaValid(docs[id])) && OnePerAuthor(docs)
    }

    constructor ()
      ensures docs == map[] && Valid()
    {
      docs := map[];
    }

    /** Insert or replace the review stored under `id`, unless a validator or the unique
        index refuses it. */
    method Write(id: FeedbackId, f: Feedback) returns (r: WriteResult)
      requires Valid()
      modifies this
      ensures Valid()
      ensures r == WriteOutcome(old(docs), id, f)
      ensures r == Written ==> docs == old(docs)[id := f]
      ensures r != Written ==> docs == old(docs)
    {
      r := WriteOutcome(docs, id, f);
      if r == Written {
        WriteKeepsOnePerAuthor(docs, id, f);
        docs := docs[id := f];
      }
    }

    /** `Feedback.findById(id)`. */
    method FindById(id: FeedbackId) returns (doc: FeedbackDoc?)
      ensures id !in docs ==> doc == null
      ensures id in docs ==> doc != null && fresh(doc) && doc.id == id && doc.Record() == docs[id]
    {
      if id in docs {
        doc := new FeedbackDoc.Loaded(id, docs[id]);
      } else {
        doc := null;
      }
    }

    /** `Feedback.findByIdAndDelete(id)`. */
    method Delete(id: FeedbackId)
      requires Valid()
      modifies this
      ensures Valid() && docs == old(docs) - {id}
    {
      docs := docs - {id};
    }
  }
}
