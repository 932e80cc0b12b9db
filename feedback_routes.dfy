/** The feedback endpoints of the event service: submit a review (`POST
    /api/events/:id/feedback`), list the per-star breakdown (`GET`), edit (`PUT
    /api/events/:id/feedback/:feedbackId`) and delete (`DELETE`). Each handler runs its
    checks in a fixed order and answers with the first that fails. The caller is the
    user the token gate attached, which may be missing; the booking service's answer is
    a parameter. */
module FeedbackRoutes {
  import opened Common
  import opened FeedbackModel
  import EventModel

  const EventNotFound := "Event not found"
  const RatingOutOfRange := "Rating must be between 1 and 5"
  const AttendeesOnly := "Feedback is limited to attendees with active bookings"
  const EligibilityUnknown := "Unable to verify booking eligibility for feedback"
  const AlreadyReviewed := "You have already submitted feedback for this event"
  const SubmitFailed := "Failed to submit feedback"
  const FeedbackNotFound := "Feedback not found"
  const EditOwnOnly := "You can only edit your own feedback"
  const UpdateFailed := "Failed to update feedback"
  const DeleteOwnOnly := "You can only delete your own feedback"

  datatype FeedbackReply =
    | Refused(status: int, error: string)
    | Submitted(feedback: Feedback)      // 201
    | Edited(feedback: Feedback)         // 200
    | Removed                            // 200

  /** `req.body.rating` as the guard `!rating || rating < 1 || rating > 5` sees it: absent
      or another falsy value, a number (numeric text compares and is stored as its
      number), or a truthy value that is not a number, such as "abc". Both comparisons
      with `NaN` are false, so the last gets past the guard; the document mapper then
      fails to cast it when the review is written, and the handler answers 500. */
  datatype RatingField = NoRating | Rating(value: int) | NotANumber

  /** The rating guard lets the request through. */
  predicate RatingAccepted(rating: RatingField) {
    rating.NotANumber? || (rating.Rating? && RatingInRange(rating.value))
  }

  /** `comment || ''`. */
  function CommentOrEmpty(comment: Option<string>): string {
    if comment.Some? then comment.value else ""
  }

  /** The attendee check on the booking service's answer: nothing when the caller holds
      a booking that is not cancelled, otherwise the refusal. */
  function Eligibility(lookup: BookingLookup): (refusal: Option<FeedbackReply>)
    ensures refusal.None? <==>
      lookup.LookupAnswer? && lookup.hasBooking && lookup.bookingStatus != Some("cancelled")
    ensures lookup.LookupFailed? ==> refusal == Some(Refused(400, EligibilityUnknown))
    ensures lookup.LookupAnswer? && refusal.Some? ==> refusal == Some(Refused(403, AttendeesOnly))
  {
    match lookup
    case LookupFailed => Some(Refused(400, EligibilityUnknown))
    case LookupAnswer(hasBooking, status) =>
      if !hasBooking || status == Some("cancelled") then Some(Refused(403, AttendeesOnly))
      else None
  }

  /** The reply of the submit handler, given the stored reviews and whether the event
      exists. A missing caller fails when its id is read, which the handler reports as
      500. */
  function CreateReply(docs: map<FeedbackId, Feedback>, eventExists: bool, eventId: string,
                       caller: Option<User>, rating: RatingField, comment: Option<string>,
                       lookup: BookingLookup, newId: FeedbackId, now: int): (r: FeedbackReply)
    ensures r.Refused? || r.Submitted?
    ensures r.Refused? ==> r.status in {400, 403, 404, 500}
    ensures r.Submitted? ==>
      && eventExists && rating.Rating? && RatingInRange(rating.value)
      && Eligibility(lookup).None? && caller.Some?
      && SchemaValid(r.feedback) && r.feedback.userId == caller.value.id
      && forall j :: j in docs && j != newId ==> !SameSlot(docs[j], r.feedback)
  {
    if !eventExists then Refused(404, EventNotFound)
    else if !RatingAccepted(rating) then Refused(400, RatingOutOfRange)
    else if Eligibility(lookup).Some? then Eligibility(lookup).value
    else if caller.None? then Refused(500, SubmitFailed)
    else if rating.NotANumber? then Refused(500, SubmitFailed)
    else
      var f := NewFeedback(eventId, caller.value.id, caller.value.name, rating.value,
                           CommentOrEmpty(comment), now);
      match WriteOutcome(docs, newId, f)
      case Written => Submitted(f)
      case DuplicateKey => Refused(400, AlreadyReviewed)
      case ValidationError => Refused(500, SubmitFailed)
  }

  /** The guards of the submit handler: an unknown event is 404; a missing or out-of-range
      rating is 400; a failed booking lookup is 400; no booking or a cancelled one is
      403; a rating that is not a number gets past all of these and fails when the
      review is written, which is 500. */
  lemma CreateRefusals(docs: map<FeedbackId, Feedback>, eventExists: bool, eventId: string,
                       caller: Option<User>, rating: RatingField, comment: Option<string>,
                       lookup: BookingLookup, newId: FeedbackId, now: int)
    ensures var reply := CreateReply(docs, eventExists, eventId, caller, rating, comment, lookup, newId, now);
      && (!eventExists ==> reply == Refused(404, EventNotFound))
      && ((eventExists && (rating.NoRating? || (rating.Rating? && (rating.value < 1 || rating.value > 5))))
          ==> reply == Refused(400, RatingOutOfRange))
      && ((eventExists && RatingAccepted(rating) && lookup.LookupFailed?)
          ==> reply == Refused(400, EligibilityUnknown))
      && ((eventExists && RatingAccepted(rating) && lookup.LookupAnswer?
           && (!lookup.hasBooking || lookup.bookingStatus == Some("cancelled")))
          ==> reply == Refused(403, AttendeesOnly))
      && ((eventExists && rating.NotANumber? && Eligibility(lookup).None?)
          ==> reply == Refused(500, SubmitFailed))
  {
  }

  /** A second review from an attendee who already reviewed the event is refused with
      400, once the other checks pass. */
  lemma DuplicateReviewRefused(docs: map<FeedbackId, Feedback>, eventId: string, caller: User,
                               rating: int, comment: Option<string>, lookup: BookingLookup,
                               newId: FeedbackId, now: int, earlier: FeedbackId)
    requires 1 <= rating <= 5 && Eligibility(lookup).None?
    requires eventId != "" && caller.id != "" && caller.name != ""
    requires |CommentOrEmpty(comment)| <= MaxCommentLength
    requires earlier in docs && earlier != newId
    requires docs[earlier].eventId == eventId && docs[earlier].userId == caller.id
    ensures CreateReply(docs, true, eventId, Some(caller), Rating(rating), comment, lookup, newId, now)
            == Refused(400, AlreadyReviewed)
  {
    var f := NewFeedback(eventId, caller.id, caller.name, rating, CommentOrEmpty(comment), now);
    SecondReviewRefused(docs, newId, earlier, f);
  }

  /** A submitted review comes from an attendee with an active booking, carries the
      requested rating and comment, is unedited, and after it is stored the caller has
      exactly one review of the event. */
  lemma SubmittedReview(docs: map<FeedbackId, Feedback>, eventExists: bool, eventId: string,
                        caller: Option<User>, rating: RatingField, comment: Option<string>,
                        lookup: BookingLookup, newId: FeedbackId, now: int)
    requires OnePerAuthor(docs)
    requires CreateReply(docs, eventExists, eventId, caller, rating, comment, lookup, newId, now).Submitted?
    ensures var f := CreateReply(docs, eventExists, eventId, caller, rating, comment, lookup, newId, now).feedback;
      && eventExists && caller.Some? && lookup.LookupAnswer? && lookup.hasBooking
      && lookup.bookingStatus != Some("cancelled")
      && f.eventId == eventId && f.userId == caller.value.id
      && f.rating == rating.value && 1 <= f.rating <= 5
      && f.comment == CommentOrEmpty(comment) && !f.isEdited && f.updatedAt.None?
      && OnePerAuthor(docs[newId := f])
      && (forall j :: j in docs && j != newId ==> !SameSlot(docs[j], f))
  {
    var f := NewFeedback(eventId, caller.value.id, caller.value.name, rating.value,
                         CommentOrEmpty(comment), now);
    WriteKeepsOnePerAuthor(docs, newId, f);
  }

  /** The submit handler. `newId` is the identifier the database assigns. */
  method CreateFeedback(events: EventModel.EventCollection, store: FeedbackCollection,
                        eventId: string, caller: Option<User>, rating: RatingField,
                        comment: Option<string>, lookup: BookingLookup, newId: FeedbackId, now: int)
    returns (reply: FeedbackReply)
    requires store.Valid() && newId !in store.docs
    modifies store
    ensures store.Valid()
    ensures reply == CreateReply(old(store.docs), eventId in events.docs, eventId, caller, rating,
                                 comment, lookup, newId, now)
    ensures reply.Submitted? ==> store.docs == old(store.docs)[newId := reply.feedback]
    ensures !reply.Submitted? ==> store.docs == old(store.docs)
  {
    var event := events.FindById(eventId);
    if event == null {
      return Refused(404, EventNotFound);
    }
    if !RatingAccepted(rating) {
      return Refused(400, RatingOutOfRange);
    }
    var refusal := Eligibility(lookup);
    if refusal.Some? {
      return refusal.value;
    }
    if caller.None? {
      return Refused(500, SubmitFailed);
    }
    if rating.NotANumber? {
      // `Feedback.create` cannot cast the rating.
      return Refused(500, SubmitFailed);
    }
    var f := NewFeedback(eventId, caller.value.id, caller.value.name, rating.value,
                         CommentOrEmpty(comment), now);
    var r := store.Write(newId, f);
    match r
    case Written => reply := Submitted(f);
    case DuplicateKey => reply := Refused(400, AlreadyReviewed);
    case ValidationError => reply := Refused(500, SubmitFailed);
  }

  /** An edited review: new rating and comment, stamped and flagged as edited. */
  function Revised(f: Feedback, rating: int, comment: Option<string>, now: int): Feedback {
    f.(rating := rating, comment := CommentOrEmpty(comment), updatedAt := Some(now), isEdited := true)
  }

  /** The reply of the edit handler. The event id of the path is not consulted. */
  function EditReply(docs: map<FeedbackId, Feedback>, feedbackId: FeedbackId, caller: Option<User>,
                     rating: RatingField, comment: Option<string>, now: int): (r: FeedbackReply)
    ensures r.Refused? || r.Edited?
    ensures r.Refused? ==> r.status in {400, 403, 404, 500}
    ensures r.Edited? ==>
      && rating.Rating? && RatingInRange(rating.value) && feedbackId in docs && caller.Some?
      && docs[feedbackId].userId == caller.value.id
      && SchemaValid(r.feedback) && r.feedback.isEdited && r.feedback.updatedAt == Some(now)
  {
    if !RatingAccepted(rating) then Refused(400, RatingOutOfRange)
    else if feedbackId !in docs then Refused(404, FeedbackNotFound)
    else if caller.None? then Refused(500, UpdateFailed)
    else if docs[feedbackId].userId != caller.value.id then Refused(403, EditOwnOnly)
    else if rating.NotANumber? then Refused(500, UpdateFailed)
    else
      var f := Revised(docs[feedbackId], rating.value, comment, now);
      if WriteOutcome(docs, feedbackId, f) == Written then Edited(f) else Refused(500, UpdateFailed)
  }

  /** The edit handler's guards in order: a bad rating is 400 before anything is loaded;
      then an unknown review is 404; then anyone but the author gets 403, so an accepted
      edit was made by the author; the author's rating that is not a number fails when
      the review is saved, which is 500. */
  lemma OnlyAuthorEdits(docs: map<FeedbackId, Feedback>, feedbackId: FeedbackId, caller: Option<User>,
                        rating: RatingField, comment: Option<string>, now: int)
    ensures var reply := EditReply(docs, feedbackId, caller, rating, comment, now);
      && (!RatingAccepted(rating) ==> reply == Refused(400, RatingOutOfRange))
      && (RatingAccepted(rating) && feedbackId !in docs ==> reply == Refused(404, FeedbackNotFound))
      && (reply.Edited? ==> feedbackId in docs && caller.Some? && docs[feedbackId].userId == caller.value.id)
      && ((RatingAccepted(rating) && feedbackId in docs && caller.Some?
           && docs[feedbackId].userId != caller.value.id)
          ==> reply == Refused(403, EditOwnOnly))
      && ((rating.NotANumber? && feedbackId in docs && caller.Some?
           && docs[feedbackId].userId == caller.value.id)
          ==> reply == Refused(500, UpdateFailed))
  {
  }

  /** In a consistent store an edit by the author never collides with the unique index,
      so it is accepted exactly when the new comment fits in 1000 characters; the edited
      review keeps its event, author, name and creation time, takes the new rating and
      comment, and is flagged as edited at `now`. */
  lemma AuthorEdit(docs: map<FeedbackId, Feedback>, feedbackId: FeedbackId, caller: User,
                   rating: int, comment: Option<string>, now: int)
    requires forall id :: id in docs ==> SchemaValid(docs[id])
    requires OnePerAuthor(docs)
    requires feedbackId in docs && docs[feedbackId].userId == caller.id && 1 <= rating <= 5
    ensures var reply := EditReply(docs, feedbackId, Some(caller), Rating(rating), comment, now);
      && (reply.Edited? <==> |CommentOrEmpty(comment)| <= MaxCommentLength)
      && (reply.Edited? ==>
            var old_ := docs[feedbackId];
            var f := reply.feedback;
            && SameSlot(f, old_) && f.userName == old_.userName && f.createdAt == old_.createdAt
            && f.rating == rating && f.comment == CommentOrEmpty(comment)
            && f.isEdited && f.updatedAt == Some(now))
  {
    var f := Revised(docs[feedbackId], rating, comment, now);
    forall j | j in docs && j != feedbackId
      ensures !SameSlot(docs[j], f)
    {
      assert !SameSlot(docs[j], docs[feedbackId]);
    }
  }

  /** The edit handler: load, check, assign the new fields on the loaded document, save. */
  method EditFeedback(store: FeedbackCollection, feedbackId: FeedbackId, caller: Option<User>,
                      rating: RatingField, comment: Option<string>, now: int)
    returns (reply: FeedbackReply)
    requires store.Valid()
    modifies store
    ensures store.Valid()
    ensures reply == EditReply(old(store.docs), feedbackId, caller, rating, comment, now)
    ensures reply.Edited? ==> store.docs == old(store.docs)[feedbackId := reply.feedback]
    ensures !reply.Edited? ==> store.docs == old(store.docs)
  {
    if !RatingAccepted(rating) {
      return Refused(400, RatingOutOfRange);
    }
    var feedback := store.FindById(feedbackId);
    if feedback == null {
      return Refused(404, FeedbackNotFound);
    }
    if caller.None? {
      return Refused(500, UpdateFailed);
    }
    if feedback.userId != caller.value.id {
      return Refused(403, EditOwnOnly);
    }
    if rating.NotANumber? {
      // `feedback.save()` cannot cast the rating.
      return Refused(500, UpdateFailed);
    }
    feedback.rating := rating.value;
    feedback.comment := CommentOrEmpty(comment);
    feedback.updatedAt := Some(now);
    feedback.isEdited := true;
    var r := feedback.Save(store);
    if r == Written {
      reply := Edited(feedback.Record());
    } else {
      reply := Refused(500, UpdateFailed);
    }
  }

  /** The reply of the delete handler. */
  function DeleteReply(docs: map<FeedbackId, Feedback>, feedbackId: FeedbackId, caller: Option<User>)
    : (reply: FeedbackReply)
    ensures reply == Removed <==>
      feedbackId in docs && caller.Some? && docs[feedbackId].userId == caller.value.id
    ensures feedbackId in docs && caller.Some? && docs[feedbackId].userId != caller.value.id
      ==> reply == Refused(403, DeleteOwnOnly)
    ensures feedbackId !in docs ==> reply == Refused(404, FeedbackNotFound)
  {
    if feedbackId !in docs then Refused(404, FeedbackNotFound)
    else if caller.None? then Refused(500, "Failed to delete feedback")
    else if docs[feedbackId].userId != caller.value.id then Refused(403, DeleteOwnOnly)
    else Removed
  }

  /** The delete handler: only the author's request removes the review; every refusal
      leaves the store as it was. */
  method DeleteFeedback(store: FeedbackCollection, feedbackId: FeedbackId, caller: Option<User>)
    returns (reply: FeedbackReply)
    requires store.Valid()
    modifies store
    ensures store.Valid()
    ensures reply == DeleteReply(old(store.docs), feedbackId, caller)
    ensures reply == Removed ==> store.docs == old(store.docs) - {feedbackId}
    ensures reply != Removed ==> store.docs == old(store.docs)
  {
    var feedback := store.FindById(feedbackId);
    if feedback == null {
      return Refused(404, FeedbackNotFound);
    }
    if caller.None? {
      return Refused(500, "Failed to delete feedback");
    }
    if feedback.userId != caller.value.id {
      return Refused(403, DeleteOwnOnly);
    }
    store.Delete(feedbackId);
    reply := Removed;
  }

  /** How many ratings equal `star`. */
  function CountOf(ratings: seq<int>, star: int): nat {
    if ratings == [] then 0
    else CountOf(ratings[1..], star) + (if ratings[0] == star then 1 else 0)
  }

  /** How many ratings lie in 1..5. */
  function CountInRange(ratings: seq<int>): nat {
    if ratings == [] then 0
    else CountInRange(ratings[1..]) + (if RatingInRange(ratings[0]) then 1 else 0)
  }

  /** The `stats` part of the listing: the number of reviews and, for each star 1..5,
      how many reviews gave it. No aggregate row (no review) counts as no ratings. */
  datatype RatingStats = RatingStats(total: nat, breakdown: map<int, nat>)

  function Stats(ratings: Option<seq<int>>): (s: RatingStats)
    ensures s.breakdown.Keys == {1, 2, 3, 4, 5}
    ensures ratings.None? ==> s.total == 0 && forall star :: star in s.breakdown ==> s.breakdown[star] == 0
    ensures ratings.Some? ==> s.total == |ratings.value|
    ensures ratings.Some? ==>
      forall star :: 1 <= star <= 5 ==> s.breakdown[star] == multiset(ratings.value)[star]
  {
    var rs := if ratings.Some? then ratings.value else [];
    CountsAreMultiplicities(rs);
    RatingStats(|rs|, map star | star in {1, 2, 3, 4, 5} :: CountOf(rs, star))
  }

  /** `CountOf` is the number of occurrences: the multiplicity in the ratings' multiset. */
  lemma {:induction false} CountsAreMultiplicities(ratings: seq<int>)
    ensures forall star :: CountOf(ratings, star) == multiset(ratings)[star]
  {
    if ratings != [] {
      CountsAreMultiplicities(ratings[1..]);
      assert ratings == [ratings[0]] + ratings[1..];
      assert multiset(ratings) == multiset([ratings[0]]) + multiset(ratings[1..]);
    }
  }

  lemma {:induction false} StarCountsSum(ratings: seq<int>)
    ensures CountOf(ratings, 1) + CountOf(ratings, 2) + CountOf(ratings, 3)
            + CountOf(ratings, 4) + CountOf(ratings, 5) == CountInRange(ratings)
  {
    if ratings != [] {
      StarCountsSum(ratings[1..]);
    }
  }

  lemma {:induction false} AllInRangeCount(ratings: seq<int>)
    requires forall i :: 0 <= i < |ratings| ==> RatingInRange(ratings[i])
    ensures CountInRange(ratings) == |ratings|
  {
    if ratings != [] {
      AllInRangeCount(ratings[1..]);
    }
  }

  /** The five star counts add up to the number of ratings in 1..5; when every rating
      is in range, as the stored reviews' validators guarantee, they add up to the
      total. */
  lemma BreakdownSums(ratings: Option<seq<int>>)
    ensures var s := Stats(ratings);
      var rs := if ratings.Some? then ratings.value else [];
      && s.breakdown[1] + s.breakdown[2] + s.breakdown[3] + s.breakdown[4] + s.breakdown[5]
         == CountInRange(rs)
      && ((forall i :: 0 <= i < |rs| ==> RatingInRange(rs[i]))
          ==> s.breakdown[1] + s.breakdown[2] + s.breakdown[3] + s.breakdown[4] + s.breakdown[5]
              == s.total)
  {
    var rs := if ratings.Some? then ratings.value else [];
    StarCountsSum(rs);
    if forall i :: 0 <= i < |rs| ==> RatingInRange(rs[i]) {
      AllInRangeCount(rs);
    }
  }
}
