# Eventrix: a Dafny model of the event platform's core

Eventrix is a campus event platform. An event service keeps the events with their seat
counts and the attendees' reviews. A booking service keeps the bookings. An authentication
service vouches for users. A React front end lets people browse events, book tickets and
manage their bookings. This project models the decision-making core of the platform:

- **Seat ledger.** The `PATCH /:id/seats` handler reserves or releases seats. The model
  proves that the available count always stays between 0 and the capacity, and that a
  sequence of reservations never grants more seats than were free.
- **Event and booking documents.** Their schema validation, their defaults and their
  save hooks: new events start with all seats free and get a category picture; new
  bookings get a reference and a total. A document object whose fields change in place
  is a Dafny `class`. A collection is a class holding a map from id to record. A save
  validates first, then runs the hook, then writes.
- **Reviews.** Reviews are limited to attendees with an active booking. The model covers
  creating, editing and deleting them, and the unique (event, user) index that allows one
  review per author. The per-star breakdown sums to the number of in-range ratings.
- **Authentication gates.** `verifyToken` and `isAdmin`. The authentication service is
  a function from the header it receives to its answer.
- **Front-end helpers.** The 12-hour and 24-hour time conversions, with both round trips
  proved. Also the admin form's validation chain and token lookup, the list URL with
  `encodeURIComponent` (proved injective, and inverted by a model of `decodeURIComponent`),
  the booking panel's ticket and waitlist decisions, the booking cards, and the
  registration checks.

JavaScript semantics are written out where the code depends on them, in `JsString`:
- `parseInt` with and without a radix;
- `split`/`join` and `endsWith`;
- `padStart`;
- the whitespace of `trim`;
- string-number conversion.

Money, ratings and ticket counts are integers, and prices are in cents. Clocks, random
numbers and HTTP calls are parameters.

Modules: `Common`, `JsString`, `UriEncoding`, `CategoryImages`, `EventModel`,
`SeatLedger`, `EventListing`, `FeedbackModel`, `FeedbackRoutes`, `BookingModel`,
`AuthMiddleware`, `TimeFormat`, `EventsPage`, `AdminEventsPage`, `MyBookingsPage`,
`EventDetailPage`, `RegisterPage`.

## Model

| member | source | states |
|---|---|---|
| SeatLedger.Adjust | services/event-service/src/routes/events.js:168-173 | refused exactly when a positive request exceeds the free seats; otherwise the new count lies in 0..capacity |
| SeatLedger.ReserveLowersByExactly | services/event-service/src/routes/events.js:172-173 | reserving k of at least k free seats lowers the count by exactly k |
| SeatLedger.ReleaseRaisesCapped | services/event-service/src/routes/events.js:172-173 | releasing k raises the count by k, capped at the capacity |
| SeatLedger.ReleaseUndoesReserve | services/event-service/src/routes/events.js:172-173 | a release of k after a reservation of k restores the count |
| SeatLedger.ReleaseAtCapacityIsNoOp | services/event-service/src/routes/events.js:172-173 | releasing into a full event leaves it full |
| SeatLedger.ReservationsNeverOversell | services/event-service/src/routes/events.js:168-173 | over any sequence of reservations, the seats granted plus the seats left equal the seats free at the start, so nothing is oversold |
| SeatLedger.SeatOutcome | services/event-service/src/routes/events.js:160-183 | 400 exactly for a positive request larger than the free seats; 500 exactly when the count is missing or not a number (NaN passes the 400 check and the save refuses it) or the save's validation rejects a past date; an update stays within 0..capacity; never 404 |
| SeatLedger.PatchSeats | services/event-service/src/routes/events.js:158-184 | 404 for an unknown id; otherwise the reply is `SeatOutcome` of the stored event, a missing or non-numeric count included; only a successful update changes the collection, and only its seats and update time; seat bounds are preserved for every event |
| EventListing.SortFor | services/event-service/src/routes/events.js:37-41 | sorts by price exactly for 'price-asc'/'price-desc', descending exactly for 'price-desc'/'date-desc', and by date ascending otherwise |
| EventListing.ParamOr | services/event-service/src/routes/events.js:43-44 | `parseInt(x) \|\| fallback`: the fallback for a missing, non-numeric or zero value, the parsed number otherwise; never 0 |
| EventListing.Pages | services/event-service/src/routes/events.js:61 | `Math.ceil(total / limit)`: the least page count whose pages hold all items; 0 exactly when there are no items |
| EventListing.ItemOnPage | services/event-service/src/routes/events.js:45-61 | item i is in the window skipped to on page i/limit+1, and that page is within the page count |
| EventListing.Plan | services/event-service/src/routes/events.js:43-62 | the skip is (page-1)*limit and the reported total is the count |
| EventListing.DefaultPlan | services/event-service/src/routes/events.js:43-45 | without parameters: page 1, 10 per page, nothing skipped |
| EventModel.ShapeValid | services/event-service/src/models/Event.js:3-84 | every schema validator except the future-date one: required fields, title at most 100 and description at most 2000 characters, category and status from their enumerations, capacity at least 1, price not negative |
| EventModel.SchemaValid | services/event-service/src/models/Event.js:26-35 | the shape validators and a date strictly after `now` |
| EventModel.NewRecord | services/event-service/src/models/Event.js:3-84 | `new Event(input)`: defaults applied, title and venue trimmed, no seats yet, both timestamps `now` |
| EventModel.MissingFieldsTakeDefaults | services/event-service/src/models/Event.js:15-75 | absent category, status, picture and creator take 'other', 'upcoming', the conference picture and 'system' |
| EventModel.NewEventImage | services/event-service/src/models/Event.js:92-103 | a user's picture is kept unless empty or the placeholder; otherwise the category's picture; never empty or the placeholder |
| EventModel.CreatedRecord | services/event-service/src/models/Event.js:87-107 | a newly created valid event has every seat available |
| EventModel.MissingImageKeepsSchemaDefault | services/event-service/src/models/Event.js:54-57 | without a picture in the request the schema default is set before the hook, so the hook keeps the conference picture whatever the category |
| EventModel.CreatedImage | services/event-service/src/models/Event.js:87-104 | the stored picture of a new event is the submitted one or the category's |
| EventModel.EventDoc.Create | services/event-service/src/models/Event.js:3-84 | a new document holds the input with the schema defaults |
| EventModel.EventDoc.Loaded | services/event-service/src/routes/events.js:162 | a loaded document holds the stored record and is not new |
| EventModel.EventDoc.PreSave | services/event-service/src/models/Event.js:87-107 | new: seats set to capacity and picture chosen; always: `updatedAt` refreshed; nothing else changes |
| EventModel.EventDoc.Save | services/event-service/src/models/Event.js:26-35 | succeeds exactly when the record passes validation (a future date among it); on success the hooked record is written, on failure nothing changes |
| EventModel.EventCollection.constructor | services/event-service/src/models/Event.js:115 | an empty collection |
| EventModel.EventCollection.FindById | services/event-service/src/routes/events.js:162-166 | null for an unknown id, otherwise a fresh document of the stored record |
| EventModel.CreateEvent | services/event-service/src/routes/events.js:87-105 | the created event is the body stamped with the caller as creator, after the hook; 500 and no change when validation fails |
| FeedbackModel.SchemaValid | services/event-service/src/models/Feedback.js:3-40 | the validators: event, user and name present, rating in 1..5, comment of at most 1000 characters |
| FeedbackModel.NewFeedback | services/event-service/src/models/Feedback.js:3-40 | a new review with the defaults: unedited, no update time, created at `now` |
| FeedbackModel.WriteOutcome | services/event-service/src/models/Feedback.js:3-42 | a validation error exactly when the validators fail; written exactly when they pass and no review under another id shares the (event, user) pair; a duplicate-key error otherwise |
| FeedbackModel.NewFeedbackDefaults | services/event-service/src/models/Feedback.js:23-39 | a new review is unedited, has no update time and is valid exactly when its fields are |
| FeedbackModel.WriteKeepsOnePerAuthor | services/event-service/src/models/Feedback.js:42 | a write the unique index accepts keeps at most one review per (event, user) |
| FeedbackModel.SecondReviewRefused | services/event-service/src/models/Feedback.js:42 | a second review by the same author of the same event is a duplicate-key error |
| FeedbackModel.FeedbackDoc.Loaded | services/event-service/src/routes/events.js:284 | a loaded review holds the stored record |
| FeedbackModel.FeedbackDoc.Save | services/event-service/src/routes/events.js:297 | validation, then the unique index; only a written review changes the collection |
| FeedbackModel.FeedbackCollection.constructor | services/event-service/src/models/Feedback.js:44 | an empty collection |
| FeedbackModel.FeedbackCollection.Write | services/event-service/src/models/Feedback.js:17-42 | writes exactly when the record is valid and its (event, user) pair is free; keeps the collection valid |
| FeedbackModel.FeedbackCollection.FindById | services/event-service/src/routes/events.js:284-287 | null for an unknown id, otherwise a fresh document of the stored review |
| FeedbackModel.FeedbackCollection.Delete | services/event-service/src/routes/events.js:321 | removes exactly that id |
| FeedbackRoutes.Eligibility | services/event-service/src/routes/events.js:200-209 | passes exactly for an answered lookup with a booking that is not cancelled; 400 when the lookup fails, 403 otherwise |
| FeedbackRoutes.CreateReply | services/event-service/src/routes/events.js:187-234 | the submit handler's reply: a refusal with status 400, 403, 404 or 500, or a submission; a submitted review has a numeric rating in 1..5, passed every guard and the validators, belongs to the caller and shares its (event, user) pair with no stored review |
| FeedbackRoutes.CreateRefusals | services/event-service/src/routes/events.js:191-209 | 404 for an unknown event before anything else; then 400 for a missing rating or a number outside 1..5; then the eligibility refusal; a rating that is not a number passes the guard and, for an eligible caller, ends in 500 when the review is written |
| FeedbackRoutes.DuplicateReviewRefused | services/event-service/src/routes/events.js:224-227 | an eligible author who already reviewed the event gets 400 'already submitted' |
| FeedbackRoutes.SubmittedReview | services/event-service/src/routes/events.js:211-223 | a submitted review carries the caller, the rating, the comment or '' and is unedited, and the store keeps one review per author |
| FeedbackRoutes.CreateFeedback | services/event-service/src/routes/events.js:187-234 | the reply is `CreateReply`; only a submitted review is stored, under the new id |
| FeedbackRoutes.EditReply | services/event-service/src/routes/events.js:276-307 | the edit handler's reply: a refusal with status 400, 403, 404 or 500, or an edit; an accepted edit had a numeric rating in 1..5, names a stored review of the caller, passes the validators, and is flagged as edited at `now` |
| FeedbackRoutes.OnlyAuthorEdits | services/event-service/src/routes/events.js:280-291 | 400 for a missing or out-of-range rating first, then 404 for an unknown review, then 403 for anyone but the author; the author's edit with a rating that is not a number passes the guard and ends in 500 when it is saved |
| FeedbackRoutes.AuthorEdit | services/event-service/src/routes/events.js:293-306 | the author's edit succeeds exactly when the comment fits; it sets rating, comment or '', `isEdited` and the update time and keeps the author and event |
| FeedbackRoutes.EditFeedback | services/event-service/src/routes/events.js:276-307 | the reply is `EditReply`; only an accepted edit changes the store |
| FeedbackRoutes.DeleteReply | services/event-service/src/routes/events.js:311-327 | removal exactly for the author of an existing review; 404 for an unknown one, 403 for others |
| FeedbackRoutes.DeleteFeedback | services/event-service/src/routes/events.js:310-328 | the reply is `DeleteReply`; only a removal changes the store |
| FeedbackRoutes.Stats | services/event-service/src/routes/events.js:255-266 | the breakdown has exactly the keys 1..5 and maps each star to the number of ratings equal to it; the total is the number of reviews; with no reviews every count and the total are 0 |
| FeedbackRoutes.CountsAreMultiplicities | services/event-service/src/routes/events.js:256-258 | the per-star count of a list of ratings is the star's multiplicity in it |
| FeedbackRoutes.StarCountsSum | services/event-service/src/routes/events.js:256-259 | the five star counts add up to the number of ratings in 1..5 |
| FeedbackRoutes.AllInRangeCount | services/event-service/src/models/Feedback.js:17-22 | when every stored rating obeys the schema, all of them are counted |
| FeedbackRoutes.BreakdownSums | services/event-service/src/routes/events.js:255-266 | for schema-valid ratings the breakdown sums to the total |
| BookingModel.SchemaValid | services/booking-service/src/models/Booking.js:3-81 | the validators: required fields, 1..10 tickets, a non-negative price, and the three enumerations |
| BookingModel.NewRecord | services/booking-service/src/models/Booking.js:3-81 | `new Booking(input)`: the input with the enumeration defaults, no total and no reference yet |
| BookingModel.NewRecordDefaults | services/booking-service/src/models/Booking.js:50-68 | absent payment status, method and booking status take 'pending', 'credit_card', 'pending'; no transaction id, total or reference yet |
| BookingModel.Reference | services/booking-service/src/models/Booking.js:86 | 'BKG', then exactly the timestamp's decimal digits, then exactly the random number's (1 to 3 digits); nothing but digits after the prefix |
| BookingModel.NatToStringInjective | services/booking-service/src/models/Booking.js:86 | distinct numbers have distinct decimal texts |
| BookingModel.ReferenceInjective | services/booking-service/src/models/Booking.js:86 | for timestamps of equal digit count, two references are equal exactly when timestamp and random number are |
| BookingModel.FirstSaveRecord | services/booking-service/src/models/Booking.js:84-91 | the first save of a valid booking sets a reference and a total between one and ten tickets' price |
| BookingModel.BookingDoc.Create | services/booking-service/src/models/Booking.js:3-81 | a new document holds the input with its defaults |
| BookingModel.BookingDoc.Loaded | services/booking-service/src/models/Booking.js:93 | a loaded document holds the stored record and is not new |
| BookingModel.BookingDoc.PreSave | services/booking-service/src/models/Booking.js:84-91 | new: reference and total set; always: `updatedAt` refreshed; nothing else changes |
| BookingModel.BookingDoc.Save | services/booking-service/src/models/Booking.js:69-91 | invalid records change nothing; a taken reference is a duplicate-key error that leaves the document new, so a retry runs the first-save hook again; otherwise the hooked record is written |
| BookingModel.WriteKeepsReferencesUnique | services/booking-service/src/models/Booking.js:69-72 | a write with a free reference keeps references unique |
| BookingModel.BookingCollection.constructor | services/booking-service/src/models/Booking.js:93 | an empty collection |
| BookingModel.BookingCollection.Write | services/booking-service/src/models/Booking.js:69-72 | refuses exactly a reference held by another booking; otherwise writes |
| BookingModel.SaveTwice | services/booking-service/src/models/Booking.js:84-91 | two saves of one new booking: once the first is written the second is written too; the document is then the first save's record (reference and total from the hook) with only `updatedAt` moved to the second time, and the stored copy equals it |
| AuthMiddleware.BearerToken | services/event-service/src/middleware/auth.js:8 | no header gives no token; a token is non-empty and holds no space |
| AuthMiddleware.TokenOfHeader | services/booking-service/src/middleware/auth.js:8 | whatever the scheme word, the second space-separated piece is the token |
| AuthMiddleware.NoTokenWithoutSecondPiece | services/event-service/src/middleware/auth.js:8-12 | a header without a space, or with two spaces in a row after the scheme, carries no token |
| AuthMiddleware.Gate | services/event-service/src/middleware/auth.js:6-29 | 401 'No token provided' without a token; otherwise continues exactly when the service answers valid, attaching its user; 401 'Invalid token' for an invalid answer and 'Authentication failed' for a failed call |
| AuthMiddleware.NoTokenIgnoresVerifier | services/booking-service/src/middleware/auth.js:8-12 | without a token the outcome is the same whatever the service would say |
| AuthMiddleware.GateDependsOnlyOnToken | services/booking-service/src/middleware/auth.js:14-24 | the outcome depends only on the service's answer for this token |
| AuthMiddleware.VerifierFailureRejects | services/booking-service/src/middleware/auth.js:25-28 | a failed verify call is a 401 and never lets the request through |
| AuthMiddleware.AdminCheck | services/event-service/src/middleware/auth.js:32-38 | continues exactly for an attached user with the role 'admin'; otherwise 403 |
| AuthMiddleware.AdminChain | services/event-service/src/middleware/auth.js:6-38 | both gates pass exactly when the token is accepted and the service names an admin |
| AuthMiddleware.Request.constructor | services/event-service/src/middleware/auth.js:8 | a request carries its header and no user |
| AuthMiddleware.Request.VerifyToken | services/event-service/src/middleware/auth.js:6-29 | the outcome is `Gate`'s; the user is attached only when the request goes on |
| TimeFormat.NoMeridiemInClockDigits | frontend/src/pages/AdminEvents.js:21 | a 'HH:MM' time never matches the AM/PM test |
| TimeFormat.FormatTime | frontend/src/pages/AdminEvents.js:19-31 | '' for '', any text containing AM or PM (any case) unchanged |
| TimeFormat.TwelveHour | frontend/src/pages/AdminEvents.js:25-28 | every hour of a 24-hour clock shows as an hour in 1..12 |
| TimeFormat.FormatClockTime | frontend/src/pages/MyBookings.js:9-21 | on 'HH:MM', under either radix rule, the hour is mapped 0 to 12 AM, 1..11 AM, 12 PM, 13..23 to hour-12 PM, and the minutes are copied |
| TimeFormat.ConvertTo24Hour | frontend/src/pages/AdminEvents.js:203-221 | a 'DD:DD' text and any text without the 12-hour pattern come back unchanged |
| TimeFormat.ConvertTwelveHour | frontend/src/pages/AdminEvents.js:207-218 | 'h:mm AM/PM' becomes the two-digit 24-hour hour: +12 for PM except 12, 12 AM is 00 |
| TimeFormat.ClockRoundTrip | frontend/src/pages/AdminEvents.js:19-31 | for 'HH:MM' with HH in 00..23, converting back after formatting gives the original |
| TimeFormat.TwelveHourRoundTrip | frontend/src/pages/AdminEvents.js:203-221 | for 'h:mm AM/PM' with h in 1..12, formatting the 24-hour form gives the original back |
| TimeFormat.RadixMatters | frontend/src/pages/MyBookings.js:14 | the two copies of `formatTime` differ: a '0x10' hour reads as 0 (12 AM) with radix 10 and as 16 (4 PM) without |
| JsString.TrimStart | services/event-service/src/models/Event.js:7 | removes exactly the leading whitespace |
| JsString.Trim | services/event-service/src/models/Event.js:7 | a slice of the input with only whitespace cut on either side, and no whitespace left at either end |
| JsString.TrimEnd | services/event-service/src/models/Event.js:24 | removes exactly the trailing whitespace |
| JsString.Split | frontend/src/pages/AdminEvents.js:23 | at least one piece, none containing the separator |
| JsString.JoinSplit | frontend/src/pages/Events.js:30 | joining the pieces of a split restores the string |
| JsString.SplitAtSeparator | services/event-service/src/middleware/auth.js:8 | text before the first separator is the first piece |
| JsString.NatToString | frontend/src/pages/AdminEvents.js:30 | decimal digits, no leading zero, reading back as the number |
| JsString.TwoDigitsRoundTrip | frontend/src/pages/AdminEvents.js:216 | padding the number of a two-digit text gives the text back |
| JsString.PadStart2 | frontend/src/pages/AdminEvents.js:216 | zero-filled on the left to two characters, keeping the text as suffix |
| JsString.LeadingDigits | frontend/src/pages/AdminEvents.js:207 | the longest digit prefix |
| JsString.ParseInt | frontend/src/pages/AdminEvents.js:24 | a number only when a decimal digit follows the whitespace and sign (under either radix rule); a negative one only after a '-' |
| JsString.ParseIntOfDigits | frontend/src/pages/AdminEvents.js:24 | a digit string parses to its value under either radix rule |
| JsString.ParseIntNaN | frontend/src/pages/AdminEvents.js:24 | `parseInt(s, 10)` is NaN exactly when no digit follows the whitespace and sign |
| UriEncoding.Utf8 | frontend/src/pages/Events.js:28 | one to four bytes, each below 256; a single byte exactly for code points below 128 |
| UriEncoding.Utf8Decodes | frontend/src/pages/Events.js:28 | the bytes are the UTF-8 form of the code point: lead byte pattern, continuation bytes, and the shortest length |
| UriEncoding.EncodeURIComponent | frontend/src/pages/Events.js:28 | never shorter than its input |
| UriEncoding.EncodedIsSafe | frontend/src/pages/Events.js:28 | the output holds only unreserved characters and '%' |
| UriEncoding.UnreservedUnchanged | frontend/src/pages/Events.js:28 | unreserved text is unchanged |
| UriEncoding.EncodedLength | frontend/src/pages/Events.js:28 | the length is kept exactly when nothing needed escaping |
| UriEncoding.DecodeURIComponent | frontend/src/pages/Events.js:28 | the inverse, `decodeURIComponent`, which refuses malformed escapes, overlong forms, surrogates and code points beyond U+10FFFF; a decoded text is never longer than its input |
| UriEncoding.DecodeEncode | frontend/src/pages/Events.js:28 | decoding the encoding of any text gives the text back |
| UriEncoding.EncodeInjective | frontend/src/pages/Events.js:28 | two texts with the same encoding are equal |
| UriEncoding.NoQuerySeparators | frontend/src/pages/Events.js:28-30 | the encoded search text holds no '?' or '&' |
| EventsPage.ListUrl | frontend/src/pages/Events.js:26-30 | the bare collection path exactly when neither filter is set |
| EventsPage.JoinedParameters | frontend/src/pages/Events.js:27-30 | the collected parameters are non-empty exactly when a filter is set, and joined by '&' they are the query string |
| EventsPage.BuildListUrl | frontend/src/pages/Events.js:26-30 | the URL is the collection path, then '?' and the search (encoded) and category parameters, each only when non-empty, joined by '&' |
| EventsPage.NoFiltersNoQuery | frontend/src/pages/Events.js:26-30 | with neither filter, exactly `base + '/events'` |
| EventsPage.PathComesFirst | frontend/src/pages/Events.js:26 | every URL starts with the collection path |
| EventsPage.OneQueryMark | frontend/src/pages/Events.js:30 | exactly one '?' when a filter is set and none otherwise (base and category free of '?') |
| EventsPage.QuerySplitsIntoParameters | frontend/src/pages/Events.js:28-30 | with both filters the query splits on '&' into the search parameter and then the category parameter |
| EventsPage.Shown | frontend/src/pages/Events.js:33-36 | the list shown is the answer's events, and empty when they are absent or the call failed |
| EventsPage.ListPage.constructor | frontend/src/pages/Events.js:8-9 | no events, loading |
| EventsPage.ListPage.FetchEvents | frontend/src/pages/Events.js:23-40 | requests the list URL, shows `Shown` of the answer and clears `loading` |
| AdminEventsPage.EventsBaseUrl | frontend/src/pages/AdminEvents.js:10-16 | always ends with '/events'; an address ending so is kept, any other gets '/events' appended |
| AdminEventsPage.ApiSuffixIsEventsSuffix | frontend/src/pages/AdminEvents.js:12 | an address ending in '/api/events' ends in '/events' |
| AdminEventsPage.EventsBaseUrlIdempotent | frontend/src/pages/AdminEvents.js:10-16 | normalising twice is normalising once |
| AdminEventsPage.FormError | frontend/src/pages/AdminEvents.js:96-132 | a reported message is one of the nine checks' messages |
| AdminEventsPage.FormErrorIsFirstFailure | frontend/src/pages/AdminEvents.js:96-132 | no message exactly when all nine checks pass; otherwise the message of a failing check whose predecessors all pass |
| AdminEventsPage.FirstFailing | frontend/src/pages/AdminEvents.js:96-132 | the first failing check from a position on, or 9 when none fails |
| AdminEventsPage.TitleCheckedFirst | frontend/src/pages/AdminEvents.js:99-102 | a short title is reported whatever else is wrong |
| AdminEventsPage.SubmittedImage | frontend/src/pages/AdminEvents.js:138-151 | the user's URL if given, otherwise the category's picture; never empty |
| AdminEventsPage.UnknownCategoryGetsOther | frontend/src/pages/AdminEvents.js:150 | an unknown category without a URL gets the picture of 'other' |
| AdminEventsPage.StoredToken | frontend/src/pages/AdminEvents.js:56-61 | the `\|\|` chain over the three storage keys: the first non-empty token, else the last lookup; usable exactly when one of the three is |
| AdminEventsPage.SubmitRequest | frontend/src/pages/AdminEvents.js:56-185 | a validation failure sends nothing; then a missing or empty token is 'not logged in' and sends nothing; otherwise a PUT to the event's URL when editing or a POST to the collection URL, with the picture filled in |
| AdminEventsPage.SentFormsAreValid | frontend/src/pages/AdminEvents.js:96-151 | every form sent passed validation and carries a picture |
| AdminEventsPage.FormState.constructor | frontend/src/pages/AdminEvents.js:36-50 | the empty form, closed, not editing |
| AdminEventsPage.FormState.HandleSubmit | frontend/src/pages/AdminEvents.js:93-200 | after an accepted request the form is cleared, closed and not editing; otherwise unchanged |
| MyBookingsPage.StatusColor | frontend/src/pages/MyBookings.js:111-119 | confirmed green, waitlisted amber, cancelled red, anything else grey |
| MyBookingsPage.ColorIdentifiesStatus | frontend/src/pages/MyBookings.js:111-119 | two statuses share a colour exactly when equal or both outside confirmed/waitlisted/cancelled |
| MyBookingsPage.PaymentLabel | frontend/src/pages/MyBookings.js:238-241 | '✓ Paid' for completed, '↺ Refunded' for refunded, the raw status otherwise |
| MyBookingsPage.CardFor | frontend/src/pages/MyBookings.js:245-255 | QR and cancel buttons exactly for confirmed bookings, the waitlist notice exactly for waitlisted ones |
| MyBookingsPage.ActionsExcludeNotice | frontend/src/pages/MyBookings.js:245-255 | never actions and notice together; nothing extra for cancelled or pending bookings |
| MyBookingsPage.QrPayload | frontend/src/pages/MyBookings.js:60-66 | at most the five keys, in order; exactly those five when the reference and date are present |
| MyBookingsPage.QrPayloadOnlyFiveFields | frontend/src/pages/MyBookings.js:60-66 | the payload depends on those five fields only |
| MyBookingsPage.CancelDialog.constructor | frontend/src/pages/MyBookings.js:26-28 | closed, nothing selected |
| MyBookingsPage.CancelDialog.Ask | frontend/src/pages/MyBookings.js:76-84 | selects the booking and opens the dialog |
| MyBookingsPage.CancelDialog.HandleCancel | frontend/src/pages/MyBookings.js:86-104 | with nothing selected nothing is sent or changed; otherwise the cancel URL of the selection is sent, the dialog closes and the selection clears after success |
| MyBookingsPage.CancelDialog.Close | frontend/src/pages/MyBookings.js:106-109 | closes and clears the selection |
| EventDetailPage.HasActiveBooking | frontend/src/pages/EventDetail.js:61-75 | true exactly for an answered lookup with a booking that is not cancelled; false for a failed one |
| EventDetailPage.PageAgreesWithService | frontend/src/pages/EventDetail.js:68 | the page's rule agrees with the event service's eligibility check on every lookup answer |
| EventDetailPage.ReviewFormShown | frontend/src/pages/EventDetail.js:320 | exactly for a logged-in user with an active booking |
| EventDetailPage.SectionFor | frontend/src/pages/EventDetail.js:196-229 | the booking form with max min(seats, 10) while seats remain, else the waitlist form with max 10 |
| EventDetailPage.TicketInput | frontend/src/pages/EventDetail.js:206 | `parseInt(v) \|\| 1`: NaN and 0 give 1, any other number is kept; never 0 |
| EventDetailPage.TicketDigits | frontend/src/pages/EventDetail.js:230 | typed digits give their number, 1 for zero |
| EventDetailPage.RequestFor | frontend/src/pages/EventDetail.js:94-101 | the request names the event, the tickets and 'credit_card'; `joinWaitlist` exactly when seats are fewer than tickets |
| EventDetailPage.SelectorAndWaitlistAgree | frontend/src/pages/EventDetail.js:100-228 | with seats left a count the selector allows never asks for the waitlist; on the waitlist form every count does |
| EventDetailPage.BookingPanel.constructor | frontend/src/pages/EventDetail.js:13-15 | one ticket, idle, no message |
| EventDetailPage.BookingPanel.SetTickets | frontend/src/pages/EventDetail.js:206 | the ticket count becomes `TicketInput` of the typed value |
| EventDetailPage.BookingPanel.HandleBooking | frontend/src/pages/EventDetail.js:77-123 | no user: redirect, nothing sent; tickets outside 1..10: error, nothing sent; otherwise one request, the waitlisted answer takes its own branch, and the panel ends idle |
| RegisterPage.RegistrationError | frontend/src/pages/Register.js:17-27 | no error exactly for a '@umd.edu' address and a password of at least 6 characters |
| RegisterPage.DomainCheckedFirst | frontend/src/pages/Register.js:18-21 | a foreign address is reported whatever the password |
| RegisterPage.PasswordMessage | frontend/src/pages/Register.js:24-27 | the password message appears exactly for a '@umd.edu' address with a short password |
| RegisterPage.RegisterForm.constructor | frontend/src/pages/Register.js:7-11 | empty fields, no error, not loading |
| RegisterPage.RegisterForm.HandleSubmit | frontend/src/pages/Register.js:13-47 | the error is cleared first; a failed check shows its message, sends nothing and leaves `loading`; a sent request that fails shows the service's or the generic error and clears `loading` |
| CategoryImages.ImageFor | services/event-service/src/models/Event.js:93-102 | the category's picture; 'other' and unknown names get the picture of 'other' |

## Left out

- Booking creation, cancellation, bulk cancel-all and waitlist promotion: `routes/bookings.js` of the booking service is not part of this model. The seat PATCH handler and the booking record are modelled, but not the orchestration that calls them.
- Concurrency: two requests can interleave between `findById` and `save` in the seat handler. Each handler is modelled as one atomic step.
- The event list's database query is not modelled: the category/status filter, the case-insensitive regular-expression search, the sort itself and the window. Only the sort choice, the page parameters and the page count are.
- The feedback average (`$avg` and `toFixed(2)`) is floating point and is left out; the total and the breakdown are modelled.
- Fractional prices, ratings and ticket counts, and numbers beyond 2^53: all numbers are integers.
- The admin update route (`PUT /api/events/:id`), the analytics routes, the single-event GET and the event DELETE handler are not in the model.
- Tags and text indexes of the event schema.
- JavaScript prototype keys (a category named 'constructor'): the picture lookup is treated as a plain table.
- UTF-16: strings are sequences of Unicode scalar values, so `length` counts characters rather than UTF-16 code units, and lone surrogates (for which `encodeURIComponent` throws) do not occur.
- Timers: the search debounce, the redirect after a booking and the one-second loader after registration. `RegisterPage.RegisterForm.HandleSubmit` hands the token and user on and leaves `loading` set, which is the state before the timer fires.
- Toasts, navigation, e-mail sending, QR image rendering, local storage and the analytics pages.
- The booking panel's request uses the event loaded by the page; a page whose event failed to load is not modelled.
- A `next()` handler that throws after `verifyToken` attached the user would be reported by the gate's catch as 401; the model treats the rest of the chain as separate.
- User identity: the event service stamps and checks reviews and events with `req.user._id` (routes/events.js:91, 214, 289, 317), while the event page compares `user.id` (EventDetail.js:492). The model has one `User.id` and assumes the authentication service's answer carries as `_id` the same id the pages read as `id`; the shape of that answer is not part of this model.
- The event id in the edit and delete review URLs is not used by those handlers, and the model ignores it as they do.
- Malformed ids: event and review ids stand for well-formed database ids. An id that is not one makes `findById` throw a cast error, which the seat, review submit, review edit and review delete handlers answer with 500 (routes/events.js:162, 191, 284, 312), not with the 404 the model gives for an id that is not stored.
- Negative page or limit values are modelled as parsed; the database's reaction to a negative skip or limit is not.
- BookingModel.ReferenceInjective: stated only for timestamps of equal digit count, because the random number is not zero-padded. For example, timestamp 12 with random number 34 and timestamp 123 with random number 4 both give 'BKG1234'.
- AdminEventsPage.FormError: its own contract only says the message is one of the nine. The order of the checks is stated by `FormErrorIsFirstFailure`.
