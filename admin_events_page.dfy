/** The admin event page: the normalised events URL, the event form's validation chain,
    the picture sent with a new or edited event, and what a submit does to the page.
    The 12-hour/24-hour time helpers of this page are in `TimeFormat`. */
module AdminEventsPage {
  import opened Common
  import opened JsString
  import CategoryImages

  /** `EVENTS_BASE_URL`: the configured event-service address (`''` when unset), used as
      it is when it already ends with '/events' or '/api/events', and with '/events'
      appended otherwise. */
  function EventsBaseUrl(base: string): (url: string)
    ensures EndsWith(url, "/events")
    ensures EndsWith(base, "/events") ==> url == base
    ensures !EndsWith(base, "/events") ==> url == base + "/events"
  {
    if EndsWith(base, "/events") || EndsWith(base, "/api/events") then base
    else
      var url := base + "/events";
      assert url[|url| - 7..] == "/events";
      url
  }

  /** The '/api/events' test adds nothing: such an address already ends with '/events'. */
  lemma ApiSuffixIsEventsSuffix(base: string)
    requires EndsWith(base, "/api/events")
    ensures EndsWith(base, "/events")
  {
    assert base[|base| - 7..] == base[|base| - 11..][4..];
  }

  /** Normalising twice is normalising once. */
  lemma EventsBaseUrlIdempotent(base: string)
    ensures EventsBaseUrl(EventsBaseUrl(base)) == EventsBaseUrl(base)
  {
  }

  /** The date input: empty, a date the browser parses (milliseconds since the epoch),
      or a string it cannot parse. */
  datatype DateField = NoDate | At(ms: int) | Unparseable

  /** A number input: empty, or a number. */
  datatype NumberField = Blank | Value(n: int)

  datatype EventForm = EventForm(
    title: string, description: string, category: string, venue: string,
    date: DateField, time: string, capacity: NumberField, price: NumberField,
    organizer: string, imageUrl: string)

  const TitleTooShort := "Event title must be at least 3 characters"
  const DescriptionTooShort := "Description must be at least 10 characters"
  const VenueTooShort := "Venue must be at least 3 characters"
  const DateMissing := "Please select an event date"
  const DateNotFuture := "Event date must be in the future"
  const TimeMissing := "Please select an event time"
  const CapacityTooSmall := "Capacity must be at least 1"
  const PriceNegative := "Price cannot be negative"
  const OrganizerTooShort := "Organizer name must be at least 3 characters"
  const NotLoggedIn := "You must be logged in as an admin to manage events"

  /** The messages of the nine checks, in the order they run. */
  const Messages: seq<string> := [TitleTooShort, DescriptionTooShort, VenueTooShort,
    DateMissing, DateNotFuture, TimeMissing, CapacityTooSmall, PriceNegative, OrganizerTooShort]

  /** Whether check `k` fails. A date the browser cannot parse compares false with the
      clock, so it passes the future-date check; the same holds for the number checks. */
  predicate Fails(form: EventForm, now: int, k: nat)
    requires k < 9
  {
    match k
    case 0 => |form.title| < 3
    case 1 => |form.description| < 10
    case 2 => |form.venue| < 3
    case 3 => form.date.NoDate?
    case 4 => form.date.At? && form.date.ms <= now
    case 5 => form.time == ""
    case 6 => form.capacity.Blank? || form.capacity.n < 1
    case 7 => form.price.Blank? || form.price.n < 0
    case _ => |form.organizer| < 3
  }

  /** The validation chain of `handleSubmit`: the message of the first check that fails,
      or nothing when every check passes. */
  function FormError(form: EventForm, now: int): (error: Option<string>)
    ensures error.Some? ==> error.value in Messages
  {
    if |form.title| < 3 then Some(TitleTooShort)
    else if |form.description| < 10 then Some(DescriptionTooShort)
    else if |form.venue| < 3 then Some(VenueTooShort)
    else if form.date.NoDate? then Some(DateMissing)
    else if form.date.At? && form.date.ms <= now then Some(DateNotFuture)
    else if form.time == "" then Some(TimeMissing)
    else if form.capacity.Blank? || form.capacity.n < 1 then Some(CapacityTooSmall)
    else if form.price.Blank? || form.price.n < 0 then Some(PriceNegative)
    else if |form.organizer| < 3 then Some(OrganizerTooShort)
    else None
  }

  /** The chain reports exactly the first failing check: no message when all nine pass,
      and otherwise the message of a failing check all of whose predecessors pass. */
  lemma FormErrorIsFirstFailure(form: EventForm, now: int)
    ensures FormError(form, now).None? <==> forall k :: 0 <= k < 9 ==> !Fails(form, now, k)
    ensures FormError(form, now).Some? ==>
      exists k :: 0 <= k < 9 && FormError(form, now).value == Messages[k] && Fails(form, now, k) &&
        forall j :: 0 <= j < k ==> !Fails(form, now, j)
  {
    var k := FirstFailing(form, now, 0);
    if k < 9 {
      assert FormError(form, now) == Some(Messages[k]);
    }
  }

  /** The first failing check from `from` on, or 9 when none fails. */
  function FirstFailing(form: EventForm, now: int, from: nat): (k: nat)
    requires from <= 9
    ensures from <= k <= 9
    ensures k < 9 ==> Fails(form, now, k)
    ensures forall j :: from <= j < k ==> !Fails(form, now, j)
    decreases 9 - from
  {
    if from == 9 then 9 else if Fails(form, now, from) then from else FirstFailing(form, now, from + 1)
  }

  /** Each message names one check, so the message shown identifies the check that
      failed first. */
  lemma MessagesDistinct()
    ensures forall i, j :: 0 <= i < j < 9 ==> Messages[i] != Messages[j]
  {
  }

  /** A short title is reported whatever else is wrong with the form. */
  lemma TitleCheckedFirst(form: EventForm, now: int)
    requires |form.title| < 3
    ensures FormError(form, now) == Some(TitleTooShort)
  {
  }

  /** `formData.imageUrl || categoryImages[formData.category] || categoryImages.other`. */
  function SubmittedImage(imageUrl: string, category: string): (url: string)
    ensures imageUrl != "" ==> url == imageUrl
    ensures imageUrl == "" ==> url == CategoryImages.ImageFor(category)
    ensures url != ""
  {
    if imageUrl != "" then imageUrl else CategoryImages.ImageFor(category)
  }

  /** Without a URL of the user's, an unknown category gets the picture of 'other'. */
  lemma UnknownCategoryGetsOther(category: string)
    requires category !in CategoryImages.Categories
    ensures SubmittedImage("", category) == CategoryImages.OtherImage
  {
  }

  /** A stored value is truthy: present and not the empty string. */
  predicate Truthy(v: Option<string>) {
    v.Some? && v.value != ""
  }

  /** `getItem('token') || getItem('authToken') || getItem('accessToken')`: the first
      truthy of the three stored values, or the last one when none is. */
  function StoredToken(token: Option<string>, authToken: Option<string>, accessToken: Option<string>)
    : (t: Option<string>)
    ensures Truthy(t) <==> Truthy(token) || Truthy(authToken) || Truthy(accessToken)
    ensures Truthy(token) ==> t == token
    ensures !Truthy(token) && Truthy(authToken) ==> t == authToken
    ensures !Truthy(token) && !Truthy(authToken) ==> t == accessToken
  {
    if Truthy(token) then token else if Truthy(authToken) then authToken else accessToken
  }

  /** What a submit does: nothing but a message, or one request. */
  datatype Submission =
    | Rejected(message: string)
    | Post(url: string, body: EventForm)
    | Put(url: string, body: EventForm)

  /** `handleSubmit` up to the request: validation, then the token (`StoredToken`; a
      falsy one means the admin is not logged in), then a PUT to the event's URL when
      editing or a POST to the collection URL, with the picture filled in. */
  function SubmitRequest(base: string, form: EventForm, now: int, token: Option<string>,
                         editing: Option<string>): (s: Submission)
    ensures FormError(form, now).Some? ==> s == Rejected(FormError(form, now).value)
    ensures FormError(form, now).None? && !Truthy(token) ==> s == Rejected(NotLoggedIn)
    ensures !s.Rejected? <==> FormError(form, now).None? && Truthy(token)
    ensures s.Post? <==> !s.Rejected? && editing.None?
    ensures s.Post? ==> s.url == EventsBaseUrl(base)
    ensures s.Put? ==> s.url == EventsBaseUrl(base) + "/" + editing.value
    ensures !s.Rejected? ==> s.body == form.(imageUrl := SubmittedImage(form.imageUrl, form.category))
  {
    match FormError(form, now)
    case Some(message) => Rejected(message)
    case None =>
      if !Truthy(token) then Rejected(NotLoggedIn)
      else
        var body := form.(imageUrl := SubmittedImage(form.imageUrl, form.category));
        if editing.Some? then Put(EventsBaseUrl(base) + "/" + editing.value, body)
        else Post(EventsBaseUrl(base), body)
  }

  /** Every request the page sends carries a picture and a form that passed validation. */
  lemma SentFormsAreValid(base: string, form: EventForm, now: int, token: Option<string>,
                          editing: Option<string>)
    ensures var s := SubmitRequest(base, form, now, token, editing);
      !s.Rejected? ==> s.body.imageUrl != "" && FormError(s.body, now).None?
  {
    var s := SubmitRequest(base, form, now, token, editing);
    if !s.Rejected? {
      FormErrorIgnoresImage(form, now, SubmittedImage(form.imageUrl, form.category));
    }
  }

  /** The validation chain does not look at the picture. */
  lemma FormErrorIgnoresImage(form: EventForm, now: int, imageUrl: string)
    ensures FormError(form.(imageUrl := imageUrl), now) == FormError(form, now)
  {
  }

  /** The empty form the page starts with and returns to after a successful submit. */
  const EmptyForm := EventForm("", "", "conference", "", NoDate, "", Blank, Blank, "", "")

  /** The state of the admin page's form. */
  class FormState {
    var form: EventForm
    var showForm: bool
    var editingId: Option<string>

    constructor ()
      ensures form == EmptyForm && !showForm && editingId.None?
    {
      form := EmptyForm;
      showForm := false;
      editingId := None;
    }

    /** `handleSubmit`: computes the request; after a request the service accepted, the
        form is closed, editing ends and the fields are cleared; a rejected or failed
        submit leaves the form as it was. `send` stands for the HTTP call and says
        whether it succeeded. */
    method HandleSubmit(base: string, now: int, token: Option<string>, send: Submission -> bool)
      returns (s: Submission)
      modifies this
      ensures s == SubmitRequest(base, old(form), now, token, old(editingId))
      ensures !s.Rejected? && send(s) ==> form == EmptyForm && !showForm && editingId.None?
      ensures s.Rejected? || !send(s) ==>
        form == old(form) && showForm == old(showForm) && editingId == old(editingId)
    {
      s := SubmitRequest(base, form, now, token, editingId);
      if !s.Rejected? && send(s) {
        showForm := false;
        editingId := None;
        form := EmptyForm;
      }
    }
  }
}
