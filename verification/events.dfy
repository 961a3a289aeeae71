/** The event controller's write side and single-event reads
    (backend/controllers/eventController.js): create, update, delete, fetch
    one, list the caller's own. */
module Events {
  import opened Maybe
  import opened Text
  import opened Domain
  import opened Store

  /** A `POST /events` body. The schema's required fields always arrive (an
      absent string is the empty string); the counters, `organizer` and
      `status` arrive only if the client sends them. */
  datatype EventBody = EventBody(
    title: string,
    description: string,
    category: string,
    location: string,
    venue: string,
    date: int,
    time: string,
    price: int,
    totalSeats: int,
    availableSeats: Option<int>,
    bookingCount: Option<int>,
    averageRating: Option<real>,
    reviewCount: Option<int>,
    organizer: Option<nat>,
    status: Option<string>)

  /** The Event schema's validators on a new document. */
  predicate BodyValid(b: EventBody) {
    && Trim(b.title) != [] && b.description != [] && b.location != [] && b.venue != [] && b.time != []
    && ParseCategory(b.category).Some?
    && b.price >= 0
    && b.totalSeats >= 1
  }

  /** The body's content as stored: the title trimmed (the schema's
      `trim: true`), every other content field exactly as sent. */
  predicate KeepsContent(b: EventBody, e: Event) {
    && e.title == Trim(b.title) && e.description == b.description
    && CategoryName(e.category) == b.category
    && e.location == b.location && e.venue == b.venue && e.date == b.date && e.time == b.time
    && e.price == b.price && e.totalSeats == b.totalSeats
  }

  /** The document `Event.create({ ...req.body, organizer, status: 'pending' })`
      stores: body fields, schema defaults for absent counters, and the
      pre-save hook's `availableSeats = totalSeats` when the body's value is
      absent or 0. */
  function Draft(id: nat, organizer: nat, b: EventBody): (e: Event)
    requires BodyValid(b)
    ensures EventFieldsValid(e)
  {
    Event(
      id := id,
      title := Trim(b.title),
      description := b.description,
      category := ParseCategory(b.category).value,
      location := b.location,
      venue := b.venue,
      date := b.date,
      time := b.time,
      price := b.price,
      totalSeats := b.totalSeats,
      availableSeats := if b.availableSeats.None? || b.availableSeats == Some(0) then b.totalSeats else b.availableSeats.value,
      organizer := organizer,
      status := Pending,
      bookingCount := if b.bookingCount.Some? then b.bookingCount.value else 0,
      averageRating := if b.averageRating.Some? then b.averageRating.value else 0.0,
      reviewCount := if b.reviewCount.Some? then b.reviewCount.value else 0)
  }

  /** `createEvent` as written: the body is spread into the document, so a
      client-sent `availableSeats` (anything but 0) and client-sent counters
      survive. Schema validation runs before the pre-save hook, so the
      `required` validator on `availableSeats` refuses a body without one
      before the hook could fill it in. */
  function CreateEventAsWritten(s: State, caller: Account, b: EventBody): (out: (Response<Event>, State))
    requires caller.role == Organizer
    ensures out.0.Ok? <==> BodyValid(b) && b.availableSeats.Some?
    ensures !out.0.Ok? ==> out == (ServerError, s)
    ensures out.0.Ok? ==>
      var e := out.0.value;
      && e.status == Pending && e.organizer == caller.id && e.id == s.nextId
      && KeepsContent(b, e)
      && e.availableSeats == (if b.availableSeats.value != 0 then b.availableSeats.value else b.totalSeats)
      && e.bookingCount == (if b.bookingCount.Some? then b.bookingCount.value else 0)
      && e.averageRating == (if b.averageRating.Some? then b.averageRating.value else 0.0)
      && e.reviewCount == (if b.reviewCount.Some? then b.reviewCount.value else 0)
      && out.1 == s.(events := s.events + [e], nextId := s.nextId + 1)
  {
    if !BodyValid(b) || b.availableSeats.None? then (ServerError, s)
    else
      var e := Draft(s.nextId, caller.id, b);
      (Ok(e), s.(events := s.events + [e], nextId := s.nextId + 1))
  }

  /** `createEvent` as intended: the new event is `pending`, owned by the
      caller whatever the body says, has all its seats free and no bookings
      or reviews counted. */
  function CreateEvent(s: State, caller: Account, b: EventBody): (out: (Response<Event>, State))
    requires caller.role == Organizer
    ensures out.0.Ok? <==> BodyValid(b)
    ensures !out.0.Ok? ==> out == (ServerError, s)
    ensures out.0.Ok? ==>
      var e := out.0.value;
      && e.status == Pending && e.organizer == caller.id && e.id == s.nextId
      && KeepsContent(b, e) && e.availableSeats == e.totalSeats
      && e.bookingCount == 0 && e.reviewCount == 0 && e.averageRating == 0.0
      && out.1 == s.(events := s.events + [e], nextId := s.nextId + 1)
  {
    if !BodyValid(b) then (ServerError, s)
    else
      var e := Draft(s.nextId, caller.id, b).(availableSeats := b.totalSeats, bookingCount := 0,
                                             averageRating := 0.0, reviewCount := 0);
      (Ok(e), s.(events := s.events + [e], nextId := s.nextId + 1))
  }

  /** A fresh event starts its ledgers at zero, so creation keeps the invariant. */
  lemma CreateEventPreservesValid(s: State, caller: Account, b: EventBody)
    requires caller.role == Organizer
    requires Valid(s)
    ensures Valid(CreateEvent(s, caller, b).1)
  {
    var out := CreateEvent(s, caller, b);
    if out.0.Ok? {
      FreshEventKeepsValid(s, out.0.value);
    }
  }

  lemma FreshEventKeepsValid(s: State, e: Event)
    requires Valid(s)
    requires e.id == s.nextId && EventFieldsValid(e)
    requires e.availableSeats == e.totalSeats && e.bookingCount == 0
    requires e.reviewCount == 0 && e.averageRating == 0.0
    ensures Valid(s.(events := s.events + [e], nextId := s.nextId + 1))
  {
    FreshEventKeepsWellFormed(s, e);
    FreshEventLedgers(s, e);
  }

  lemma FreshEventKeepsWellFormed(s: State, e: Event)
    requires WellFormed(s)
    requires e.id == s.nextId && EventFieldsValid(e)
    ensures WellFormed(s.(events := s.events + [e], nextId := s.nextId + 1))
  {
  }

  lemma FreshEventLedgers(s: State, e: Event)
    requires Valid(s)
    requires e.id == s.nextId && EventFieldsValid(e)
    requires e.availableSeats == e.totalSeats && e.bookingCount == 0
    requires e.reviewCount == 0 && e.averageRating == 0.0
    ensures forall j :: 0 <= j < |s.events + [e]| ==> SeatLedger((s.events + [e])[j], s.bookings)
    ensures forall j :: 0 <= j < |s.events + [e]| ==> RatingLedger((s.events + [e])[j], s.reviews)
  {
    NothingRefersToFreshId(s, e.id);
    ZeroLedgers(e, s.bookings, s.reviews);
    forall j | 0 <= j < |s.events + [e]|
      ensures SeatLedger((s.events + [e])[j], s.bookings) && RatingLedger((s.events + [e])[j], s.reviews)
    {
      if j < |s.events| { assert (s.events + [e])[j] == s.events[j]; }
    }
  }

  /** An event nothing refers to has its ledgers at zero. */
  lemma ZeroLedgers(e: Event, bs: seq<Booking>, rs: seq<Review>)
    requires BookingsFor(bs, e.id) == [] && ReviewsFor(rs, e.id) == []
    requires e.availableSeats == e.totalSeats >= 0 && e.bookingCount == 0
    requires e.reviewCount == 0 && e.averageRating == 0.0
    ensures SeatLedger(e, bs) && RatingLedger(e, rs)
  {
    assert SeatsTotal(BookingsFor(bs, e.id)) == 0;
    assert Mean(ReviewsFor(rs, e.id)) == 0.0;
  }

  /** The as-written creation lets the client choose the free seats: a new
      event whose body carries `availableSeats` other than 0 and the
      capacity starts with its seat ledger broken, so the state is no longer
      valid (with more seats than the capacity, the event can be oversold). */
  lemma CreateEventAsWrittenBreaksLedger(s: State, caller: Account, b: EventBody)
    requires Valid(s)
    requires caller.role == Organizer
    requires BodyValid(b)
    requires b.availableSeats.Some? && b.availableSeats.value != 0 && b.availableSeats.value != b.totalSeats
    ensures !Valid(CreateEventAsWritten(s, caller, b).1)
  {
    var out := CreateEventAsWritten(s, caller, b);
    var e := out.0.value;
    NothingRefersToFreshId(s, e.id);
    assert out.1.events[|s.events|] == e;
    assert !SeatLedger(e, out.1.bookings);
  }

  /** A body without `availableSeats`, such as the organizer's creation
      form sends, is refused by the as-written creation however valid the
      rest of it is, and accepted by the corrected one. */
  lemma FormBodyRefusedAsWritten(s: State, caller: Account, b: EventBody)
    requires caller.role == Organizer
    requires BodyValid(b) && b.availableSeats.None?
    ensures CreateEventAsWritten(s, caller, b) == (ServerError, s)
    ensures CreateEvent(s, caller, b).0.Ok?
    ensures CreateEvent(s, caller, b).0.value.availableSeats == b.totalSeats
  {
  }

  /** A `PUT /events/:id` body: any schema field may be present. */
  datatype EventPatch = EventPatch(
    title: Option<string>,
    description: Option<string>,
    category: Option<string>,
    location: Option<string>,
    venue: Option<string>,
    date: Option<int>,
    time: Option<string>,
    price: Option<int>,
    totalSeats: Option<int>,
    availableSeats: Option<int>,
    organizer: Option<nat>,
    status: Option<string>,
    bookingCount: Option<int>,
    averageRating: Option<real>,
    reviewCount: Option<int>)

  /** The update validators (`runValidators: true`) on the fields present. */
  predicate PatchValid(p: EventPatch) {
    && (p.title.Some? ==> Trim(p.title.value) != [])
    && (p.description.Some? ==> p.description.value != [])
    && (p.location.Some? ==> p.location.value != [])
    && (p.venue.Some? ==> p.venue.value != [])
    && (p.time.Some? ==> p.time.value != [])
    && (p.category.Some? ==> ParseCategory(p.category.value).Some?)
    && (p.price.Some? ==> p.price.value >= 0)
    && (p.totalSeats.Some? ==> p.totalSeats.value >= 1)
    && (p.status.Some? ==> ParseStatus(p.status.value).Some?)
  }

  function Or<T>(o: Option<T>, d: T): T {
    if o.Some? then o.value else d
  }

  /** `findByIdAndUpdate(id, req.body)`: every field present replaces the stored one. */
  function ApplyPatch(e: Event, p: EventPatch): Event
    requires PatchValid(p)
  {
    e.(title := if p.title.Some? then Trim(p.title.value) else e.title,
       description := Or(p.description, e.description),
       category := if p.category.Some? then ParseCategory(p.category.value).value else e.category,
       location := Or(p.location, e.location),
       venue := Or(p.venue, e.venue),
       date := Or(p.date, e.date),
       time := Or(p.time, e.time),
       price := Or(p.price, e.price),
       totalSeats := Or(p.totalSeats, e.totalSeats),
       availableSeats := Or(p.availableSeats, e.availableSeats),
       organizer := Or(p.organizer, e.organizer),
       status := if p.status.Some? then ParseStatus(p.status.value).value else e.status,
       bookingCount := Or(p.bookingCount, e.bookingCount),
       averageRating := Or(p.averageRating, e.averageRating),
       reviewCount := Or(p.reviewCount, e.reviewCount))
  }

  /** What applying a valid patch does to the fields the contracts speak of. */
  lemma PatchApplied(e: Event, p: EventPatch)
    requires PatchValid(p)
    ensures PatchedContent(e, p, ApplyPatch(e, p))
    ensures p.status.Some? ==> StatusName(ApplyPatch(e, p).status) == p.status.value
    ensures p.status.None? ==> ApplyPatch(e, p).status == e.status
    ensures p.organizer.Some? ==> ApplyPatch(e, p).organizer == p.organizer.value
    ensures p.organizer.None? ==> ApplyPatch(e, p).organizer == e.organizer
  {
  }

  /** `e'` is `e` with the patch's present fields, other than organizer and
      status, replaced and the rest kept. */
  predicate PatchedContent(e: Event, p: EventPatch, e': Event) {
    && e'.id == e.id
    && (p.price.Some? ==> e'.price == p.price.value) && (p.price.None? ==> e'.price == e.price)
    && (p.totalSeats.Some? ==> e'.totalSeats == p.totalSeats.value) && (p.totalSeats.None? ==> e'.totalSeats == e.totalSeats)
    && (p.availableSeats.Some? ==> e'.availableSeats == p.availableSeats.value)
    && (p.availableSeats.None? ==> e'.availableSeats == e.availableSeats)
    && (p.category.Some? ==> CategoryName(e'.category) == p.category.value) && (p.category.None? ==> e'.category == e.category)
    && (p.title.Some? ==> e'.title == Trim(p.title.value)) && (p.title.None? ==> e'.title == e.title)
    && (p.date.Some? ==> e'.date == p.date.value) && (p.date.None? ==> e'.date == e.date)
    && (p.location.Some? ==> e'.location == p.location.value) && (p.location.None? ==> e'.location == e.location)
    && (p.description.Some? ==> e'.description == p.description.value) && (p.description.None? ==> e'.description == e.description)
    && (p.venue.Some? ==> e'.venue == p.venue.value) && (p.venue.None? ==> e'.venue == e.venue)
    && (p.time.Some? ==> e'.time == p.time.value) && (p.time.None? ==> e'.time == e.time)
    && (p.bookingCount.Some? ==> e'.bookingCount == p.bookingCount.value) && (p.bookingCount.None? ==> e'.bookingCount == e.bookingCount)
    && (p.averageRating.Some? ==> e'.averageRating == p.averageRating.value)
    && (p.averageRating.None? ==> e'.averageRating == e.averageRating)
    && (p.reviewCount.Some? ==> e'.reviewCount == p.reviewCount.value) && (p.reviewCount.None? ==> e'.reviewCount == e.reviewCount)
  }

  /** `updateEvent` as written: after the ownership check the whole body is
      applied, `organizer` and `status` included. */
  function UpdateEventAsWritten(s: State, caller: Account, id: nat, p: EventPatch): (out: (Response<Event>, State))
    requires WellFormed(s)
    requires caller.role == Organizer
    ensures !HasEvent(s.events, id) ==> out == (NotFound, s)
    ensures forall i :: 0 <= i < |s.events| && s.events[i].id == id ==>
      var e := s.events[i];
      && (e.organizer != caller.id ==> out == (Forbidden, s))
      && (e.organizer == caller.id && !PatchValid(p) ==> out == (ServerError, s))
      && (out.0.Ok? <==> e.organizer == caller.id && PatchValid(p))
      && (out.0.Ok? ==>
            && PatchedContent(e, p, out.0.value)
            && (p.status.Some? ==> StatusName(out.0.value.status) == p.status.value)
            && (p.status.None? ==> out.0.value.status == e.status)
            && (p.organizer.Some? ==> out.0.value.organizer == p.organizer.value)
            && (p.organizer.None? ==> out.0.value.organizer == e.organizer)
            && out.1 == s.(events := s.events[i := out.0.value]))
    ensures !out.0.Ok? ==> out.1 == s
  {
    match EventIndex(s.events, id)
    case None => (NotFound, s)
    case Some(i) =>
      OnlyIndex(s.events, s.nextId, i);
      var e := s.events[i];
      if e.organizer != caller.id then (Forbidden, s)
      else if !PatchValid(p) then (ServerError, s)
      else
        var e' := ApplyPatch(e, p);
        PatchApplied(e, p);
        (Ok(e'), s.(events := s.events[i := e']))
  }

  /** `updateEvent` as intended: the owner edits the event's content, but the
      approval status and the owner stay as they were. */
  function UpdateEvent(s: State, caller: Account, id: nat, p: EventPatch): (out: (Response<Event>, State))
    requires WellFormed(s)
    requires caller.role == Organizer
    ensures !HasEvent(s.events, id) ==> out == (NotFound, s)
    ensures forall i :: 0 <= i < |s.events| && s.events[i].id == id ==>
      var e := s.events[i];
      var q := p.(organizer := None, status := None);
      && (e.organizer != caller.id ==> out == (Forbidden, s))
      && (out.0.Ok? <==> e.organizer == caller.id && PatchValid(q))
      && (out.0.Ok? ==>
            && PatchedContent(e, p, out.0.value)
            && out.0.value.status == e.status
            && out.0.value.organizer == e.organizer
            && out.1 == s.(events := s.events[i := out.0.value]))
    ensures !out.0.Ok? ==> out.1 == s
  {
    ContentIgnoresOwnerAndStatus(p);
    UpdateEventAsWritten(s, caller, id, p.(organizer := None, status := None))
  }

  /** Clearing `organizer` and `status` from a patch changes nothing it says
      about the content. */
  lemma ContentIgnoresOwnerAndStatus(p: EventPatch)
    ensures forall e, e' :: PatchedContent(e, p.(organizer := None, status := None), e') <==> PatchedContent(e, p, e')
  {
  }

  /** A patch that sets nothing but the status. */
  function StatusPatch(status: string): EventPatch {
    EventPatch(None, None, None, None, None, None, None, None, None, None, None, Some(status), None, None, None)
  }

  /** The as-written update lets an organizer approve their own pending
      event, bypassing the administrator. */
  lemma OwnerSelfApproves(s: State, caller: Account, i: nat)
    requires WellFormed(s)
    requires caller.role == Organizer
    requires i < |s.events| && s.events[i].organizer == caller.id && s.events[i].status == Pending
    ensures UpdateEventAsWritten(s, caller, s.events[i].id, StatusPatch("approved")).0.Ok?
    ensures UpdateEventAsWritten(s, caller, s.events[i].id, StatusPatch("approved")).0.value.status == Approved
    ensures UpdateEventAsWritten(s, caller, s.events[i].id, StatusPatch("approved")).1.events[i].status == Approved
  {
    assert PatchValid(StatusPatch("approved"));
  }

  /** The corrected update leaves the same event pending. */
  lemma OwnerCannotSelfApprove(s: State, caller: Account, i: nat)
    requires WellFormed(s)
    requires caller.role == Organizer
    requires i < |s.events| && s.events[i].organizer == caller.id && s.events[i].status == Pending
    ensures UpdateEvent(s, caller, s.events[i].id, StatusPatch("approved")).0.Ok?
    ensures UpdateEvent(s, caller, s.events[i].id, StatusPatch("approved")).1.events[i].status == Pending
  {
    assert PatchValid(StatusPatch("approved").(organizer := None, status := None));
  }

  /** An update keeps ids, schema validity and the other collections intact. */
  lemma UpdateEventPreservesWellFormed(s: State, caller: Account, id: nat, p: EventPatch)
    requires WellFormed(s)
    requires caller.role == Organizer
    ensures WellFormed(UpdateEvent(s, caller, id, p).1)
  {
    var q := p.(organizer := None, status := None);
    match EventIndex(s.events, id)
    case None =>
    case Some(i) =>
      if s.events[i].organizer == caller.id && PatchValid(q) {
        var e := ApplyPatch(s.events[i], q);
        PatchKeepsFields(s.events[i], q);
        ReplaceEventAt(s.events, s.nextId, i, e);
        assert UpdateEvent(s, caller, id, p).1 == s.(events := s.events[i := e]);
      }
  }

  /** A valid patch keeps the schema's field constraints. */
  lemma PatchKeepsFields(e: Event, p: EventPatch)
    requires EventFieldsValid(e) && PatchValid(p)
    ensures EventFieldsValid(ApplyPatch(e, p)) && ApplyPatch(e, p).id == e.id
  {
    if p.title.Some? {
      TrimIdempotent(p.title.value);
    }
  }

  /** `deleteEvent`: 404, 403 for a non-owner, otherwise exactly that event is
      removed. Its bookings and reviews stay behind (no cascade). */
  function DeleteEvent(s: State, caller: Account, id: nat): (out: (Response<()>, State))
    requires WellFormed(s)
    requires caller.role == Organizer
    ensures !HasEvent(s.events, id) ==> out == (NotFound, s)
    ensures forall i :: 0 <= i < |s.events| && s.events[i].id == id ==>
      && (s.events[i].organizer != caller.id <==> out == (Forbidden, s))
      && (out.0.Ok? <==> s.events[i].organizer == caller.id)
      && (out.0.Ok? ==> out.1 == s.(events := s.events[..i] + s.events[i + 1..]))
    ensures out.0.Ok? ==> forall e :: e in out.1.events <==> e in s.events && e.id != id
    ensures !out.0.Ok? ==> out.1 == s
  {
    match EventIndex(s.events, id)
    case None => (NotFound, s)
    case Some(i) =>
      OnlyIndex(s.events, s.nextId, i);
      if s.events[i].organizer != caller.id then (Forbidden, s)
      else (Ok(()), Remove(s, i))
  }

  /** The state without its `i`-th event. */
  function Remove(s: State, i: nat): (s': State)
    requires WellFormed(s)
    requires i < |s.events|
    ensures s' == s.(events := s.events[..i] + s.events[i + 1..])
    ensures forall e :: e in s'.events <==> e in s.events && e.id != s.events[i].id
    ensures WellFormed(s')
  {
    RemoveEventAt(s.events, s.nextId, i);
    s.(events := s.events[..i] + s.events[i + 1..])
  }

  /** Removing an event keeps every remaining event's ledgers. */
  lemma DeleteEventPreservesValid(s: State, caller: Account, id: nat)
    requires Valid(s)
    requires caller.role == Organizer
    ensures Valid(DeleteEvent(s, caller, id).1)
  {
    if DeleteEvent(s, caller, id).0.Ok? {
      var i := EventIndex(s.events, id).value;
      assert DeleteEvent(s, caller, id).1 == Remove(s, i);
      RemoveKeepsValid(s, i);
    }
  }

  lemma RemoveKeepsValid(s: State, i: nat)
    requires Valid(s) && i < |s.events|
    ensures Valid(Remove(s, i))
  {
    LedgersOfSubset(s, Remove(s, i).events);
  }

  /** `getEventById`: any event, whatever its status; 404 if absent. */
  function GetEventById(s: State, id: nat): (r: Response<Event>)
    ensures r.NotFound? <==> !HasEvent(s.events, id)
    ensures r.Ok? ==> r.value in s.events && r.value.id == id
    ensures r.NotFound? || r.Ok?
  {
    match EventIndex(s.events, id)
    case None => NotFound
    case Some(i) => Ok(s.events[i])
  }

  predicate IdsDecreasing(es: seq<Event>) {
    forall i, j :: 0 <= i < j < |es| ==> es[i].id > es[j].id
  }

  /** `getOrganizerEvents`: the caller's events, newest first. */
  function GetOrganizerEvents(s: State, caller: Account): (r: seq<Event>)
    requires WellFormed(s)
    requires caller.role == Organizer
    ensures forall e :: e in r <==> e in s.events && e.organizer == caller.id
    ensures IdsDecreasing(r)
  {
    EventsOfIncreasing(s.events, caller.id);
    NewestFirst(EventsOf(s.events, caller.id))
  }

  lemma {:induction false} EventsOfIncreasing(es: seq<Event>, organizer: nat)
    requires forall i, j :: 0 <= i < j < |es| ==> es[i].id < es[j].id
    ensures forall i, j :: 0 <= i < j < |EventsOf(es, organizer)| ==>
      EventsOf(es, organizer)[i].id < EventsOf(es, organizer)[j].id
    ensures IdsDecreasing(NewestFirst(EventsOf(es, organizer)))
  {
    if es != [] {
      var init, last := es[..|es| - 1], es[|es| - 1];
      EventsOfIncreasing(init, organizer);
      var f := EventsOf(init, organizer);
      forall k | 0 <= k < |f|
        ensures f[k].id < last.id
      {
        assert f[k] in init;
      }
    }
  }
}
