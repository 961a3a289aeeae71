/** The booking controller (backend/controllers/bookingController.js): the
    seat-inventory transaction and the three booking queries. */
module Bookings {
  import opened Maybe
  import opened Domain
  import opened Store
  import Reference

  /** What one booking request takes from outside the model: the clock
      (`Date.now()`), the fraction digits of `Math.random()`, and the QR
      encoder's data URL (`None` when the encoder threw). */
  datatype Environment = Environment(now: nat, fraction: seq<nat>, qrCode: Option<string>)

  /** The event after a booking of `seats` seats against it. */
  function AfterBooking(e: Event, seats: int): Event {
    e.(availableSeats := e.availableSeats - seats, bookingCount := e.bookingCount + 1)
  }

  /** Everything the request needs for a booking to be stored, given that the
      event `e` it names exists. */
  predicate Admissible(s: State, e: Event, seats: int, env: Environment)
    requires Reference.IsFraction(env.fraction)
  {
    && e.status == Approved
    && seats <= e.availableSeats
    && 1 <= seats
    && env.qrCode.Some? && env.qrCode.value != []
    && !ReferenceTaken(s.bookings, Reference.Generate(env.now, env.fraction))
  }

  /** `createBooking`. Checks run in the source's order: the event exists, it
      is approved, it has enough seats; then the reference and QR code are
      made, `Booking.create` validates and inserts, and only after that is the
      event's inventory changed. Any failure leaves the state as it was. */
  function CreateBooking(s: State, caller: Account, eventId: nat, seats: int, env: Environment)
    : (out: (Response<Booking>, State))
    requires WellFormed(s)
    requires Reference.IsFraction(env.fraction)
    ensures !HasEvent(s.events, eventId) ==> out == (NotFound, s)
    ensures forall i :: 0 <= i < |s.events| && s.events[i].id == eventId ==>
      var e := s.events[i];
      && (e.status != Approved ==> out == (BadRequest(NotApprovedYet), s))
      && (e.status == Approved && seats > e.availableSeats ==>
            out == (BadRequest(OnlySeatsAvailable(e.availableSeats)), s))
      && (e.status == Approved && seats <= e.availableSeats && !Admissible(s, e, seats, env) ==>
            out == (ServerError, s))
      && (out.0.Ok? <==> Admissible(s, e, seats, env))
      && (out.0.Ok? ==> Booked(s, caller, i, seats, env, out))
    ensures !out.0.Ok? ==> out.1 == s
  {
    match EventIndex(s.events, eventId)
    case None => (NotFound, s)
    case Some(i) =>
      OnlyIndex(s.events, s.nextId, i);
      Book(s, caller, i, seats, env)
  }

  /** A stored booking: made by the caller for event `i` with the seats
      asked for, priced at the event's price per seat, confirmed, under the
      generated reference and a fresh id; the event's inventory moves and
      nothing else changes. */
  predicate Booked(s: State, caller: Account, i: nat, seats: int, env: Environment, out: (Response<Booking>, State))
    requires i < |s.events| && out.0.Ok?
    requires Reference.IsFraction(env.fraction)
  {
    var e, b := s.events[i], out.0.value;
    && b.user == caller.id && b.event == e.id && b.seats == seats
    && b.totalAmount == e.price * seats
    && b.status == Confirmed
    && b.reference == Reference.Generate(env.now, env.fraction)
    && env.qrCode == Some(b.qrCode)
    && (forall k :: 0 <= k < |s.bookings| ==> s.bookings[k].id != b.id)
    && b.id == s.nextId && out.1.nextId == s.nextId + 1
    && out.1.bookings == s.bookings + [b]
    && out.1.events == s.events[i := AfterBooking(e, seats)]
    && out.1.reviews == s.reviews && out.1.users == s.users
  }

  /** The steps after the lookup found event `i`. */
  function Book(s: State, caller: Account, i: nat, seats: int, env: Environment)
    : (out: (Response<Booking>, State))
    requires WellFormed(s)
    requires i < |s.events|
    requires Reference.IsFraction(env.fraction)
    ensures var e := s.events[i];
      && (e.status != Approved ==> out == (BadRequest(NotApprovedYet), s))
      && (e.status == Approved && seats > e.availableSeats ==>
            out == (BadRequest(OnlySeatsAvailable(e.availableSeats)), s))
      && (e.status == Approved && seats <= e.availableSeats && !Admissible(s, e, seats, env) ==>
            out == (ServerError, s))
      && (out.0.Ok? <==> Admissible(s, e, seats, env))
      && (out.0.Ok? ==> Booked(s, caller, i, seats, env, out))
    ensures !out.0.Ok? ==> out.1 == s
  {
    var e := s.events[i];
    if e.status != Approved then (BadRequest(NotApprovedYet), s)
    else if e.availableSeats < seats then (BadRequest(OnlySeatsAvailable(e.availableSeats)), s)
    else
      var reference := Reference.Generate(env.now, env.fraction);
      match env.qrCode
      case None => (ServerError, s)
      case Some(qr) =>
        var b := Booking(s.nextId, caller.id, e.id, seats, e.price * seats, qr, Confirmed, reference);
        if !BookingFieldsValid(b) || ReferenceTaken(s.bookings, reference) then (ServerError, s)
        else
          var s' := s.(events := s.events[i := AfterBooking(e, seats)],
                       bookings := s.bookings + [b],
                       nextId := s.nextId + 1);
          (Ok(b), s')
  }

  /** The capacity invariant: starting from a valid state, a booking keeps
      every event's seats left non-negative and equal to its capacity minus
      the seats booked against it, and keeps `bookingCount` equal to the
      number of its bookings. */
  lemma CreateBookingPreservesValid(s: State, caller: Account, eventId: nat, seats: int, env: Environment)
    requires Valid(s)
    requires Reference.IsFraction(env.fraction)
    ensures Valid(CreateBooking(s, caller, eventId, seats, env).1)
  {
    if CreateBooking(s, caller, eventId, seats, env).0.Ok? {
      AcceptedBookingKeepsValid(s, caller, eventId, seats, env);
    }
  }

  lemma AcceptedBookingKeepsValid(s: State, caller: Account, eventId: nat, seats: int, env: Environment)
    requires Valid(s)
    requires Reference.IsFraction(env.fraction)
    requires CreateBooking(s, caller, eventId, seats, env).0.Ok?
    ensures Valid(CreateBooking(s, caller, eventId, seats, env).1)
  {
    var out := CreateBooking(s, caller, eventId, seats, env);
    var i := EventIndex(s.events, eventId).value;
    BookedKeepsValid(s, caller, i, seats, env, out);
  }

  lemma BookedKeepsValid(s: State, caller: Account, i: nat, seats: int, env: Environment,
                         out: (Response<Booking>, State))
    requires Valid(s)
    requires i < |s.events| && out.0.Ok?
    requires Reference.IsFraction(env.fraction)
    requires Admissible(s, s.events[i], seats, env)
    requires Booked(s, caller, i, seats, env, out)
    ensures Valid(out.1)
  {
    var b := out.0.value;
    assert out.1 == s.(events := s.events[i := AfterBooking(s.events[i], b.seats)],
                       bookings := s.bookings + [b], nextId := s.nextId + 1);
    BookingKeepsValid(s, i, b, out.1);
  }

  /** Storing a valid booking against event `i` that fits its seats left. */
  lemma BookingKeepsValid(s: State, i: nat, b: Booking, s': State)
    requires Valid(s)
    requires i < |s.events| && b.event == s.events[i].id && b.id == s.nextId
    requires BookingFieldsValid(b) && !ReferenceTaken(s.bookings, b.reference)
    requires b.seats <= s.events[i].availableSeats
    requires s' == s.(events := s.events[i := AfterBooking(s.events[i], b.seats)],
                      bookings := s.bookings + [b], nextId := s.nextId + 1)
    ensures Valid(s')
  {
    BookingKeepsWellFormed(s, i, b, b.seats);
    BookingKeepsSeatLedgers(s, i, b, b.seats);
    BookingKeepsRatingLedgers(s, i, b.seats);
  }

  lemma BookingKeepsWellFormed(s: State, i: nat, b: Booking, seats: int)
    requires WellFormed(s)
    requires i < |s.events| && b.event == s.events[i].id && b.id == s.nextId
    requires BookingFieldsValid(b) && !ReferenceTaken(s.bookings, b.reference)
    ensures WellFormed(s.(events := s.events[i := AfterBooking(s.events[i], seats)],
                          bookings := s.bookings + [b], nextId := s.nextId + 1))
  {
  }

  /** One event's seat ledger across a booking: the booked event moves
      `seats` seats from "left" to "booked"; any other event is untouched. */
  lemma LedgerAcrossBooking(e: Event, bs: seq<Booking>, b: Booking)
    requires SeatLedger(e, bs)
    requires b.event == e.id ==> b.seats <= e.availableSeats
    ensures SeatLedger(if b.event == e.id then AfterBooking(e, b.seats) else e, bs + [b])
  {
    BookingsForAppend(bs, b, e.id);
    if b.event == e.id {
      var old_mine := BookingsFor(bs, e.id);
      SeatsTotalAppend(old_mine, b);
      assert BookingsFor(bs + [b], e.id) == old_mine + [b];
      assert SeatsTotal(old_mine + [b]) == SeatsTotal(old_mine) + b.seats;
      var e' := AfterBooking(e, b.seats);
      assert e'.id == e.id && e'.totalSeats == e.totalSeats;
      assert e'.availableSeats + SeatsTotal(old_mine + [b]) == e'.totalSeats;
    } else {
      assert BookingsFor(bs, e.id) + [] == BookingsFor(bs, e.id);
    }
  }

  lemma BookingKeepsSeatLedgers(s: State, i: nat, b: Booking, seats: int)
    requires WellFormed(s)
    requires forall j :: 0 <= j < |s.events| ==> SeatLedger(s.events[j], s.bookings)
    requires i < |s.events| && b.event == s.events[i].id && b.seats == seats
    requires seats <= s.events[i].availableSeats
    ensures var es := s.events[i := AfterBooking(s.events[i], seats)];
      forall j :: 0 <= j < |es| ==> SeatLedger(es[j], s.bookings + [b])
  {
    var es := s.events[i := AfterBooking(s.events[i], seats)];
    forall j | 0 <= j < |es|
      ensures SeatLedger(es[j], s.bookings + [b])
    {
      if j != i {
        EventIdsDistinct(s.events, s.nextId, i, j);
      }
      LedgerAcrossBooking(s.events[j], s.bookings, b);
    }
  }

  lemma BookingKeepsRatingLedgers(s: State, i: nat, seats: int)
    requires forall j :: 0 <= j < |s.events| ==> RatingLedger(s.events[j], s.reviews)
    requires i < |s.events|
    ensures var es := s.events[i := AfterBooking(s.events[i], seats)];
      forall j :: 0 <= j < |es| ==> RatingLedger(es[j], s.reviews)
  {
  }

  /** `getBookingById`: 404 for an unknown id, 403 unless the caller made the
      booking, otherwise the booking. */
  function GetBookingById(s: State, caller: Account, id: nat): (r: Response<Booking>)
    ensures (forall k :: 0 <= k < |s.bookings| ==> s.bookings[k].id != id) <==> r == NotFound
    ensures r.Ok? ==> r.value in s.bookings && r.value.id == id && r.value.user == caller.id
    ensures r == Forbidden ==> exists k :: 0 <= k < |s.bookings| && s.bookings[k].id == id && s.bookings[k].user != caller.id
    ensures r == NotFound || r == Forbidden || r.Ok?
  {
    match BookingIndex(s.bookings, id)
    case None => NotFound
    case Some(k) =>
      var b := s.bookings[k];
      if b.user != caller.id then Forbidden else Ok(b)
  }

  predicate IdsDecreasing(bs: seq<Booking>) {
    forall i, j :: 0 <= i < j < |bs| ==> bs[i].id > bs[j].id
  }

  /** `getUserBookings`: the caller's bookings, newest first. */
  function GetUserBookings(s: State, caller: Account): (r: seq<Booking>)
    requires WellFormed(s)
    ensures forall b :: b in r <==> b in s.bookings && b.user == caller.id
    ensures IdsDecreasing(r)
  {
    BookingsByIncreasing(s.bookings, caller.id);
    NewestFirst(BookingsBy(s.bookings, caller.id))
  }

  /** `getEventBookings`: 404 for an unknown event, 403 unless the caller
      organizes it, otherwise every booking of that event, newest first. */
  function GetEventBookings(s: State, caller: Account, eventId: nat): (r: Response<seq<Booking>>)
    requires WellFormed(s)
    requires caller.role == Organizer
    ensures !HasEvent(s.events, eventId) <==> r == NotFound
    ensures forall i :: 0 <= i < |s.events| && s.events[i].id == eventId ==>
      (r == Forbidden <==> s.events[i].organizer != caller.id)
    ensures r.Ok? ==> (forall b :: b in r.value <==> b in s.bookings && b.event == eventId) && IdsDecreasing(r.value)
    ensures r == NotFound || r == Forbidden || r.Ok?
  {
    match EventIndex(s.events, eventId)
    case None => NotFound
    case Some(i) =>
      OnlyIndex(s.events, s.nextId, i);
      if s.events[i].organizer != caller.id then Forbidden
      else
        BookingsForIncreasing(s.bookings, eventId);
        Ok(NewestFirst(BookingsFor(s.bookings, eventId)))
  }

  predicate IdsIncreasing(bs: seq<Booking>) {
    forall i, j :: 0 <= i < j < |bs| ==> bs[i].id < bs[j].id
  }

  lemma {:induction false} BookingsByIncreasing(bs: seq<Booking>, user: nat)
    requires IdsIncreasing(bs)
    ensures IdsIncreasing(BookingsBy(bs, user))
    ensures IdsDecreasing(NewestFirst(BookingsBy(bs, user)))
  {
    if bs != [] {
      var init, last := bs[..|bs| - 1], bs[|bs| - 1];
      BookingsByIncreasing(init, user);
      var f := BookingsBy(init, user);
      forall k | 0 <= k < |f|
        ensures f[k].id < last.id
      {
        assert f[k] in init;
      }
    }
  }

  lemma {:induction false} BookingsForIncreasing(bs: seq<Booking>, event: nat)
    requires IdsIncreasing(bs)
    ensures IdsIncreasing(BookingsFor(bs, event))
    ensures IdsDecreasing(NewestFirst(BookingsFor(bs, event)))
  {
    if bs != [] {
      var init, last := bs[..|bs| - 1], bs[|bs| - 1];
      BookingsForIncreasing(init, event);
      var f := BookingsFor(init, event);
      forall k | 0 <= k < |f|
        ensures f[k].id < last.id
      {
        assert f[k] in init;
      }
    }
  }
}
