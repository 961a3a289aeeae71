/** The review controller (backend/controllers/reviewController.js): adding a
    review for a booked event and recomputing the event's rating from the
    whole review set. */
module Reviews {
  import opened Maybe
  import opened Text
  import opened Domain
  import opened Store

  datatype InsertError = ValidationFailed | DuplicateKey

  datatype Insertion = Inserted(rows: seq<Review>, review: Review) | Refused(error: InsertError)

  /** `Review.create`: the schema validators run first (rating in 1..5, a
      comment that is non-empty once trimmed), then the unique index on
      (user, event) refuses a second review of the same pair. */
  function InsertReview(rs: seq<Review>, id: nat, user: nat, event: nat, rating: int, comment: string)
    : (out: Insertion)
    ensures out.Inserted? <==> 1 <= rating <= 5 && Trim(comment) != [] && !HasReview(rs, user, event)
    ensures out == Refused(DuplicateKey) <==>
      1 <= rating <= 5 && Trim(comment) != [] && HasReview(rs, user, event)
    ensures out.Inserted? ==>
      && out.review == Review(id, user, event, rating, Trim(comment))
      && out.rows == rs + [out.review]
  {
    var r := Review(id, user, event, rating, Trim(comment));
    if !(1 <= rating <= 5) || r.comment == [] then Refused(ValidationFailed)
    else if HasReview(rs, user, event) then Refused(DuplicateKey)
    else Inserted(rs + [r], r)
  }

  /** The catch block of `addReview`: a duplicate-key error (code 11000)
      answers with the same 400 as the pre-check; anything else is a 500. */
  function InsertFailure(e: InsertError): Response<Review> {
    match e
    case DuplicateKey => BadRequest(AlreadyReviewed)
    case ValidationFailed => ServerError
  }

  /** The event's rating fields recomputed from every review it has. */
  function Rerated(e: Event, rs: seq<Review>): (e': Event)
    requires ReviewsFor(rs, e.id) != []
    ensures RatingLedger(e', rs)
    ensures e' == e.(averageRating := e'.averageRating, reviewCount := e'.reviewCount)
  {
    var mine := ReviewsFor(rs, e.id);
    e.(averageRating := Mean(mine), reviewCount := |mine|)
  }

  /** `addReview`. The checks run in the source's order: the event exists, the
      caller holds a confirmed booking for it, the caller has not reviewed it
      yet; then the review is inserted and the event's `averageRating` and
      `reviewCount` are recomputed over all its reviews. Any failure leaves
      the state as it was. */
  function AddReview(s: State, caller: Account, eventId: nat, rating: int, comment: string)
    : (out: (Response<Review>, State))
    requires WellFormed(s)
    ensures !HasEvent(s.events, eventId) ==> out == (NotFound, s)
    ensures HasEvent(s.events, eventId) && !HasConfirmedBooking(s.bookings, caller.id, eventId) ==>
      out == (BadRequest(OnlyBookedEventsReviewable), s)
    ensures HasEvent(s.events, eventId) && HasConfirmedBooking(s.bookings, caller.id, eventId)
            && HasReview(s.reviews, caller.id, eventId) ==>
      out == (BadRequest(AlreadyReviewed), s)
    ensures HasEvent(s.events, eventId) && HasConfirmedBooking(s.bookings, caller.id, eventId)
            && !HasReview(s.reviews, caller.id, eventId) && !(1 <= rating <= 5 && Trim(comment) != []) ==>
      out == (ServerError, s)
    ensures out.0.Ok? <==>
      && HasEvent(s.events, eventId)
      && HasConfirmedBooking(s.bookings, caller.id, eventId)
      && !HasReview(s.reviews, caller.id, eventId)
      && 1 <= rating <= 5 && Trim(comment) != []
    ensures !out.0.Ok? ==> out.1 == s
    ensures out.0.Ok? ==>
      var r := out.0.value;
      && r.user == caller.id && r.event == eventId && r.rating == rating && r.comment == Trim(comment)
      && r.id == s.nextId && out.1.nextId == s.nextId + 1
      && out.1.reviews == s.reviews + [r]
      && out.1.bookings == s.bookings && out.1.users == s.users
      && |out.1.events| == |s.events|
      && forall i :: 0 <= i < |s.events| ==>
           if s.events[i].id == eventId then
             && RatingLedger(out.1.events[i], out.1.reviews)
             && out.1.events[i] == s.events[i].(averageRating := out.1.events[i].averageRating,
                                                 reviewCount := out.1.events[i].reviewCount)
           else out.1.events[i] == s.events[i]
  {
    match EventIndex(s.events, eventId)
    case None => (NotFound, s)
    case Some(i) =>
      if !HasConfirmedBooking(s.bookings, caller.id, eventId) then (BadRequest(OnlyBookedEventsReviewable), s)
      else if HasReview(s.reviews, caller.id, eventId) then (BadRequest(AlreadyReviewed), s)
      else match InsertReview(s.reviews, s.nextId, caller.id, eventId, rating, comment)
        case Refused(err) => (InsertFailure(err), s)
        case Inserted(rows, r) => (Ok(r), Accept(s, i, r))
  }

  /** The state after review `r` of event `i` is stored: the review appended,
      that event re-rated over all its reviews, every other event as it was. */
  function Accept(s: State, i: nat, r: Review): (s': State)
    requires WellFormed(s)
    requires i < |s.events| && r.event == s.events[i].id
    ensures s'.reviews == s.reviews + [r] && s'.bookings == s.bookings && s'.users == s.users
    ensures s'.nextId == s.nextId + 1
    ensures |s'.events| == |s.events|
    ensures forall j :: 0 <= j < |s.events| ==>
      if s.events[j].id == r.event then
        && RatingLedger(s'.events[j], s'.reviews)
        && s'.events[j] == s.events[j].(averageRating := s'.events[j].averageRating,
                                        reviewCount := s'.events[j].reviewCount)
      else s'.events[j] == s.events[j]
  {
    var rows := s.reviews + [r];
    ReviewsForAppend(s.reviews, r, r.event);
    assert r in ReviewsFor(rows, r.event);
    forall j | 0 <= j < |s.events| && j != i
      ensures s.events[j].id != s.events[i].id
    {
      EventIdsDistinct(s.events, s.nextId, i, j);
    }
    s.(events := s.events[i := Rerated(s.events[i], rows)], reviews := rows, nextId := s.nextId + 1)
  }

  /** Without the pre-check, the unique index alone gives the same answer to
      a second review of a pair: a duplicate key, reported as "already
      reviewed". */
  lemma UniqueIndexBacksPreCheck(rs: seq<Review>, id: nat, user: nat, event: nat, rating: int, comment: string)
    requires HasReview(rs, user, event)
    requires 1 <= rating <= 5 && Trim(comment) != []
    ensures InsertReview(rs, id, user, event, rating, comment) == Refused(DuplicateKey)
    ensures InsertFailure(InsertReview(rs, id, user, event, rating, comment).error) == BadRequest(AlreadyReviewed)
  {
  }

  /** Adding a review keeps every ledger: the reviewed event's rating is the
      mean over all its reviews, and nothing else changes. */
  lemma AddReviewPreservesValid(s: State, caller: Account, eventId: nat, rating: int, comment: string)
    requires Valid(s)
    ensures Valid(AddReview(s, caller, eventId, rating, comment).1)
  {
    if AddReview(s, caller, eventId, rating, comment).0.Ok? {
      AcceptedReviewKeepsValid(s, caller, eventId, rating, comment);
    }
  }

  lemma AcceptedReviewKeepsValid(s: State, caller: Account, eventId: nat, rating: int, comment: string)
    requires Valid(s)
    requires AddReview(s, caller, eventId, rating, comment).0.Ok?
    ensures Valid(AddReview(s, caller, eventId, rating, comment).1)
  {
    var out := AddReview(s, caller, eventId, rating, comment);
    ReviewKeepsWellFormed(s, out.1, out.0.value);
    ReviewKeepsLedgers(s, out.1, out.0.value);
  }

  lemma ReviewKeepsWellFormed(s: State, s': State, r: Review)
    requires WellFormed(s)
    requires HasEvent(s.events, r.event) && !HasReview(s.reviews, r.user, r.event)
    requires 1 <= r.rating <= 5 && r.comment != [] && r.comment == Trim(r.comment)
    requires r.id == s.nextId && s'.nextId == s.nextId + 1
    requires s'.reviews == s.reviews + [r] && s'.bookings == s.bookings
    requires |s'.events| == |s.events|
    requires forall i :: 0 <= i < |s.events| ==>
      s'.events[i] == s.events[i].(averageRating := s'.events[i].averageRating,
                                   reviewCount := s'.events[i].reviewCount)
    ensures WellFormed(s')
  {
    assert r.event < s.nextId;
  }

  lemma ReviewKeepsLedgers(s: State, s': State, r: Review)
    requires Valid(s)
    requires s'.reviews == s.reviews + [r] && s'.bookings == s.bookings
    requires |s'.events| == |s.events|
    requires forall i :: 0 <= i < |s.events| ==>
      if s.events[i].id == r.event then
        && RatingLedger(s'.events[i], s'.reviews)
        && s'.events[i] == s.events[i].(averageRating := s'.events[i].averageRating,
                                        reviewCount := s'.events[i].reviewCount)
      else s'.events[i] == s.events[i]
    ensures forall i :: 0 <= i < |s'.events| ==> SeatLedger(s'.events[i], s'.bookings)
    ensures forall i :: 0 <= i < |s'.events| ==> RatingLedger(s'.events[i], s'.reviews)
  {
    forall i | 0 <= i < |s'.events|
      ensures SeatLedger(s'.events[i], s'.bookings)
    {
      assert SeatLedger(s.events[i], s.bookings);
    }
    forall i | 0 <= i < |s'.events|
      ensures RatingLedger(s'.events[i], s'.reviews)
    {
      if s.events[i].id != r.event {
        assert RatingLedger(s.events[i], s.reviews);
        ReviewsForAppend(s.reviews, r, s.events[i].id);
        assert ReviewsFor(s.reviews, s.events[i].id) + [] == ReviewsFor(s.reviews, s.events[i].id);
      }
    }
  }

  predicate IdsDecreasing(rs: seq<Review>) {
    forall i, j :: 0 <= i < j < |rs| ==> rs[i].id > rs[j].id
  }

  /** `getEventReviews`: every review of the event, newest first. Public, and
      an unknown event simply has none. */
  function GetEventReviews(s: State, eventId: nat): (r: seq<Review>)
    requires WellFormed(s)
    ensures forall v :: v in r <==> v in s.reviews && v.event == eventId
    ensures IdsDecreasing(r)
  {
    ReviewsForIncreasing(s.reviews, eventId);
    NewestFirst(ReviewsFor(s.reviews, eventId))
  }

  lemma {:induction false} ReviewsForIncreasing(rs: seq<Review>, event: nat)
    requires forall i, j :: 0 <= i < j < |rs| ==> rs[i].id < rs[j].id
    ensures forall i, j :: 0 <= i < j < |ReviewsFor(rs, event)| ==>
      ReviewsFor(rs, event)[i].id < ReviewsFor(rs, event)[j].id
    ensures IdsDecreasing(NewestFirst(ReviewsFor(rs, event)))
  {
    if rs != [] {
      var init, last := rs[..|rs| - 1], rs[|rs| - 1];
      ReviewsForIncreasing(init, event);
      var f := ReviewsFor(init, event);
      forall k | 0 <= k < |f|
        ensures f[k].id < last.id
      {
        assert f[k] in init;
      }
    }
  }
}
