/** Queries over the collections (`findById`, `find(filter)`, `reduce`) and
    the integrity every handler keeps: unique ids issued in order, schema
    validity, unique booking references, one review per (user, event). */
module Store {
  import opened Maybe
  import opened Domain

  // ---------------------------------------------------------------- lookups

  /** Position of the event with this id (`Event.findById`). */
  function EventIndex(es: seq<Event>, id: nat): (k: Option<nat>)
    ensures k.Some? ==> k.value < |es| && es[k.value].id == id
    ensures k.None? ==> forall i :: 0 <= i < |es| ==> es[i].id != id
  {
    if es == [] then None
    else if es[0].id == id then Some(0)
    else match EventIndex(es[1..], id)
      case None => None
      case Some(j) => Some(j + 1)
  }

  /** Position of the booking with this id (`Booking.findById`). */
  function BookingIndex(bs: seq<Booking>, id: nat): (k: Option<nat>)
    ensures k.Some? ==> k.value < |bs| && bs[k.value].id == id
    ensures k.None? ==> forall i :: 0 <= i < |bs| ==> bs[i].id != id
  {
    if bs == [] then None
    else if bs[0].id == id then Some(0)
    else match BookingIndex(bs[1..], id)
      case None => None
      case Some(j) => Some(j + 1)
  }

  predicate HasEvent(es: seq<Event>, id: nat) {
    exists i :: 0 <= i < |es| && es[i].id == id
  }

  /** `populate('organizer')` finds an account: some user has the id. */
  predicate HasAccount(us: seq<Account>, id: nat) {
    exists i :: 0 <= i < |us| && us[i].id == id
  }

  /** `Booking.findOne({ user, event, status: 'confirmed' })` finds something. */
  predicate HasConfirmedBooking(bs: seq<Booking>, user: nat, event: nat) {
    exists i :: 0 <= i < |bs| && bs[i].user == user && bs[i].event == event && bs[i].status == Confirmed
  }

  /** `Review.findOne({ user, event })` finds something. */
  predicate HasReview(rs: seq<Review>, user: nat, event: nat) {
    exists i :: 0 <= i < |rs| && rs[i].user == user && rs[i].event == event
  }

  predicate ReferenceTaken(bs: seq<Booking>, reference: string) {
    exists i :: 0 <= i < |bs| && bs[i].reference == reference
  }

  // ------------------------------------------------------------ filters

  /** `Booking.find({ event })`, in natural order. */
  function BookingsFor(bs: seq<Booking>, event: nat): (r: seq<Booking>)
    ensures |r| <= |bs|
    ensures forall b :: b in r <==> b in bs && b.event == event
  {
    if bs == [] then []
    else
      var last := bs[|bs| - 1];
      BookingsFor(bs[..|bs| - 1], event) + (if last.event == event then [last] else [])
  }

  /** `Booking.find({ user })`, in natural order. */
  function BookingsBy(bs: seq<Booking>, user: nat): (r: seq<Booking>)
    ensures |r| <= |bs|
    ensures forall b :: b in r <==> b in bs && b.user == user
  {
    if bs == [] then []
    else
      var last := bs[|bs| - 1];
      BookingsBy(bs[..|bs| - 1], user) + (if last.user == user then [last] else [])
  }

  /** `Review.find({ event })`, in natural order. */
  function ReviewsFor(rs: seq<Review>, event: nat): (r: seq<Review>)
    ensures |r| <= |rs|
    ensures forall v :: v in r <==> v in rs && v.event == event
  {
    if rs == [] then []
    else
      var last := rs[|rs| - 1];
      ReviewsFor(rs[..|rs| - 1], event) + (if last.event == event then [last] else [])
  }

  /** `Event.find({ status })`, in natural order. */
  function EventsWithStatus(es: seq<Event>, st: EventStatus): (r: seq<Event>)
    ensures |r| <= |es|
    ensures forall e :: e in r <==> e in es && e.status == st
  {
    if es == [] then []
    else
      var last := es[|es| - 1];
      EventsWithStatus(es[..|es| - 1], st) + (if last.status == st then [last] else [])
  }

  /** `Event.find({ organizer })`, in natural order. */
  function EventsOf(es: seq<Event>, organizer: nat): (r: seq<Event>)
    ensures |r| <= |es|
    ensures forall e :: e in r <==> e in es && e.organizer == organizer
  {
    if es == [] then []
    else
      var last := es[|es| - 1];
      EventsOf(es[..|es| - 1], organizer) + (if last.organizer == organizer then [last] else [])
  }

  /** `.sort({ createdAt: -1 })` on a collection kept in creation order. */
  function NewestFirst<T(!new)>(s: seq<T>): (r: seq<T>)
    ensures |r| == |s|
    ensures forall i :: 0 <= i < |s| ==> r[i] == s[|s| - 1 - i]
    ensures forall x :: x in r <==> x in s
  {
    if s == [] then [] else [s[|s| - 1]] + NewestFirst(s[..|s| - 1])
  }

  // -------------------------------------------------------------- folds

  /** `reduce((sum, b) => sum + b.seats, 0)`. */
  function SeatsTotal(bs: seq<Booking>): int {
    if bs == [] then 0 else SeatsTotal(bs[..|bs| - 1]) + bs[|bs| - 1].seats
  }

  /** `reduce((sum, b) => sum + b.totalAmount, 0)`. */
  function AmountTotal(bs: seq<Booking>): int {
    if bs == [] then 0 else AmountTotal(bs[..|bs| - 1]) + bs[|bs| - 1].totalAmount
  }

  /** `reduce((sum, r) => sum + r.rating, 0)`. */
  function RatingTotal(rs: seq<Review>): int {
    if rs == [] then 0 else RatingTotal(rs[..|rs| - 1]) + rs[|rs| - 1].rating
  }

  lemma SeatsTotalAppend(bs: seq<Booking>, b: Booking)
    ensures SeatsTotal(bs + [b]) == SeatsTotal(bs) + b.seats
  {
    assert (bs + [b])[..|bs|] == bs;
  }

  lemma AmountTotalAppend(bs: seq<Booking>, b: Booking)
    ensures AmountTotal(bs + [b]) == AmountTotal(bs) + b.totalAmount
  {
    assert (bs + [b])[..|bs|] == bs;
  }

  lemma RatingTotalAppend(rs: seq<Review>, r: Review)
    ensures RatingTotal(rs + [r]) == RatingTotal(rs) + r.rating
  {
    assert (rs + [r])[..|rs|] == rs;
  }

  /** Appending a booking extends exactly the filter of its own event. */
  lemma BookingsForAppend(bs: seq<Booking>, b: Booking, event: nat)
    ensures BookingsFor(bs + [b], event)
            == BookingsFor(bs, event) + (if b.event == event then [b] else [])
  {
    assert (bs + [b])[..|bs|] == bs;
  }

  lemma ReviewsForAppend(rs: seq<Review>, r: Review, event: nat)
    ensures ReviewsFor(rs + [r], event)
            == ReviewsFor(rs, event) + (if r.event == event then [r] else [])
  {
    assert (rs + [r])[..|rs|] == rs;
  }

  /** Every booking counts at least one seat, so seat sums are non-negative. */
  lemma {:induction false} SeatsTotalNonNegative(bs: seq<Booking>)
    requires forall i :: 0 <= i < |bs| ==> bs[i].seats >= 1
    ensures SeatsTotal(bs) >= |bs|
  {
    if bs != [] {
      SeatsTotalNonNegative(bs[..|bs| - 1]);
    }
  }

  /** Every event has exactly one of the three statuses, so the per-status
      counts add up to the number of events. */
  lemma {:induction false} StatusesPartition(es: seq<Event>)
    ensures |EventsWithStatus(es, Pending)| + |EventsWithStatus(es, Approved)|
            + |EventsWithStatus(es, Rejected)| == |es|
  {
    if es != [] {
      StatusesPartition(es[..|es| - 1]);
    }
  }

  // ------------------------------------------------------------ integrity

  predicate EventsWellFormed(es: seq<Event>, nextId: nat) {
    && (forall i, j :: 0 <= i < j < |es| ==> es[i].id < es[j].id)
    && (forall i :: 0 <= i < |es| ==> es[i].id < nextId && EventFieldsValid(es[i]))
  }

  predicate BookingsWellFormed(bs: seq<Booking>, nextId: nat) {
    && (forall i, j :: 0 <= i < j < |bs| ==> bs[i].id < bs[j].id)
    && (forall i :: 0 <= i < |bs| ==>
          bs[i].id < nextId && bs[i].event < nextId && BookingFieldsValid(bs[i]))
    // the unique index on `bookingReference`
    && (forall i, j :: 0 <= i < j < |bs| ==> bs[i].reference != bs[j].reference)
  }

  predicate ReviewsWellFormed(rs: seq<Review>, nextId: nat) {
    && (forall i, j :: 0 <= i < j < |rs| ==> rs[i].id < rs[j].id)
    && (forall i :: 0 <= i < |rs| ==> rs[i].id < nextId && rs[i].event < nextId && ReviewFieldsValid(rs[i]))
    // the unique index on (user, event)
    && (forall i, j :: 0 <= i < j < |rs| ==> (rs[i].user, rs[i].event) != (rs[j].user, rs[j].event))
  }

  /** What the schemas and the way ids are issued guarantee of every state. */
  predicate WellFormed(s: State) {
    && EventsWellFormed(s.events, s.nextId)
    && BookingsWellFormed(s.bookings, s.nextId)
    && ReviewsWellFormed(s.reviews, s.nextId)
  }

  /** The capacity ledger of one event: seats left are never negative, and
      seats left plus seats booked is the capacity; `bookingCount` counts
      the bookings. */
  predicate SeatLedger(e: Event, bs: seq<Booking>) {
    var mine := BookingsFor(bs, e.id);
    && 0 <= e.availableSeats
    && e.availableSeats + SeatsTotal(mine) == e.totalSeats
    && e.bookingCount == |mine|
  }

  /** `totalRating / reviews.length`, and the schema default 0 before any review. */
  function Mean(rs: seq<Review>): real {
    if rs == [] then 0.0 else RatingTotal(rs) as real / |rs| as real
  }

  /** The rating ledger of one event: `reviewCount` counts its reviews and
      `averageRating` is the mean of their ratings. */
  predicate RatingLedger(e: Event, rs: seq<Review>) {
    var mine := ReviewsFor(rs, e.id);
    && e.reviewCount == |mine|
    && e.averageRating == Mean(mine)
  }

  /** Under the ledger, with ratings of 1 to 5, a reviewed event's average
      lies between 1 and 5. */
  lemma RatingWithinBounds(e: Event, rs: seq<Review>)
    requires RatingLedger(e, rs)
    requires forall i :: 0 <= i < |rs| ==> 1 <= rs[i].rating <= 5
    requires e.reviewCount > 0
    ensures 1.0 <= e.averageRating <= 5.0
  {
    var mine := ReviewsFor(rs, e.id);
    forall i | 0 <= i < |mine|
      ensures 1 <= mine[i].rating <= 5
    {
      assert mine[i] in rs;
    }
    RatingTotalBounds(mine);
    QuotientBounds(RatingTotal(mine) as real, |mine| as real);
  }

  lemma QuotientBounds(t: real, n: real)
    requires n > 0.0 && n <= t <= 5.0 * n
    ensures 1.0 <= t / n <= 5.0
  {
    var q := t / n;
    assert q * n == t;
    assert (q - 1.0) * n >= 0.0;
    assert (5.0 - q) * n >= 0.0;
  }

  lemma {:induction false} RatingTotalBounds(rs: seq<Review>)
    requires forall i :: 0 <= i < |rs| ==> 1 <= rs[i].rating <= 5
    ensures |rs| <= RatingTotal(rs) <= 5 * |rs|
  {
    if rs != [] {
      RatingTotalBounds(rs[..|rs| - 1]);
    }
  }

  /** The invariant the booking and review operations keep. */
  predicate Valid(s: State) {
    && WellFormed(s)
    && (forall i :: 0 <= i < |s.events| ==> SeatLedger(s.events[i], s.bookings))
    && (forall i :: 0 <= i < |s.events| ==> RatingLedger(s.events[i], s.reviews))
  }

  /** Under the ledger, an event never has more seats left than its capacity. */
  lemma LedgerBoundsSeats(e: Event, bs: seq<Booking>)
    requires SeatLedger(e, bs)
    requires forall i :: 0 <= i < |bs| ==> bs[i].seats >= 1
    ensures 0 <= e.availableSeats <= e.totalSeats
  {
    var mine := BookingsFor(bs, e.id);
    forall i | 0 <= i < |mine|
      ensures mine[i].seats >= 1
    {
      assert mine[i] in bs;
    }
    SeatsTotalNonNegative(mine);
  }

  /** In a well-formed state the event ids are distinct. */
  lemma EventIdsDistinct(es: seq<Event>, nextId: nat, i: nat, j: nat)
    requires EventsWellFormed(es, nextId)
    requires i < |es| && j < |es| && i != j
    ensures es[i].id != es[j].id
  {
    if i < j { assert es[i].id < es[j].id; } else { assert es[j].id < es[i].id; }
  }

  /** Index `i` is the only position holding its id. */
  lemma OnlyIndex(es: seq<Event>, nextId: nat, i: nat)
    requires EventsWellFormed(es, nextId)
    requires i < |es|
    ensures forall j :: 0 <= j < |es| && es[j].id == es[i].id ==> j == i
  {
  }

  lemma SameIdSameIndex(es: seq<Event>, nextId: nat, i: nat, j: nat)
    requires EventsWellFormed(es, nextId)
    requires i < |es| && j < |es| && es[i].id == es[j].id
    ensures i == j
  {
  }

  /** No booking or review refers to an id that has not been issued yet. */
  lemma NothingRefersToFreshId(s: State, id: nat)
    requires WellFormed(s)
    requires id >= s.nextId
    ensures BookingsFor(s.bookings, id) == []
    ensures ReviewsFor(s.reviews, id) == []
  {
    NoBookingsFor(s.bookings, id);
    NoReviewsFor(s.reviews, id);
  }

  lemma {:induction false} NoBookingsFor(bs: seq<Booking>, id: nat)
    requires forall k :: 0 <= k < |bs| ==> bs[k].event != id
    ensures BookingsFor(bs, id) == []
  {
    if bs != [] {
      NoBookingsFor(bs[..|bs| - 1], id);
    }
  }

  lemma {:induction false} NoReviewsFor(rs: seq<Review>, id: nat)
    requires forall k :: 0 <= k < |rs| ==> rs[k].event != id
    ensures ReviewsFor(rs, id) == []
  {
    if rs != [] {
      NoReviewsFor(rs[..|rs| - 1], id);
    }
  }

  /** Replacing one event by a valid event with the same id keeps the event
      collection well formed. */
  lemma ReplaceEventAt(es: seq<Event>, nextId: nat, i: nat, e: Event)
    requires EventsWellFormed(es, nextId)
    requires i < |es|
    requires e.id == es[i].id && EventFieldsValid(e)
    ensures EventsWellFormed(es[i := e], nextId)
  {
    var r := es[i := e];
    assert forall j :: 0 <= j < |r| ==> r[j].id == es[j].id;
  }

  /** After replacing event `i` by `e` with the same id, `e` is the only
      event stored under that id. */
  lemma ReplacedIsOnly(es: seq<Event>, nextId: nat, i: nat, e: Event)
    requires EventsWellFormed(es, nextId)
    requires i < |es| && e.id == es[i].id
    ensures forall x :: x in es[i := e] && x.id == e.id ==> x == e
  {
    var r := es[i := e];
    forall x | x in r && x.id == e.id
      ensures x == e
    {
      var k :| 0 <= k < |r| && r[k] == x;
      assert es[k].id == es[i].id;
      SameIdSameIndex(es, nextId, i, k);
    }
  }

  /** Removing one event keeps the event collection well formed and removes
      exactly the events with that id. */
  lemma RemoveEventAt(es: seq<Event>, nextId: nat, i: nat)
    requires EventsWellFormed(es, nextId)
    requires i < |es|
    ensures EventsWellFormed(es[..i] + es[i + 1..], nextId)
    ensures forall e :: e in es[..i] + es[i + 1..] <==> e in es && e.id != es[i].id
  {
    var r := es[..i] + es[i + 1..];
    RemovedPositions(es, i, r);
    RemovedWellFormed(es, nextId, i, r);
    RemovedMembers(es, nextId, i, r);
  }

  lemma RemovedWellFormed(es: seq<Event>, nextId: nat, i: nat, r: seq<Event>)
    requires EventsWellFormed(es, nextId)
    requires i < |es| && |r| == |es| - 1
    requires forall j :: 0 <= j < i ==> r[j] == es[j]
    requires forall j :: i <= j < |r| ==> r[j] == es[j + 1]
    ensures EventsWellFormed(r, nextId)
  {
    forall a, b | 0 <= a < b < |r|
      ensures r[a].id < r[b].id
    {
      var a', b' := if a < i then a else a + 1, if b < i then b else b + 1;
      assert r[a] == es[a'] && r[b] == es[b'];
    }
    forall a | 0 <= a < |r|
      ensures r[a].id < nextId && EventFieldsValid(r[a])
    {
      assert r[a] == es[if a < i then a else a + 1];
    }
  }

  lemma RemovedMembers(es: seq<Event>, nextId: nat, i: nat, r: seq<Event>)
    requires EventsWellFormed(es, nextId)
    requires i < |es| && |r| == |es| - 1
    requires forall j :: 0 <= j < i ==> r[j] == es[j]
    requires forall j :: i <= j < |r| ==> r[j] == es[j + 1]
    ensures forall e :: e in r <==> e in es && e.id != es[i].id
  {
    RemovedKeepsOthers(es, i, r);
    RemovedDropsId(es, nextId, i, r);
  }

  lemma RemovedKeepsOthers(es: seq<Event>, i: nat, r: seq<Event>)
    requires i < |es| && |r| == |es| - 1
    requires forall j :: 0 <= j < i ==> r[j] == es[j]
    requires forall j :: i <= j < |r| ==> r[j] == es[j + 1]
    ensures forall e :: e in es && e.id != es[i].id ==> e in r
  {
    forall e | e in es && e.id != es[i].id
      ensures e in r
    {
      var j :| 0 <= j < |es| && es[j] == e;
      if j < i { assert r[j] == e; } else { assert r[j - 1] == e; }
    }
  }

  lemma RemovedDropsId(es: seq<Event>, nextId: nat, i: nat, r: seq<Event>)
    requires EventsWellFormed(es, nextId)
    requires i < |es| && |r| == |es| - 1
    requires forall j :: 0 <= j < i ==> r[j] == es[j]
    requires forall j :: i <= j < |r| ==> r[j] == es[j + 1]
    ensures forall e :: e in r ==> e in es && e.id != es[i].id
  {
    forall e | e in r
      ensures e in es && e.id != es[i].id
    {
      var j :| 0 <= j < |r| && r[j] == e;
      if j < i {
        assert e == es[j] && es[j].id < es[i].id;
      } else {
        assert e == es[j + 1] && es[i].id < es[j + 1].id;
      }
    }
  }

  /** Where each remaining event sat before event `i` was taken out. */
  lemma RemovedPositions(es: seq<Event>, i: nat, r: seq<Event>)
    requires i < |es| && r == es[..i] + es[i + 1..]
    ensures |r| == |es| - 1
    ensures forall j :: 0 <= j < i ==> r[j] == es[j]
    ensures forall j :: i <= j < |r| ==> r[j] == es[j + 1]
  {
  }

  /** Ledgers are per event: any event taken from a valid state keeps them
      as long as bookings and reviews stay the same. */
  lemma LedgersOfSubset(s: State, es: seq<Event>)
    requires forall i :: 0 <= i < |s.events| ==> SeatLedger(s.events[i], s.bookings)
    requires forall i :: 0 <= i < |s.events| ==> RatingLedger(s.events[i], s.reviews)
    requires forall e :: e in es ==> e in s.events
    ensures forall j :: 0 <= j < |es| ==> SeatLedger(es[j], s.bookings)
    ensures forall j :: 0 <= j < |es| ==> RatingLedger(es[j], s.reviews)
  {
    forall j | 0 <= j < |es|
      ensures SeatLedger(es[j], s.bookings) && RatingLedger(es[j], s.reviews)
    {
      assert es[j] in s.events;
    }
  }
}
