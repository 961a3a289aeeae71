/** The organizer's dashboard (backend/controllers/organizerController.js):
    the caller's events, the confirmed bookings made for them, the totals,
    one row of figures per event and the events counted by status. */
module Organizer {
  import opened Domain
  import opened Store
  import Events

  /** One entry of `eventAnalytics`. */
  datatype EventFigures = EventFigures(
    eventId: nat,
    title: string,
    date: int,
    totalSeats: int,
    availableSeats: int,
    seatsSold: int,
    bookingCount: nat,
    revenue: int,
    status: EventStatus)

  /** The `summary` block and the per-event rows. */
  datatype OrganizerAnalytics = OrganizerAnalytics(
    totalEvents: nat,
    pending: nat,
    approved: nat,
    rejected: nat,
    totalBookings: nat,
    totalRevenue: int,
    totalSeats: int,
    eventAnalytics: seq<EventFigures>)

  /** Some event of `es` has this id (the `$in: eventIds` test). */
  predicate Owns(es: seq<Event>, id: nat) {
    exists i :: 0 <= i < |es| && es[i].id == id
  }

  predicate DistinctIds(es: seq<Event>) {
    forall i, j :: 0 <= i < j < |es| ==> es[i].id != es[j].id
  }

  /** `Booking.find({ event: { $in: eventIds }, status: 'confirmed' })`, in natural order. */
  function SalesOf(bs: seq<Booking>, es: seq<Event>): (r: seq<Booking>)
    ensures forall b :: b in r <==> b in bs && b.status == Confirmed && Owns(es, b.event)
  {
    if bs == [] then []
    else
      var last := bs[|bs| - 1];
      SalesOf(bs[..|bs| - 1], es) + (if last.status == Confirmed && Owns(es, last.event) then [last] else [])
  }

  /** `x` is the row of event `e` over the bookings `sales`: the event's own
      fields, and the count, the seats and the amounts of its bookings. */
  predicate Describes(e: Event, sales: seq<Booking>, x: EventFigures) {
    var mine := BookingsFor(sales, e.id);
    && x.eventId == e.id && x.title == e.title && x.date == e.date && x.status == e.status
    && x.totalSeats == e.totalSeats && x.availableSeats == e.availableSeats
    && x.bookingCount == |mine| && x.seatsSold == SeatsTotal(mine) && x.revenue == AmountTotal(mine)
  }

  /** The row for event `e`: its own sales, their seats and amounts summed. */
  function Figures(e: Event, sales: seq<Booking>): EventFigures {
    var mine := BookingsFor(sales, e.id);
    EventFigures(e.id, e.title, e.date, e.totalSeats, e.availableSeats,
                 SeatsTotal(mine), |mine|, AmountTotal(mine), e.status)
  }

  /** `events.map(...)`: one row per event, in the same order. */
  function FiguresOf(es: seq<Event>, sales: seq<Booking>): (r: seq<EventFigures>)
    ensures |r| == |es|
    ensures forall i :: 0 <= i < |es| ==> Describes(es[i], sales, r[i])
  {
    if es == [] then [] else [Figures(es[0], sales)] + FiguresOf(es[1..], sales)
  }

  /** `getOrganizerAnalytics`. The per-event rows add up to the totals, and
      the status counts add up to the number of events. */
  function GetOrganizerAnalytics(s: State, caller: Account): (a: OrganizerAnalytics)
    requires WellFormed(s)
    requires caller.role == Organizer
    ensures a.totalEvents == |EventsOf(s.events, caller.id)| == |a.eventAnalytics|
    ensures forall i :: 0 <= i < |a.eventAnalytics| ==>
      Describes(EventsOf(s.events, caller.id)[i], SalesOf(s.bookings, EventsOf(s.events, caller.id)), a.eventAnalytics[i])
    ensures a.pending == |EventsWithStatus(EventsOf(s.events, caller.id), Pending)|
    ensures a.approved == |EventsWithStatus(EventsOf(s.events, caller.id), Approved)|
    ensures a.rejected == |EventsWithStatus(EventsOf(s.events, caller.id), Rejected)|
    ensures a.pending + a.approved + a.rejected == a.totalEvents
    ensures a.totalBookings == |SalesOf(s.bookings, EventsOf(s.events, caller.id))|
    ensures a.totalRevenue == AmountTotal(SalesOf(s.bookings, EventsOf(s.events, caller.id)))
    ensures a.totalSeats == SeatsTotal(SalesOf(s.bookings, EventsOf(s.events, caller.id)))
    ensures RowSum(Revenue, a.eventAnalytics) == a.totalRevenue
    ensures RowSum(Seats, a.eventAnalytics) == a.totalSeats
    ensures RowSum(Count, a.eventAnalytics) == a.totalBookings
  {
    var mine := EventsOf(s.events, caller.id);
    var sales := SalesOf(s.bookings, mine);
    StatusesPartition(mine);
    MineDistinct(s.events, s.nextId, caller.id);
    var rows := FiguresOf(mine, sales);
    RowsMatchTotals(mine, sales);
    OrganizerAnalytics(
      |mine|,
      |EventsWithStatus(mine, Pending)|,
      |EventsWithStatus(mine, Approved)|,
      |EventsWithStatus(mine, Rejected)|,
      |sales|,
      AmountTotal(sales),
      SeatsTotal(sales),
      rows)
  }

  /** The three column sums of the rows are the dashboard's totals. */
  lemma RowsMatchTotals(mine: seq<Event>, sales: seq<Booking>)
    requires DistinctIds(mine)
    requires forall b :: b in sales ==> Owns(mine, b.event)
    ensures RowSum(Revenue, FiguresOf(mine, sales)) == AmountTotal(sales)
    ensures RowSum(Seats, FiguresOf(mine, sales)) == SeatsTotal(sales)
    ensures RowSum(Count, FiguresOf(mine, sales)) == |sales|
  {
    RowsAddUp(Revenue, mine, sales);
    RowsAddUp(Seats, mine, sales);
    RowsAddUp(Count, mine, sales);
  }

  /** When every booking is confirmed, as every booking the service creates
      is, each row agrees with the event's seat ledger: seats sold plus
      seats left is the capacity, and the row counts `bookingCount` bookings. */
  lemma RowsMatchLedger(s: State, caller: Account)
    requires Valid(s)
    requires caller.role == Organizer
    requires forall b :: b in s.bookings ==> b.status == Confirmed
    ensures forall x :: x in GetOrganizerAnalytics(s, caller).eventAnalytics ==>
      x.seatsSold + x.availableSeats == x.totalSeats
    ensures forall i :: 0 <= i < |GetOrganizerAnalytics(s, caller).eventAnalytics| ==>
      GetOrganizerAnalytics(s, caller).eventAnalytics[i].bookingCount
        == EventsOf(s.events, caller.id)[i].bookingCount
  {
    var mine := EventsOf(s.events, caller.id);
    var sales := SalesOf(s.bookings, mine);
    forall i | 0 <= i < |mine|
      ensures SalesFor(s.bookings, mine, i)
    {
      assert mine[i] in s.events;
      var k :| 0 <= k < |s.events| && s.events[k] == mine[i];
      assert SeatLedger(s.events[k], s.bookings);
      assert Owns(mine, mine[i].id);
      ConfirmedSalesAreAllBookings(s.bookings, mine, mine[i].id);
    }
    FiguresMatch(mine, s.bookings, sales);
  }

  /** Event `i` of `es` has its ledger over `bs`, and its sales are its bookings. */
  predicate SalesFor(bs: seq<Booking>, es: seq<Event>, i: nat)
    requires i < |es|
  {
    && SeatLedger(es[i], bs)
    && BookingsFor(SalesOf(bs, es), es[i].id) == BookingsFor(bs, es[i].id)
  }

  lemma {:induction false} FiguresMatch(es: seq<Event>, bs: seq<Booking>, sales: seq<Booking>)
    requires sales == SalesOf(bs, es)
    requires forall i :: 0 <= i < |es| ==> SalesFor(bs, es, i)
    ensures forall x :: x in FiguresOf(es, sales) ==> x.seatsSold + x.availableSeats == x.totalSeats
    ensures forall i :: 0 <= i < |es| ==> FiguresOf(es, sales)[i].bookingCount == es[i].bookingCount
  {
    var r := FiguresOf(es, sales);
    forall i | 0 <= i < |es|
      ensures r[i] == Figures(es[i], sales)
    {
      FiguresOfAt(es, sales, i);
    }
    forall i | 0 <= i < |es|
      ensures r[i].seatsSold + r[i].availableSeats == r[i].totalSeats
      ensures r[i].bookingCount == es[i].bookingCount
    {
      assert SalesFor(bs, es, i);
    }
  }

  lemma {:induction false} FiguresOfAt(es: seq<Event>, sales: seq<Booking>, i: nat)
    requires i < |es|
    ensures FiguresOf(es, sales)[i] == Figures(es[i], sales)
  {
    if i > 0 {
      FiguresOfAt(es[1..], sales, i - 1);
    }
  }

  /** With every booking confirmed, the sales of an owned event are all its bookings. */
  lemma {:induction false} ConfirmedSalesAreAllBookings(bs: seq<Booking>, es: seq<Event>, id: nat)
    requires forall b :: b in bs ==> b.status == Confirmed
    requires Owns(es, id)
    ensures BookingsFor(SalesOf(bs, es), id) == BookingsFor(bs, id)
  {
    if bs != [] {
      var init, last := bs[..|bs| - 1], bs[|bs| - 1];
      assert forall b :: b in init ==> b in bs;
      ConfirmedSalesAreAllBookings(init, es, id);
      var prev := SalesOf(init, es);
      if Owns(es, last.event) {
        assert SalesOf(bs, es) == prev + [last];
        assert (prev + [last])[..|prev|] == prev;
      } else {
        assert last.event != id;
        assert SalesOf(bs, es) == prev;
      }
    }
  }

  /** The caller's events carry distinct ids. */
  lemma MineDistinct(es: seq<Event>, nextId: nat, organizer: nat)
    requires EventsWellFormed(es, nextId)
    ensures DistinctIds(EventsOf(es, organizer))
  {
    Events.EventsOfIncreasing(es, organizer);
  }

  // ------------------------------------------------ the rows add up

  /** The three figures summed over bookings and over rows. */
  datatype Measure = Revenue | Seats | Count

  function Weight(m: Measure, b: Booking): int {
    match m
    case Revenue => b.totalAmount
    case Seats => b.seats
    case Count => 1
  }

  function Field(m: Measure, x: EventFigures): int {
    match m
    case Revenue => x.revenue
    case Seats => x.seatsSold
    case Count => x.bookingCount
  }

  function Total(m: Measure, bs: seq<Booking>): int {
    if bs == [] then 0 else Total(m, bs[..|bs| - 1]) + Weight(m, bs[|bs| - 1])
  }

  function RowSum(m: Measure, rows: seq<EventFigures>): int {
    if rows == [] then 0 else Field(m, rows[0]) + RowSum(m, rows[1..])
  }

  /** The controller's `reduce` (or `length`) for each figure. */
  function Reduced(m: Measure, bs: seq<Booking>): int {
    match m
    case Revenue => AmountTotal(bs)
    case Seats => SeatsTotal(bs)
    case Count => |bs|
  }

  /** `Total` agrees with the controller's `reduce` for each figure. */
  lemma {:induction false} TotalIsReduce(m: Measure, bs: seq<Booking>)
    ensures Reduced(m, bs) == Total(m, bs)
  {
    if bs != [] {
      TotalIsReduce(m, bs[..|bs| - 1]);
    }
  }

  /** Each event's total over its own sales, summed over the events. */
  function PerEvent(m: Measure, es: seq<Event>, bs: seq<Booking>): int {
    if es == [] then 0 else Total(m, BookingsFor(bs, es[0].id)) + PerEvent(m, es[1..], bs)
  }

  /** The per-event rows add up to the controller's totals. */
  lemma RowsAddUp(m: Measure, es: seq<Event>, sales: seq<Booking>)
    requires DistinctIds(es)
    requires forall b :: b in sales ==> Owns(es, b.event)
    ensures RowSum(m, FiguresOf(es, sales)) == Reduced(m, sales)
  {
    RowsArePerEvent(m, es, sales);
    PerEventCovers(m, es, sales);
    TotalIsReduce(m, sales);
  }

  lemma {:induction false} RowsArePerEvent(m: Measure, es: seq<Event>, sales: seq<Booking>)
    ensures RowSum(m, FiguresOf(es, sales)) == PerEvent(m, es, sales)
  {
    if es != [] {
      RowsArePerEvent(m, es[1..], sales);
      TotalIsReduce(m, BookingsFor(sales, es[0].id));
    }
  }

  /** Summing per event counts every booking of the events exactly once. */
  lemma {:induction false} PerEventCovers(m: Measure, es: seq<Event>, bs: seq<Booking>)
    requires DistinctIds(es)
    requires forall b :: b in bs ==> Owns(es, b.event)
    ensures PerEvent(m, es, bs) == Total(m, bs)
  {
    if bs == [] {
      NothingPerEvent(m, es);
    } else {
      var init, last := bs[..|bs| - 1], bs[|bs| - 1];
      assert bs == init + [last];
      assert Owns(es, last.event) by { assert last in bs; }
      assert forall b :: b in init ==> Owns(es, b.event) by {
        forall b | b in init
          ensures Owns(es, b.event)
        {
          assert b in bs;
        }
      }
      PerEventCovers(m, es, init);
      PerEventSnoc(m, es, init, last);
      assert Total(m, bs) == Total(m, init) + Weight(m, last);
    }
  }

  lemma {:induction false} NothingPerEvent(m: Measure, es: seq<Event>)
    ensures PerEvent(m, es, []) == 0
  {
    if es != [] {
      NothingPerEvent(m, es[1..]);
    }
  }

  /** A new booking adds its weight to exactly the one event it is for. */
  lemma {:induction false} PerEventSnoc(m: Measure, es: seq<Event>, bs: seq<Booking>, b: Booking)
    requires DistinctIds(es)
    ensures PerEvent(m, es, bs + [b]) == PerEvent(m, es, bs) + (if Owns(es, b.event) then Weight(m, b) else 0)
  {
    if es != [] {
      var e, rest := es[0], es[1..];
      assert DistinctIds(rest) by {
        forall i, j | 0 <= i < j < |rest|
          ensures rest[i].id != rest[j].id
        {
          assert rest[i] == es[i + 1] && rest[j] == es[j + 1];
        }
      }
      PerEventSnoc(m, rest, bs, b);
      assert (bs + [b])[..|bs|] == bs;
      var prev := BookingsFor(bs, e.id);
      if b.event == e.id {
        assert BookingsFor(bs + [b], e.id) == prev + [b];
        assert (prev + [b])[..|prev|] == prev;
        assert !Owns(rest, b.event) by {
          forall i | 0 <= i < |rest|
            ensures rest[i].id != b.event
          {
            assert rest[i] == es[i + 1];
          }
        }
        assert Owns(es, b.event) by { assert es[0].id == b.event; }
      } else {
        assert BookingsFor(bs + [b], e.id) == prev;
        assert Owns(es, b.event) <==> Owns(rest, b.event) by {
          if Owns(es, b.event) {
            var i :| 0 <= i < |es| && es[i].id == b.event;
            assert i > 0 && rest[i - 1] == es[i];
          }
          if Owns(rest, b.event) {
            var i :| 0 <= i < |rest| && rest[i].id == b.event;
            assert es[i + 1] == rest[i];
          }
        }
      }
    }
  }
}
