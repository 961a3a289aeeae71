/** The administrator's controller (backend/controllers/adminController.js):
    approving or rejecting an event, the pending queue and the dashboard
    figures. */
module Admin {
  import opened Maybe
  import opened Domain
  import opened Store
  import opened Sorting
  import Listing

  // ---------------------------------------------------------- moderation

  /** `updateEventStatus`: only `approved` and `rejected` are accepted, and
      that check comes before the lookup. Any current status may be changed,
      and nothing but the status changes. The new status is saved before the
      approval email is addressed to `event.organizer.email`; when no account
      has the organizer's id, `populate` leaves `organizer` null, reading its
      `email` throws, and the catch block answers 500 with the status already
      stored. */
  function UpdateEventStatus(s: State, caller: Account, id: nat, status: string): (out: (Response<Event>, State))
    requires WellFormed(s)
    requires caller.role == Admin
    ensures status != "approved" && status != "rejected" ==> out == (BadRequest(InvalidStatus), s)
    ensures (status == "approved" || status == "rejected") && !HasEvent(s.events, id) ==> out == (NotFound, s)
    ensures forall i :: 0 <= i < |s.events| && s.events[i].id == id && (status == "approved" || status == "rejected") ==>
      var e := WithStatus(s.events[i], Verdict(status));
      && StatusName(e.status) == status
      && out.1 == s.(events := s.events[i := e])
      && (out.0.Ok? <==> status == "rejected" || HasAccount(s.users, e.organizer))
      && (out.0.Ok? ==> out.0 == Ok(e))
      && (!out.0.Ok? ==> out.0 == ServerError)
    ensures !out.0.Ok? && !out.0.ServerError? ==> out.1 == s
  {
    if status != "approved" && status != "rejected" then (BadRequest(InvalidStatus), s)
    else
      var out := SetStatus(s, id, Verdict(status));
      if out.0.Ok? && status == "approved" && !HasAccount(s.users, out.0.value.organizer) then (ServerError, out.1)
      else out
  }

  /** The status an administrator's verdict names. */
  function Verdict(status: string): (st: EventStatus)
    requires status == "approved" || status == "rejected"
    ensures StatusName(st) == status
  {
    if status == "approved" then Approved else Rejected
  }

  /** `findById`, 404 when absent, then `event.status = status; save()`. */
  function SetStatus(s: State, id: nat, st: EventStatus): (out: (Response<Event>, State))
    requires WellFormed(s)
    ensures !HasEvent(s.events, id) ==> out == (NotFound, s)
    ensures forall i :: 0 <= i < |s.events| && s.events[i].id == id ==>
      out == (Ok(WithStatus(s.events[i], st)), s.(events := s.events[i := WithStatus(s.events[i], st)]))
  {
    match EventIndex(s.events, id)
    case None => (NotFound, s)
    case Some(i) =>
      OnlyIndex(s.events, s.nextId, i);
      (Ok(WithStatus(s.events[i], st)), s.(events := s.events[i := WithStatus(s.events[i], st)]))
  }

  function WithStatus(e: Event, st: EventStatus): Event {
    e.(status := st)
  }

  /** Moderation touches neither the seats nor the ratings, so it keeps the invariant. */
  lemma UpdateEventStatusPreservesValid(s: State, caller: Account, id: nat, status: string)
    requires Valid(s)
    requires caller.role == Admin
    ensures Valid(UpdateEventStatus(s, caller, id, status).1)
  {
    if status == "approved" || status == "rejected" {
      SetStatusPreservesValid(s, id, Verdict(status));
    }
  }

  lemma SetStatusPreservesValid(s: State, id: nat, st: EventStatus)
    requires Valid(s)
    ensures Valid(SetStatus(s, id, st).1)
  {
    if HasEvent(s.events, id) {
      var i := EventIndex(s.events, id).value;
      SetStatusAt(s, id, st, i);
      StatusKeepsValid(s, i, st);
    }
  }

  lemma SetStatusAt(s: State, id: nat, st: EventStatus, i: nat)
    requires WellFormed(s)
    requires i < |s.events| && s.events[i].id == id
    ensures SetStatus(s, id, st).1 == s.(events := s.events[i := WithStatus(s.events[i], st)])
  {
  }

  lemma StatusKeepsValid(s: State, i: nat, st: EventStatus)
    requires Valid(s) && i < |s.events|
    ensures Valid(s.(events := s.events[i := WithStatus(s.events[i], st)]))
  {
    StatusKeepsLedgers(s, i, st);
    StatusKeepsWellFormed(s.events, s.nextId, i, st);
  }

  lemma StatusKeepsLedgers(s: State, i: nat, st: EventStatus)
    requires forall j :: 0 <= j < |s.events| ==> SeatLedger(s.events[j], s.bookings)
    requires forall j :: 0 <= j < |s.events| ==> RatingLedger(s.events[j], s.reviews)
    requires i < |s.events|
    ensures var es := s.events[i := WithStatus(s.events[i], st)];
      && (forall j :: 0 <= j < |es| ==> SeatLedger(es[j], s.bookings))
      && (forall j :: 0 <= j < |es| ==> RatingLedger(es[j], s.reviews))
  {
    var es := s.events[i := WithStatus(s.events[i], st)];
    forall j | 0 <= j < |es|
      ensures SeatLedger(es[j], s.bookings) && RatingLedger(es[j], s.reviews)
    {
      if j == i {
        LedgersIgnoreStatus(s.events[i], st, s.bookings, s.reviews);
      } else {
        assert es[j] == s.events[j];
      }
    }
  }

  /** The ledgers read the counters, never the status. */
  lemma LedgersIgnoreStatus(e: Event, st: EventStatus, bs: seq<Booking>, rs: seq<Review>)
    requires SeatLedger(e, bs) && RatingLedger(e, rs)
    ensures SeatLedger(WithStatus(e, st), bs) && RatingLedger(WithStatus(e, st), rs)
  {
    var e' := WithStatus(e, st);
    assert e'.id == e.id && e'.averageRating == e.averageRating && e'.reviewCount == e.reviewCount;
    assert e'.availableSeats == e.availableSeats && e'.totalSeats == e.totalSeats;
    assert e'.bookingCount == e.bookingCount;
  }

  lemma StatusKeepsWellFormed(es: seq<Event>, nextId: nat, i: nat, st: EventStatus)
    requires EventsWellFormed(es, nextId)
    requires i < |es|
    ensures EventsWellFormed(es[i := WithStatus(es[i], st)], nextId)
  {
    ReplaceEventAt(es, nextId, i, WithStatus(es[i], st));
  }

  /** The event stored under `id` after moderation carries the new status. */
  lemma SetStatusMarks(s: State, id: nat, st: EventStatus)
    requires WellFormed(s)
    ensures forall e :: e in SetStatus(s, id, st).1.events && e.id == id ==> e.status == st
  {
    if HasEvent(s.events, id) {
      var i :| 0 <= i < |s.events| && s.events[i].id == id;
      var e := WithStatus(s.events[i], st);
      assert SetStatus(s, id, st).1.events == s.events[i := e];
      ReplacedIsOnly(s.events, s.nextId, i, e);
    }
  }

  /** Approval publishes: the approved event is listed by the catalogue
      under a query that narrows nothing, even when the reply is the 500 of
      an organizer without an account, since the status was saved first. */
  lemma ApprovalPublishes(s: State, caller: Account, i: nat, sortBy: string)
    requires WellFormed(s)
    requires caller.role == Admin
    requires i < |s.events|
    ensures var out := UpdateEventStatus(s, caller, s.events[i].id, "approved");
      && WithStatus(s.events[i], Approved) in Listing.GetEvents(out.1, Listing.Query("", "", "", None, None, sortBy))
      && (out.0.Ok? ==> out.0.value == WithStatus(s.events[i], Approved))
  {
    var s' := s.(events := s.events[i := WithStatus(s.events[i], Approved)]);
    ApprovalAt(s, caller, s.events[i].id, i);
    ApprovedListed(s', i, sortBy);
  }

  /** The state and reply of approving the event at index `i`. */
  lemma ApprovalAt(s: State, caller: Account, id: nat, i: nat)
    requires WellFormed(s)
    requires caller.role == Admin
    requires i < |s.events| && s.events[i].id == id
    ensures var out := UpdateEventStatus(s, caller, id, "approved");
      && out.1 == s.(events := s.events[i := WithStatus(s.events[i], Approved)])
      && (out.0.Ok? ==> out.0.value == WithStatus(s.events[i], Approved))
  {
  }

  /** An approved stored event is listed under a query that narrows nothing. */
  lemma ApprovedListed(s: State, i: nat, sortBy: string)
    requires i < |s.events| && s.events[i].status == Approved
    ensures s.events[i] in Listing.GetEvents(s, Listing.Query("", "", "", None, None, sortBy))
  {
    Listing.EmptyQueryListsApproved(s, sortBy);
  }

  /** Rejection withdraws: no listing shows an event with that id afterwards. */
  lemma RejectionWithdraws(s: State, caller: Account, id: nat, q: Listing.Query)
    requires WellFormed(s)
    requires caller.role == Admin
    ensures forall e :: e in Listing.GetEvents(UpdateEventStatus(s, caller, id, "rejected").1, q) ==> e.id != id
  {
    SetStatusMarks(s, id, Rejected);
  }

  /** `getPendingEvents`: the moderation queue, newest first. */
  function GetPendingEvents(s: State, caller: Account): (r: seq<Event>)
    requires WellFormed(s)
    requires caller.role == Admin
    ensures forall e :: e in r <==> e in s.events && e.status == Pending
    ensures forall i, j :: 0 <= i < j < |r| ==> r[i].id > r[j].id
  {
    PendingIncreasing(s.events);
    NewestFirst(EventsWithStatus(s.events, Pending))
  }

  lemma {:induction false} PendingIncreasing(es: seq<Event>)
    requires forall i, j :: 0 <= i < j < |es| ==> es[i].id < es[j].id
    ensures forall i, j :: 0 <= i < j < |EventsWithStatus(es, Pending)| ==>
      EventsWithStatus(es, Pending)[i].id < EventsWithStatus(es, Pending)[j].id
  {
    if es != [] {
      var init, last := es[..|es| - 1], es[|es| - 1];
      PendingIncreasing(init);
      var f := EventsWithStatus(init, Pending);
      forall k | 0 <= k < |f|
        ensures f[k].id < last.id
      {
        assert f[k] in init;
      }
    }
  }

  // ----------------------------------------------------------- dashboard

  /** One row of the `eventsByCategory` aggregation. */
  datatype CategoryCount = CategoryCount(category: Category, count: nat)

  datatype AdminAnalytics = AdminAnalytics(
    users: nat,
    organizers: nat,
    totalEvents: nat,
    pending: nat,
    approved: nat,
    rejected: nat,
    totalBookings: nat,
    totalRevenue: int,
    eventsByCategory: seq<CategoryCount>,
    recentBookings: seq<Booking>)

  /** `User.countDocuments({ role })`. */
  function CountRole(us: seq<Account>, role: Role): (n: nat)
    ensures n <= |us|
    ensures n == 0 <==> forall u :: u in us ==> u.role != role
  {
    if us == [] then 0
    else CountRole(us[..|us| - 1], role) + (if us[|us| - 1].role == role then 1 else 0)
  }

  /** The number of events in `es` of category `c`. */
  function CountIn(es: seq<Event>, c: Category): nat {
    if es == [] then 0
    else CountIn(es[..|es| - 1], c) + (if es[|es| - 1].category == c then 1 else 0)
  }

  /** `$group: { _id: '$category', count: { $sum: 1 } }`: one row per
      category (taken in `cs` order) that occurs at least once. */
  function Groups(cs: seq<Category>, es: seq<Event>): (g: seq<CategoryCount>)
    ensures forall x :: x in g ==> x.category in cs && x.count == CountIn(es, x.category) && x.count > 0
    ensures forall c :: c in cs && CountIn(es, c) > 0 ==> exists x :: x in g && x.category == c
  {
    if cs == [] then []
    else
      var n := CountIn(es, cs[0]);
      (if n > 0 then [CategoryCount(cs[0], n)] else []) + Groups(cs[1..], es)
  }

  /** `$sort: { count: -1 }`. */
  function ByCount(): (CategoryCount, CategoryCount) -> bool {
    (a: CategoryCount, b: CategoryCount) => a.count >= b.count
  }

  lemma ByCountIsTotal()
    ensures TotalPreorder(ByCount())
  {
  }

  /** The page size of the recent-bookings `.limit(10)`. */
  const RecentLimit: nat := 10

  /** `r` is the first page of `bs` newest first: `min(RecentLimit, |bs|)`
      stored bookings, newest first, and every booking left out is older
      than every booking shown. */
  predicate NewestPage(bs: seq<Booking>, r: seq<Booking>) {
    && |r| == Min(RecentLimit, |bs|)
    && (forall b :: b in r ==> b in bs)
    && (forall i, j :: 0 <= i < j < |r| ==> r[i].id > r[j].id)
    && (forall b :: b in bs && b !in r ==> forall x :: x in r ==> b.id < x.id)
  }

  /** `Booking.find().sort({ createdAt: -1 }).limit(10)`. */
  function RecentBookings(bs: seq<Booking>): (r: seq<Booking>)
    requires forall i, j :: 0 <= i < j < |bs| ==> bs[i].id < bs[j].id
    ensures NewestPage(bs, r)
  {
    var all := NewestFirst(bs);
    var n := Min(RecentLimit, |bs|);
    var r := all[..n];
    assert forall m :: |bs| - n <= m < |bs| ==> r[|bs| - 1 - m] == bs[m];
    forall b | b in bs && b !in r
      ensures forall x :: x in r ==> b.id < x.id
    {
      var m :| 0 <= m < |bs| && bs[m] == b;
      forall x | x in r
        ensures b.id < x.id
      {
        var k :| 0 <= k < n && r[k] == x;
        assert x == bs[|bs| - 1 - k];
      }
    }
    r
  }

  /** `getAdminAnalytics`. The revenue adds up the amount of every booking,
      whatever its status. Of the state's integrity it needs only that
      booking ids follow creation order, which `WellFormed` provides. */
  function GetAdminAnalytics(s: State, caller: Account): (a: AdminAnalytics)
    requires forall i, j :: 0 <= i < j < |s.bookings| ==> s.bookings[i].id < s.bookings[j].id
    requires caller.role == Admin
    ensures a.users == CountRole(s.users, User) && a.organizers == CountRole(s.users, Organizer)
    ensures a.pending == |EventsWithStatus(s.events, Pending)|
    ensures a.approved == |EventsWithStatus(s.events, Approved)|
    ensures a.rejected == |EventsWithStatus(s.events, Rejected)|
    ensures a.pending + a.approved + a.rejected == a.totalEvents == |s.events|
    ensures a.pending == 0 <==> forall e :: e in s.events ==> e.status != Pending
    ensures a.approved == 0 <==> forall e :: e in s.events ==> e.status != Approved
    ensures a.rejected == 0 <==> forall e :: e in s.events ==> e.status != Rejected
    ensures a.totalBookings == |s.bookings| && a.totalRevenue == AmountTotal(s.bookings)
    ensures CategoryRows(EventsWithStatus(s.events, Approved), a.eventsByCategory)
    ensures SumCounts(a.eventsByCategory) == a.approved
    ensures a.recentBookings == RecentBookings(s.bookings)
    ensures NewestPage(s.bookings, a.recentBookings)
  {
    var counts := StatusCounts(s.events);
    var byCategory := EventsByCategory(EventsWithStatus(s.events, Approved));
    var recent := RecentBookings(s.bookings);
    AdminAnalytics(
      CountRole(s.users, User),
      CountRole(s.users, Organizer),
      |s.events|,
      counts.0,
      counts.1,
      counts.2,
      |s.bookings|,
      AmountTotal(s.bookings),
      byCategory,
      recent)
  }

  /** The three `countDocuments({ status })` figures: they partition the
      events, and each is zero exactly when no event has that status. */
  function StatusCounts(es: seq<Event>): (c: (nat, nat, nat))
    ensures c == (|EventsWithStatus(es, Pending)|, |EventsWithStatus(es, Approved)|, |EventsWithStatus(es, Rejected)|)
    ensures c.0 + c.1 + c.2 == |es|
    ensures c.0 == 0 <==> forall e :: e in es ==> e.status != Pending
    ensures c.1 == 0 <==> forall e :: e in es ==> e.status != Approved
    ensures c.2 == 0 <==> forall e :: e in es ==> e.status != Rejected
  {
    StatusesPartition(es);
    NoneWithStatus(es, Pending);
    NoneWithStatus(es, Approved);
    NoneWithStatus(es, Rejected);
    (|EventsWithStatus(es, Pending)|, |EventsWithStatus(es, Approved)|, |EventsWithStatus(es, Rejected)|)
  }

  /** `g` answers the `eventsByCategory` pipeline over the events `es`: each
      row carries a category that occurs and its exact count, every category
      that occurs has a row, no category has two, and the most frequent come
      first. */
  predicate CategoryRows(es: seq<Event>, g: seq<CategoryCount>) {
    && (forall x :: x in g ==> x.count > 0 && x.count == CountIn(es, x.category))
    && (forall c :: CountIn(es, c) > 0 ==> exists x :: x in g && x.category == c)
    && (forall i, j :: 0 <= i < j < |g| ==> g[i].category != g[j].category)
    && (forall i, j :: 0 <= i < j < |g| ==> g[i].count >= g[j].count)
  }

  /** The `eventsByCategory` pipeline over the approved events `es`: one row
      per category that occurs, with its count, most frequent first; the
      counts add up to the number of events. */
  function EventsByCategory(es: seq<Event>): (g: seq<CategoryCount>)
    ensures CategoryRows(es, g)
    ensures SumCounts(g) == |es|
  {
    ByCountIsTotal();
    var groups := Groups(Categories, es);
    var sorted := Sort(ByCount(), groups);
    SameMembers(sorted, groups);
    EveryCategoryListed(Music);
    SortedRowsDistinct(Categories, es, sorted);
    forall c | CountIn(es, c) > 0
      ensures exists x :: x in sorted && x.category == c
    {
      EveryCategoryListed(c);
    }
    GroupsCount(Categories, es);
    CountsCoverEvents(es);
    SumCountsPermutation(sorted, groups);
    sorted
  }

  /** The grouped rows, in any order, name each category once: `$group`
      makes one row per category, and sorting only reorders the rows. */
  lemma SortedRowsDistinct(cs: seq<Category>, es: seq<Event>, sorted: seq<CategoryCount>)
    requires forall i, j :: 0 <= i < j < |cs| ==> cs[i] != cs[j]
    requires multiset(sorted) == multiset(Groups(cs, es))
    ensures forall i, j :: 0 <= i < j < |sorted| ==> sorted[i].category != sorted[j].category
  {
    var groups := Groups(cs, es);
    GroupsDistinct(cs, es);
    DistinctCountsAtMostOne(groups);
    SameMembers(sorted, groups);
    forall i, j | 0 <= i < j < |sorted|
      ensures sorted[i].category != sorted[j].category
    {
      RepeatCountsTwice(sorted, i, j);
      assert sorted[i] in groups && sorted[j] in groups;
    }
  }

  /** Over distinct categories, no two groups share a category. */
  lemma {:induction false} GroupsDistinct(cs: seq<Category>, es: seq<Event>)
    requires forall i, j :: 0 <= i < j < |cs| ==> cs[i] != cs[j]
    ensures forall i, j :: 0 <= i < j < |Groups(cs, es)| ==> Groups(cs, es)[i] != Groups(cs, es)[j]
    ensures forall i, j :: 0 <= i < j < |Groups(cs, es)| ==> Groups(cs, es)[i].category != Groups(cs, es)[j].category
  {
    if cs != [] {
      var rest := cs[1..];
      assert forall i, j :: 0 <= i < j < |rest| ==> rest[i] != rest[j] by {
        forall i, j | 0 <= i < j < |rest|
          ensures rest[i] != rest[j]
        {
          assert rest[i] == cs[i + 1] && rest[j] == cs[j + 1];
        }
      }
      GroupsDistinct(rest, es);
      assert cs[0] !in rest by {
        forall k | 0 <= k < |rest|
          ensures rest[k] != cs[0]
        {
          assert rest[k] == cs[k + 1];
        }
      }
    }
  }

  lemma SameMembers(a: seq<CategoryCount>, b: seq<CategoryCount>)
    requires multiset(a) == multiset(b)
    ensures forall x :: x in a <==> x in b
  {
    assert forall x :: x in a <==> x in multiset(a);
    assert forall x :: x in b <==> x in multiset(b);
  }

  /** Every category is listed, exactly once. */
  lemma EveryCategoryListed(c: Category)
    ensures c in Categories
    ensures forall i, j :: 0 <= i < j < |Categories| ==> Categories[i] != Categories[j]
  {
    match c
    case Music => assert Categories[0] == c;
    case Technology => assert Categories[1] == c;
    case Sports => assert Categories[2] == c;
    case Art => assert Categories[3] == c;
    case Education => assert Categories[4] == c;
    case Business => assert Categories[5] == c;
    case Food => assert Categories[6] == c;
    case Health => assert Categories[7] == c;
    case Entertainment => assert Categories[8] == c;
    case Other => assert Categories[9] == c;
  }

  lemma NoneWithStatus(es: seq<Event>, st: EventStatus)
    ensures |EventsWithStatus(es, st)| == 0 <==> forall e :: e in es ==> e.status != st
  {
    if |EventsWithStatus(es, st)| != 0 {
      assert EventsWithStatus(es, st)[0] in EventsWithStatus(es, st);
    }
  }

  // ------------------------------------------- the category counts add up

  function SumCounts(g: seq<CategoryCount>): int {
    if g == [] then 0 else g[0].count + SumCounts(g[1..])
  }

  /** `CountIn(es, c)` summed over the categories `cs`. */
  function CountsOver(cs: seq<Category>, es: seq<Event>): int {
    if cs == [] then 0 else CountIn(es, cs[0]) + CountsOver(cs[1..], es)
  }

  /** Dropping the empty groups does not change the total. */
  lemma {:induction false} GroupsCount(cs: seq<Category>, es: seq<Event>)
    ensures SumCounts(Groups(cs, es)) == CountsOver(cs, es)
  {
    if cs != [] {
      GroupsCount(cs[1..], es);
      var n := CountIn(es, cs[0]);
      var head: seq<CategoryCount> := if n > 0 then [CategoryCount(cs[0], n)] else [];
      SumCountsAppend(head, Groups(cs[1..], es));
    }
  }

  lemma {:induction false} SumCountsAppend(a: seq<CategoryCount>, b: seq<CategoryCount>)
    ensures SumCounts(a + b) == SumCounts(a) + SumCounts(b)
  {
    if a == [] {
      assert a + b == b;
    } else {
      assert (a + b)[1..] == a[1..] + b;
      SumCountsAppend(a[1..], b);
    }
  }

  /** Appending an event raises the total by one if its category is among
      the (distinct) categories `cs`. */
  lemma {:induction false} CountsOverSnoc(cs: seq<Category>, es: seq<Event>, e: Event)
    requires forall i, j :: 0 <= i < j < |cs| ==> cs[i] != cs[j]
    ensures CountsOver(cs, es + [e]) == CountsOver(cs, es) + (if e.category in cs then 1 else 0)
  {
    assert (es + [e])[..|es|] == es;
    if cs != [] {
      CountsOverSnoc(cs[1..], es, e);
      assert e.category in cs <==> e.category == cs[0] || e.category in cs[1..];
      assert cs[0] !in cs[1..];
    }
  }

  /** Each event has exactly one of the ten categories, so the per-category
      counts add up to the number of events. */
  lemma {:induction false} CountsCoverEvents(es: seq<Event>)
    ensures CountsOver(Categories, es) == |es|
  {
    if es != [] {
      var init, last := es[..|es| - 1], es[|es| - 1];
      CountsCoverEvents(init);
      assert es == init + [last];
      EveryCategoryListed(last.category);
      CountsOverSnoc(Categories, init, last);
      assert CountsOver(Categories, init + [last]) == CountsOver(Categories, init) + 1;
    } else {
      NoEventsNoCounts(Categories);
    }
  }

  lemma {:induction false} NoEventsNoCounts(cs: seq<Category>)
    ensures CountsOver(cs, []) == 0
  {
    if cs != [] {
      NoEventsNoCounts(cs[1..]);
    }
  }

  /** The sum of the counts does not depend on the order of the rows. */
  lemma {:induction false} SumCountsPermutation(a: seq<CategoryCount>, b: seq<CategoryCount>)
    requires multiset(a) == multiset(b)
    ensures SumCounts(a) == SumCounts(b)
    decreases |a|
  {
    if a == [] {
      assert |multiset(b)| == 0;
    } else {
      var k := RowOf(b, a[0]);
      RemoveRow(b, k);
      DropFirst(a);
      SumCountsPermutation(a[1..], b[..k] + b[k + 1..]);
    }
  }

  /** A position of row `x` in `b`. */
  function RowOf(b: seq<CategoryCount>, x: CategoryCount): (k: nat)
    requires x in multiset(b)
    ensures k < |b| && b[k] == x
  {
    if b[0] == x then 0
    else
      assert x in multiset(b[1..]) by {
        assert b == [b[0]] + b[1..];
      }
      1 + RowOf(b[1..], x)
  }

  lemma DropFirst(a: seq<CategoryCount>)
    requires a != []
    ensures multiset(a[1..]) == multiset(a) - multiset{a[0]}
  {
    assert a == [a[0]] + a[1..];
  }

  /** Taking row `k` out of `b`. */
  lemma RemoveRow(b: seq<CategoryCount>, k: nat)
    requires k < |b|
    ensures multiset(b[..k] + b[k + 1..]) == multiset(b) - multiset{b[k]}
    ensures SumCounts(b) == b[k].count + SumCounts(b[..k] + b[k + 1..])
  {
    SplitAt(b, k);
    RemoveRowMultiset(b[..k], b[k], b[k + 1..]);
    RemoveRowSum(b[..k], b[k], b[k + 1..]);
  }

  lemma SplitAt(b: seq<CategoryCount>, k: nat)
    requires k < |b|
    ensures b == b[..k] + ([b[k]] + b[k + 1..])
  {
  }

  lemma RemoveRowMultiset(pre: seq<CategoryCount>, x: CategoryCount, post: seq<CategoryCount>)
    ensures multiset(pre + post) == multiset(pre + ([x] + post)) - multiset{x}
  {
    assert multiset(pre + ([x] + post)) == multiset(pre) + multiset{x} + multiset(post);
  }

  lemma RemoveRowSum(pre: seq<CategoryCount>, x: CategoryCount, post: seq<CategoryCount>)
    ensures SumCounts(pre + ([x] + post)) == x.count + SumCounts(pre + post)
  {
    SumCountsAppend(pre, [x] + post);
    assert ([x] + post)[1..] == post;
    SumCountsAppend(pre, post);
  }
}
