/** The public catalogue (backend/controllers/eventController.js):
    `getEvents` filters the approved events by the query string and sorts
    them by one of six keys; `getRecommendedEvents` picks the six best-rated
    approved events that fit the caller's preferences. */
module Listing {
  import opened Maybe
  import opened Text
  import opened Domain
  import opened Sorting

  /** `GET /events` query parameters. A parameter that is absent or empty is
      falsy in the controller, so both are the empty string (or `None` for
      the price bounds). */
  datatype Query = Query(
    search: string,
    category: string,
    location: string,
    minPrice: Option<int>,
    maxPrice: Option<int>,
    sortBy: string)

  /** The Mongo filter the controller builds: approved, the search text in
      the title or the description, the category unless it is `all`, the
      location text, and the inclusive price bounds. */
  predicate Matches(q: Query, e: Event) {
    && e.status == Approved
    && (q.search != [] ==>
          ContainsIgnoringCase(e.title, q.search) || ContainsIgnoringCase(e.description, q.search))
    && (q.category != [] && q.category != "all" ==> CategoryName(e.category) == q.category)
    && (q.location != [] ==> ContainsIgnoringCase(e.location, q.location))
    && (q.minPrice.Some? ==> e.price >= q.minPrice.value)
    && (q.maxPrice.Some? ==> e.price <= q.maxPrice.value)
  }

  /** `Event.find(query)`: every matching event as often as it is stored, nothing else. */
  function Select(es: seq<Event>, q: Query): (r: seq<Event>)
    ensures forall e :: multiset(r)[e] == if Matches(q, e) then multiset(es)[e] else 0
    ensures forall e :: e in r <==> e in es && Matches(q, e)
  {
    if es == [] then []
    else
      var init, last := es[..|es| - 1], es[|es| - 1];
      assert es == init + [last];
      Select(init, q) + (if Matches(q, last) then [last] else [])
  }

  /** The `sortBy` switch. */
  datatype SortKey = Popular | PriceLow | PriceHigh | Soonest | TopRated | Newest

  function SortKeyOf(sortBy: string): (k: SortKey)
    ensures k == Popular <==> sortBy == "popular"
    ensures k == PriceLow <==> sortBy == "price-low"
    ensures k == PriceHigh <==> sortBy == "price-high"
    ensures k == Soonest <==> sortBy == "date"
    ensures k == TopRated <==> sortBy == "rating"
  {
    if sortBy == "popular" then Popular
    else if sortBy == "price-low" then PriceLow
    else if sortBy == "price-high" then PriceHigh
    else if sortBy == "date" then Soonest
    else if sortBy == "rating" then TopRated
    else Newest
  }

  /** `a` may precede `b` under the sort key: `bookingCount` descending,
      `price` ascending or descending, `date` ascending, `averageRating`
      descending, or `createdAt` (the id) descending. */
  predicate Precedes(k: SortKey, a: Event, b: Event) {
    match k
    case Popular => a.bookingCount >= b.bookingCount
    case PriceLow => a.price <= b.price
    case PriceHigh => a.price >= b.price
    case Soonest => a.date <= b.date
    case TopRated => a.averageRating >= b.averageRating
    case Newest => a.id >= b.id
  }

  function Order(k: SortKey): (Event, Event) -> bool {
    (a: Event, b: Event) => Precedes(k, a, b)
  }

  lemma OrderIsTotal(k: SortKey)
    ensures TotalPreorder(Order(k))
  {
    match k
    case Popular =>
    case PriceLow =>
    case PriceHigh =>
    case Soonest =>
    case TopRated =>
    case Newest =>
  }

  /** `getEvents`: exactly the matching approved events, each as often as it
      is stored, in the order the `sortBy` key asks for. */
  function GetEvents(s: State, q: Query): (r: seq<Event>)
    ensures forall e :: multiset(r)[e] == if Matches(q, e) then multiset(s.events)[e] else 0
    ensures forall e :: e in r <==> e in s.events && Matches(q, e)
    ensures forall i, j :: 0 <= i < j < |r| ==> Precedes(SortKeyOf(q.sortBy), r[i], r[j])
  {
    var k := SortKeyOf(q.sortBy);
    OrderIsTotal(k);
    var r := Sort(Order(k), Select(s.events, q));
    assert forall e :: e in r <==> e in multiset(r);
    r
  }

  /** A query that narrows nothing: the catalogue is every approved event. */
  lemma EmptyQueryListsApproved(s: State, sortBy: string)
    ensures forall e :: e in GetEvents(s, Query("", "", "", None, None, sortBy)) <==>
      e in s.events && e.status == Approved
  {
  }

  /** Adding a filter never adds results: the catalogue under a query is
      contained in the catalogue under the same query without a category. */
  lemma CategoryNarrows(s: State, q: Query)
    ensures forall e :: e in GetEvents(s, q) ==> e in GetEvents(s, q.(category := ""))
  {
  }

  // ------------------------------------------------------- recommendations

  /** The recommendation filter: approved, a category among the preferred
      ones and a location among the preferred ones, each only when the list
      is non-empty. Locations match exactly (`$in`), unlike the catalogue's
      substring search. */
  predicate Recommendable(p: Preferences, e: Event) {
    && e.status == Approved
    && (p.categories != [] ==> CategoryName(e.category) in p.categories)
    && (p.locations != [] ==> e.location in p.locations)
  }

  /** `Event.find(query)` with the recommendation filter: every fitting event
      as often as it is stored, nothing else. */
  function Candidates(es: seq<Event>, p: Preferences): (r: seq<Event>)
    ensures forall e :: multiset(r)[e] == if Recommendable(p, e) then multiset(es)[e] else 0
    ensures forall e :: e in r <==> e in es && Recommendable(p, e)
  {
    if es == [] then []
    else
      var init, last := es[..|es| - 1], es[|es| - 1];
      assert es == init + [last];
      Candidates(init, p) + (if Recommendable(p, last) then [last] else [])
  }

  /** `.sort({ averageRating: -1, bookingCount: -1 })`: higher rating first,
      more bookings first among equal ratings. */
  predicate Outranks(a: Event, b: Event) {
    a.averageRating > b.averageRating
    || (a.averageRating == b.averageRating && a.bookingCount >= b.bookingCount)
  }

  function RankOrder(): (Event, Event) -> bool {
    (a: Event, b: Event) => Outranks(a, b)
  }

  lemma RankOrderIsTotal()
    ensures TotalPreorder(RankOrder())
  {
  }

  /** The page size of `.limit(6)`. */
  const PageSize: nat := 6

  /** `.sort(...).limit(6)` over candidates `c`: at most six of them, best
      first; one is left out only when the page is full, and then every one
      shown outranks it. */
  function TopRanked(c: seq<Event>): (r: seq<Event>)
    ensures |r| == Min(PageSize, |c|)
    ensures multiset(r) <= multiset(c)
    ensures forall e :: e in r ==> e in c
    ensures forall i, j :: 0 <= i < j < |r| ==> Outranks(r[i], r[j])
    ensures forall e :: e in c && e !in r ==> |r| == PageSize && forall x :: x in r ==> Outranks(x, e)
  {
    RankOrderIsTotal();
    var sorted := Sort(RankOrder(), c);
    var n := Min(PageSize, |sorted|);
    assert |sorted| == |c| by {
      assert |multiset(sorted)| == |multiset(c)|;
    }
    TopOfSorted(sorted, c, n);
    sorted[..n]
  }

  /** `getRecommendedEvents`: at most six fitting events, best first; an
      event that fits is left out only when the page is full, and then every
      event shown outranks it. */
  function GetRecommendedEvents(s: State, caller: Account): (r: seq<Event>)
    ensures |r| == Min(PageSize, |Candidates(s.events, caller.preferences)|)
    ensures multiset(r) <= multiset(Candidates(s.events, caller.preferences))
    ensures forall e :: e in r ==> e in s.events && Recommendable(caller.preferences, e)
    ensures forall i, j :: 0 <= i < j < |r| ==> Outranks(r[i], r[j])
    ensures forall e :: e in s.events && Recommendable(caller.preferences, e) && e !in r ==>
      |r| == PageSize && forall x :: x in r ==> Outranks(x, e)
  {
    TopRanked(Candidates(s.events, caller.preferences))
  }

  /** The first `n` of a ranked permutation of `c`: members of `c`, and every
      member of `c` outside them comes after all of them. */
  lemma TopOfSorted(sorted: seq<Event>, c: seq<Event>, n: nat)
    requires multiset(sorted) == multiset(c)
    requires SortedBy(RankOrder(), sorted)
    requires n <= |sorted|
    ensures multiset(sorted[..n]) <= multiset(c)
    ensures forall e :: e in sorted[..n] ==> e in c
    ensures forall e :: e in c && e !in sorted[..n] ==>
      n < |sorted| && forall x :: x in sorted[..n] ==> Outranks(x, e)
  {
    assert sorted == sorted[..n] + sorted[n..];
    forall e | e in sorted[..n]
      ensures e in c
    {
      assert e in multiset(sorted);
    }
    forall e | e in c && e !in sorted[..n]
      ensures n < |sorted| && forall x :: x in sorted[..n] ==> Outranks(x, e)
    {
      assert e in multiset(c);
      assert e in sorted;
      var m :| 0 <= m < |sorted| && sorted[m] == e;
      assert m >= n;
      forall x | x in sorted[..n]
        ensures Outranks(x, e)
      {
        var k :| 0 <= k < n && sorted[..n][k] == x;
        assert RankOrder()(sorted[k], sorted[m]);
      }
    }
  }
}
