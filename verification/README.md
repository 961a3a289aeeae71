# EventSense backend rules in Dafny

This project models the business rules of the EventSense ticketing backend, which is written in Express and Mongoose. The model is a sequential, in-memory state machine.

- **State.** The database is a `State`: accounts, events, bookings and reviews, each a sequence in insertion order, plus the next id to issue. Ids are issued in creation order, so an id also stands for `createdAt`.
- **Handlers.** Each controller handler is a pure function from the state and the request to `(Response, State)`. A `Response` is `Ok`, `NotFound` (404), `BadRequest(message)` (400), `Forbidden` (403) or `ServerError` (a 500 from the handler's catch block).
- **Role gates.** The route files restrict who may call each handler. These restrictions are preconditions on the caller's role, not checks inside the handler.

The modules follow the program's structure.

| module | file | models |
|---|---|---|
| `Domain` | domain.dfy | the Event, Booking and Review schemas, their enums, accounts, and the 400 messages |
| `Store` | store.dfy | `findById` and `find(filter)` over the collections, and the sums behind `reduce` |
| | | the state invariant `Valid`, made of three parts (below) |
| `Bookings` | bookings.dfy | `createBooking`, `getBookingById`, `getUserBookings`, `getEventBookings` |
| `Reference` | reference.dfy | `generateBookingReference` |
| `Reviews` | reviews.dfy | `addReview`, the Review model's unique index, `getEventReviews` |
| `Events` | events.dfy | `createEvent`, `updateEvent`, `deleteEvent`, `getEventById`, `getOrganizerEvents` |
| `Listing` | listing.dfy | `getEvents` (filters and sort table) and `getRecommendedEvents` |
| `Admin` | admin.dfy | `updateEventStatus`, `getPendingEvents`, `getAdminAnalytics` |
| `Organizer` | organizer.dfy | `getOrganizerAnalytics` |
| `Text` | text.dfy | `String.prototype.trim`, ASCII case conversion and substring search, as helpers |
| `Radix` | radix.dfy | `Number.prototype.toString(radix)` and the decimal rendering in messages, as helpers |
| `Sorting` | sorting.dfy | a stable insertion sort standing in for Mongo's `.sort`, as a helper |
| `Maybe` | maybe.dfy | `Option` and `Min` |

The state invariant `Valid` has three parts:
- `WellFormed`: ids are increasing, the schema validators hold, and both unique indexes hold.
- `SeatLedger` for every event:
  - `0 <= availableSeats`
  - `availableSeats + Σ seats booked == totalSeats`
  - `bookingCount` counts the event's bookings
- `RatingLedger` for every event:
  - `reviewCount` counts the event's reviews
  - `averageRating` is the mean of their ratings

Booking, reviewing, deleting and moderating each preserve `Valid`. The corrected `CreateEvent` preserves `Valid`, but `createEvent` as written does not (see Findings). Updating an event is different: an owner's patch may rewrite the counters, so update only preserves `WellFormed`.

## Model

| member | source | states |
|---|---|---|
| Bookings.CreateBooking | backend/controllers/bookingController.js:17-69 | An unknown event gives 404 and leaves the state unchanged. An unapproved event gives "Event is not approved yet". A request for more seats than are left gives a 400 naming exactly the event's current `availableSeats`. A request the seat check lets through but that fails later (no QR code, a schema-invalid booking, a taken reference) gives 500. The request succeeds iff it is admissible. On success the booking carries the caller, the event and the seats requested, `totalAmount == price * seats`, status confirmed, the generated reference and a fresh id. That event alone loses `seats` seats and gains one booking. Every failure leaves the state unchanged. |
| Bookings.CreateBookingPreservesValid | backend/controllers/bookingController.js:34-68 | From a valid state, a booking keeps every event's seats left non-negative and equal to capacity minus the seats booked. It also keeps `bookingCount` equal to the number of bookings, and all other invariants. |
| Bookings.LedgerAcrossBooking | backend/controllers/bookingController.js:56-68 | For one event's seat ledger, appending a booking for it moves `seats` from "left" to "booked". A booking for another event leaves the ledger as it is. |
| Bookings.GetBookingById | backend/controllers/bookingController.js:144-167 | The result is 404 exactly when no booking has the id. It is 403 when the booking belongs to another user. Otherwise it is the caller's own booking with that id. |
| Bookings.GetUserBookings | backend/controllers/bookingController.js:124-139 | The result holds exactly the caller's bookings, newest first. |
| Bookings.GetEventBookings | backend/controllers/bookingController.js:172-200 | The result is 404 exactly when the event is absent, and 403 exactly when the caller does not organize it. Otherwise it holds exactly the bookings of that event, newest first. |
| Reference.Generate | backend/controllers/bookingController.js:8-12 | The reference starts with `ES-`. It contains exactly two dashes and consists only of upper-case letters, digits and dashes. |
| Reference.RandomPartIsLeadingDigits | backend/controllers/bookingController.js:10 | `substring(2, 7)` of the random number's base-36 text is its first fraction digits, at most five of them. |
| Reference.ParseGenerate | backend/controllers/bookingController.js:8-12 | Reading a generated reference back gives the timestamp it was issued at and the upper-cased random part. |
| Reference.DistinctTimesGiveDistinctReferences | backend/controllers/bookingController.js:8-12 | References issued at different milliseconds differ, whatever the random parts. |
| Radix.FromRadixToRadix | backend/controllers/bookingController.js:9 | Reading back the base-36 (or decimal) text of a natural number gives that number. |
| Radix.DecimalRoundTrip | backend/controllers/bookingController.js:36 | The decimal rendering of any integer, negative ones included, reads back as that integer. |
| Domain.CapacityMessageReportsCount | backend/controllers/bookingController.js:35-37 | The message `Only N seats available` carries exactly the seat count N it was built from. |
| Domain.ParseCategory | backend/models/Event.js:14-29 | A category name is accepted iff it is one of the ten enumerated names, and it yields that category. |
| Domain.ParseStatus | backend/models/Event.js:70-74 | A status name is accepted iff it is `pending`, `approved` or `rejected`, and it yields that status. |
| Reviews.InsertReview | backend/models/Review.js:15-33 | An insert succeeds iff the rating is in 1..5, the trimmed comment is non-empty and the (user, event) pair has no review yet. On success it appends exactly one review, which has the trimmed comment. A valid review of an already-reviewed pair fails with a duplicate key. |
| Reviews.UniqueIndexBacksPreCheck | backend/controllers/reviewController.js:68-72 | Without the pre-check, a second valid review of a pair is still refused by the unique index. The controller reports that refusal as "You have already reviewed this event". |
| Reviews.Rerated | backend/controllers/reviewController.js:53-59 | The recomputed event satisfies the rating ledger over all its reviews. Only `averageRating` and `reviewCount` change. |
| Reviews.AddReview | backend/controllers/reviewController.js:8-75 | An unknown event gives 404. A caller without a confirmed booking gets "only booked events". A second review gets "already reviewed". A review that passes these checks but fails the schema gives 500. Success happens iff all these checks pass and the review is schema-valid. On success, exactly one review with the caller, event, rating and trimmed comment is appended. That event's count and average then match its reviews, and no other event changes. Every failure leaves the state unchanged. |
| Reviews.AddReviewPreservesValid | backend/controllers/reviewController.js:45-59 | From a valid state, adding a review keeps every event's rating ledger and all other invariants. |
| Reviews.GetEventReviews | backend/controllers/reviewController.js:80-95 | The result holds exactly the reviews of the event, newest first. |
| Store.RatingWithinBounds | backend/models/Review.js:15-20 | Under the rating ledger, a reviewed event's average lies between 1 and 5. |
| Store.LedgerBoundsSeats | backend/models/Booking.js:15-19 | Under the seat ledger, with at least one seat per booking, `0 <= availableSeats <= totalSeats`. |
| Store.StatusesPartition | backend/controllers/adminController.js:17-20 | The pending, approved and rejected counts add up to the number of events. |
| Text.TrimIdempotent | backend/models/Event.js:5-9 | Trimming a trimmed string changes nothing, so a stored title or comment stays as stored. |
| Events.Draft | backend/models/Event.js:94-99 | The document built from a schema-valid body meets the Event field constraints: non-empty trimmed title, `price >= 0`, `totalSeats >= 1`. |
| Events.CreateEventAsWritten | backend/controllers/eventController.js:7-26 | As written, success happens iff the body is schema-valid and carries `availableSeats`, which the schema requires before the pre-save hook can fill it in. The event is pending and owned by the caller. Its title is the trimmed body title, and every other content field is the body's value. Its `availableSeats` is the body's value when that is non-zero, and `totalSeats` when it is 0. Counters the client sends survive, and absent ones default to 0. |
| Events.FormBodyRefusedAsWritten | backend/models/Event.js:56-59 | A schema-valid body without `availableSeats` gets a 500 and leaves the state unchanged as written. The corrected handler accepts the same body and starts the event with all its seats free. |
| Events.CreateEventAsWrittenBreaksLedger | backend/controllers/eventController.js:9-13 | A body whose `availableSeats` exceeds `totalSeats` yields an event that breaks the seat ledger. |
| Events.CreateEvent | backend/controllers/eventController.js:7-26 | Success happens iff the body is schema-valid. The new event is pending and owned by the caller, whatever the body says. Its title is the trimmed body title, and its description, category, location, venue, date, time, price and capacity are the body's. All its seats are free and its counters are zero. It is appended with a fresh id, and nothing else changes. |
| Events.CreateEventPreservesValid | backend/models/Event.js:75-99 | Creating an event keeps the state invariant. |
| Events.UpdateEventAsWritten | backend/controllers/eventController.js:127-156 | As written, an unknown event gives 404. A non-owner gets 403. An invalid patch gives 500. Success happens iff the caller owns the event and the patch is valid. Every field the patch carries replaces the stored one, `status` and `organizer` included, and every field it omits keeps its stored value. |
| Events.OwnerSelfApproves | backend/controllers/eventController.js:141-145 | As written, an organizer can turn their own pending event into an approved one. |
| Events.UpdateEvent | backend/controllers/eventController.js:127-156 | The corrected update answers 404 and 403 the same way as the as-written one. On success each content field, counters included, takes the patch's value when the patch carries it and keeps its stored value otherwise. Status and owner always keep their stored values. |
| Events.OwnerCannotSelfApprove | backend/controllers/eventController.js:141-145 | Under the corrected update, the same request leaves the event pending. |
| Events.UpdateEventPreservesWellFormed | backend/controllers/eventController.js:141-145 | An update keeps ids, schema validity and the other collections intact. |
| Events.DeleteEvent | backend/controllers/eventController.js:161-184 | An unknown event gives 404. A non-owner gets 403, exactly when the caller is not the owner. Otherwise exactly that event is removed, and the remaining events are the others. |
| Events.DeleteEventPreservesValid | backend/controllers/eventController.js:174 | Removing an event keeps every remaining event's ledgers. |
| Events.GetEventById | backend/controllers/eventController.js:103-122 | The result is 404 exactly when the event is absent. Otherwise it is the event with that id, whatever its status. |
| Events.GetOrganizerEvents | backend/controllers/eventController.js:189-204 | The result holds exactly the caller's events, newest first. |
| Listing.Select | backend/controllers/eventController.js:34-61 | The result holds every event that matches the filter, exactly as often as it is stored, and no other event. The filter requires: approved; the search text in the title or the description; the category unless it is `all`; the location text; and the inclusive price bounds given. |
| Listing.SortKeyOf | backend/controllers/eventController.js:64-83 | Each of `popular`, `price-low`, `price-high`, `date` and `rating` selects its own key. Anything else selects newest first. |
| Listing.GetEvents | backend/controllers/eventController.js:31-98 | The result is a permutation of the matching events, ordered by the chosen key. |
| Listing.EmptyQueryListsApproved | backend/controllers/eventController.js:36 | With no filter given, the catalogue is exactly the approved events. |
| Listing.CategoryNarrows | backend/controllers/eventController.js:47-49 | Adding a category filter never adds an event. |
| Listing.Candidates | backend/controllers/eventController.js:214-225 | The candidates are every approved event whose category and location are among the caller's preferences, each as often as it is stored, and nothing else. Each preference list is checked only when it is non-empty. |
| Listing.TopRanked | backend/controllers/eventController.js:227-230 | Of the candidates, the page holds `min(6, #candidates)`, a sub-multiset of them, ordered by rating and then bookings. A candidate is left out only when the page is full, and then every event shown outranks it. |
| Listing.GetRecommendedEvents | backend/controllers/eventController.js:209-241 | The result holds `min(6, #candidates)` candidates, a sub-multiset of them, so no stored event is shown more often than it is stored. It is ordered by rating and then bookings. A candidate is left out only when the page is full, and then every event shown outranks it. |
| Admin.UpdateEventStatus | backend/controllers/adminController.js:71-109 | A status other than `approved` or `rejected` gives 400 before any lookup. An unknown event gives 404. Otherwise, whatever the event's current status, only its status changes, to the one requested. The reply is that event, except when an approval's organizer has no account. Then `populate` leaves `organizer` null, addressing the email throws, and the reply is 500 with the new status already saved. |
| Admin.UpdateEventStatusPreservesValid | backend/controllers/adminController.js:88-89 | Moderation keeps the state invariant. |
| Admin.ApprovalPublishes | backend/controllers/adminController.js:88-97 | After an approval, the approved event appears in the unfiltered catalogue, whether the reply is that event or the 500 of an organizer without an account. |
| Admin.RejectionWithdraws | backend/controllers/adminController.js:88-89 | After rejection, no catalogue query lists the event. |
| Admin.GetPendingEvents | backend/controllers/adminController.js:132-147 | The result holds exactly the pending events, newest first. |
| Admin.CountRole | backend/controllers/adminController.js:13-14 | The count is zero iff no account has the role, and it never exceeds the number of accounts. |
| Admin.RecentBookings | backend/controllers/adminController.js:35-39 | The result holds the `min(10, #bookings)` newest bookings, newest first. Any booking left out is older than every booking shown. |
| Admin.EventsByCategory | backend/controllers/adminController.js:28-32 | There is exactly one row per category that occurs, no category twice, each carrying its exact count, with the most frequent first. The counts add up to the number of approved events. |
| Admin.GetAdminAnalytics | backend/controllers/adminController.js:10-66 | The figures reported are these: the user and organizer counts; the exact number of pending, approved and rejected events, which add up to the number of events; the booking count; revenue as the sum over all bookings, whatever their status; one row per category among approved events, distinct and with exact counts, most frequent first; and the `min(10, #bookings)` newest stored bookings, newest first. It needs only that booking ids increase in creation order. |
| Organizer.SalesOf | backend/controllers/organizerController.js:10-18 | The bookings considered are exactly the confirmed ones for the caller's events. |
| Organizer.FiguresOf | backend/controllers/organizerController.js:33-52 | Each row carries its event's id, title, date, status, capacity and seats left, and the count, seats and amounts of that event's confirmed bookings. |
| Organizer.GetOrganizerAnalytics | backend/controllers/organizerController.js:7-57 | There is one row per own event, in the same order, each carrying that event's own figures. The status counts are the exact numbers of own pending, approved and rejected events. `totalBookings`, `totalRevenue` and `totalSeats` are the count, amount sum and seat sum of the sales. The rows' columns add up to these totals. |
| Organizer.RowsMatchLedger | backend/controllers/organizerController.js:33-52 | When every booking is confirmed, as the service creates them, each row's seats sold plus seats left equals the capacity. Each row's booking count then equals the event's `bookingCount`. |

## Left out

- Concurrency: each handler runs atomically. The race between the seat check and the decrement in `createBooking` is not modelled, and neither is the race between the review pre-check and the insert.
- The reference generator's inputs: `Date.now()` and `Math.random()` are parameters. The random number is given by its base-36 fraction digits.
- QR encoding: the QR image (backend/utils/qrCode.js) is an opaque string parameter, and `None` stands for an encoder failure.
- Email sending: the confirmation and status emails are SMTP I/O, and `sendEmail` swallows its own errors, so delivery never changes an outcome. Building the approval email's address can still fail: reading `event.organizer.email` when no account has the organizer's id throws before `sendEmail` is called. `Admin.UpdateEventStatus` models that 500.
- Mongoose mechanics: `populate` joins and ObjectId comparison are not modelled. Of the hook ordering, only the fact that schema validation runs before the pre-save hook is modelled. Ties in a sort keep the model's own order, which Mongo does not promise.
- Search semantics: search and location filters are case-insensitive substring tests over ASCII. Regular-expression metacharacters in the query are not interpreted.
- Case folding covers ASCII letters only. Trimming removes the white space and line terminators of sections 12.2 and 12.3 of ECMA-262, as `String.prototype.trim` does.
- Numbers: prices, amounts, seat counts, ratings and timestamps are unbounded integers, and dates are plain timestamps. In the source, `totalSeats`, `availableSeats`, a booking's `seats` and the review `rating` are any JavaScript `Number`, so a fractional seat count or a rating such as 4.5 passes the schema there; the model does not cover such values. `averageRating` is an exact `real`, not a floating-point value. Non-numeric `minPrice`/`maxPrice` strings are not modelled.
- Events.UpdateEventPreservesWellFormed: it states only `WellFormed`, not `Valid`. An owner's patch may rewrite `availableSeats`, `totalSeats` and the counters, so update cannot keep the seat and rating ledgers.
- Admin.GetAdminAnalytics: revenue is summed over every booking whatever its status, as the source does.
- Radix.FromRadixToRadix: the round trip is proved for the two radixes the service uses, 10 and 36, and not for all of 2..36.
- The monthly revenue histogram of `getOrganizerAnalytics` (backend/controllers/organizerController.js:59-79) is left out: it uses `Date` arithmetic and locale month names.
- An event's `images` list (backend/models/Event.js:60-64) is not a field of the model: no rule reads it, and create and update only copy it.
- `getAllUsers` and the User model: the accounts are given, and only their role and preferences are used.
- Route wiring, the JWT middleware, server start-up, the seed script and the whole frontend are not part of this model.

## Findings

| source | as written | input that shows it | evidently intended | confidence | as-written member | corrected member |
|---|---|---|---|---|---|---|
| backend/controllers/eventController.js:141-145 | `updateEvent` passes the whole request body to `findByIdAndUpdate`, so the owner can also set `status` and `organizer` | an organizer sends `PUT /events/:id` with `{ "status": "approved" }` for their own pending event | only an administrator changes the status (adminController.js:71-109), and the owner stays the owner | high (not executed) | Events.UpdateEventAsWritten, Events.OwnerSelfApproves | Events.UpdateEvent, Events.OwnerCannotSelfApprove |
| backend/controllers/eventController.js:9-13 | `createEvent` spreads the request body into the new document. The pre-save hook (backend/models/Event.js:94-99) replaces `availableSeats` only when it is unset or 0 | `totalSeats: 10, availableSeats: 1000`: the event starts with 1000 seats to sell against a capacity of 10 | a new event starts with all its seats free and its counters at zero | high (not executed) | Events.CreateEventAsWritten, Events.CreateEventAsWrittenBreaksLedger | Events.CreateEvent, Events.CreateEventPreservesValid |
| backend/models/Event.js:56-59 | `availableSeats` is declared `required`, and schema validation runs before the pre-save hook (backend/models/Event.js:94-99) that would copy `totalSeats` into it | the organizer's create form (frontend/src/pages/organizer/CreateEvent.jsx:7-17) sends a title, description, category, location, venue, date, time, price and `totalSeats` but no `availableSeats`, and gets a 500 | the hook fills in `availableSeats`, so a body without it creates an event with all seats free | medium (not executed; rests on Mongoose validating before `pre('save')` hooks) | Events.CreateEventAsWritten, Events.FormBodyRefusedAsWritten | Events.CreateEvent, Events.FormBodyRefusedAsWritten |
