/** The entities of the ticketing service (the Mongoose schemas of
    backend/models) and the outcomes its controllers answer with. */
module Domain {
  import opened Maybe
  import opened Text
  import Radix

  datatype Role = User | Organizer | Admin

  /** The recommendation preferences stored on an account. */
  datatype Preferences = Preferences(categories: seq<string>, locations: seq<string>)

  /** The authenticated caller, as attached to the request by the auth middleware. */
  datatype Account = Account(id: nat, name: string, role: Role, preferences: Preferences)

  datatype Category =
    Music | Technology | Sports | Art | Education | Business | Food | Health | Entertainment | Other

  /** The category enumeration, in schema order. */
  const Categories: seq<Category> :=
    [Music, Technology, Sports, Art, Education, Business, Food, Health, Entertainment, Other]

  function CategoryName(c: Category): string {
    match c
    case Music => "Music"
    case Technology => "Technology"
    case Sports => "Sports"
    case Art => "Art"
    case Education => "Education"
    case Business => "Business"
    case Food => "Food"
    case Health => "Health"
    case Entertainment => "Entertainment"
    case Other => "Other"
  }

  /** The schema's `enum` validator on `category`: a name outside the list is refused. */
  function ParseCategory(name: string): (r: Option<Category>)
    ensures forall c :: r == Some(c) <==> CategoryName(c) == name
  {
    if name == "Music" then Some(Music)
    else if name == "Technology" then Some(Technology)
    else if name == "Sports" then Some(Sports)
    else if name == "Art" then Some(Art)
    else if name == "Education" then Some(Education)
    else if name == "Business" then Some(Business)
    else if name == "Food" then Some(Food)
    else if name == "Health" then Some(Health)
    else if name == "Entertainment" then Some(Entertainment)
    else if name == "Other" then Some(Other)
    else None
  }

  datatype EventStatus = Pending | Approved | Rejected

  function StatusName(st: EventStatus): string {
    match st
    case Pending => "pending"
    case Approved => "approved"
    case Rejected => "rejected"
  }

  /** The schema's `enum` validator on `status`. */
  function ParseStatus(name: string): (r: Option<EventStatus>)
    ensures forall st :: r == Some(st) <==> StatusName(st) == name
  {
    if name == "pending" then Some(Pending)
    else if name == "approved" then Some(Approved)
    else if name == "rejected" then Some(Rejected)
    else None
  }

  datatype BookingStatus = Confirmed | Cancelled

  /** An event document. `id` is issued in creation order and so doubles as
      `createdAt`; `date` is a timestamp. */
  datatype Event = Event(
    id: nat,
    title: string,
    description: string,
    category: Category,
    location: string,
    venue: string,
    date: int,
    time: string,
    price: int,
    totalSeats: int,
    availableSeats: int,
    organizer: nat,
    status: EventStatus,
    bookingCount: int,
    averageRating: real,
    reviewCount: int)

  /** Field validators of the Event schema that the type does not already
      enforce: required strings are non-empty (`title` is stored trimmed),
      `price >= 0`, `totalSeats >= 1`. */
  predicate EventFieldsValid(e: Event) {
    && e.title != [] && Trim(e.title) == e.title
    && e.description != [] && e.location != [] && e.venue != [] && e.time != []
    && e.price >= 0
    && e.totalSeats >= 1
  }

  /** A booking document; `qrCode` is the ticket image the encoder produced. */
  datatype Booking = Booking(
    id: nat,
    user: nat,
    event: nat,
    seats: int,
    totalAmount: int,
    qrCode: string,
    status: BookingStatus,
    reference: string)

  /** Field validators of the Booking schema: `seats >= 1`, required `qrCode`
      and `bookingReference`. */
  predicate BookingFieldsValid(b: Booking) {
    b.seats >= 1 && b.qrCode != [] && b.reference != []
  }

  datatype Review = Review(id: nat, user: nat, event: nat, rating: int, comment: string)

  /** Field validators of the Review schema: rating in 1..5, a required comment
      stored trimmed. */
  predicate ReviewFieldsValid(r: Review) {
    1 <= r.rating <= 5 && r.comment != [] && Trim(r.comment) == r.comment
  }

  /** The whole database: four collections in natural (insertion) order and
      the next id to issue. */
  datatype State = State(
    users: seq<Account>,
    events: seq<Event>,
    bookings: seq<Booking>,
    reviews: seq<Review>,
    nextId: nat)

  /** The 400 messages the controllers send. */
  datatype Message =
    | NotApprovedYet
    | OnlySeatsAvailable(available: int)
    | OnlyBookedEventsReviewable
    | AlreadyReviewed
    | InvalidStatus

  const CapacityPrefix := "Only "
  const CapacitySuffix := " seats available"

  function MessageText(m: Message): string {
    match m
    case NotApprovedYet => "Event is not approved yet"
    case OnlySeatsAvailable(n) => CapacityPrefix + Radix.IntToDecimal(n) + CapacitySuffix
    case OnlyBookedEventsReviewable => "You can only review events you have booked"
    case AlreadyReviewed => "You have already reviewed this event"
    case InvalidStatus => "Invalid status"
  }

  /** Reads the seat count back out of a capacity message. */
  function SeatsInMessage(text: string): Option<int> {
    var p, q := |CapacityPrefix|, |CapacitySuffix|;
    if |text| >= p + q && text[..p] == CapacityPrefix && text[|text| - q..] == CapacitySuffix
    then Radix.DecimalToInt(text[p..|text| - q])
    else None
  }

  /** The capacity message reports exactly the seat count it was built from. */
  lemma CapacityMessageReportsCount(n: int)
    ensures SeatsInMessage(MessageText(OnlySeatsAvailable(n))) == Some(n)
  {
    var d := Radix.IntToDecimal(n);
    var text := CapacityPrefix + d + CapacitySuffix;
    assert text[..|CapacityPrefix|] == CapacityPrefix;
    assert text[|text| - |CapacitySuffix|..] == CapacitySuffix;
    assert text[|CapacityPrefix|..|text| - |CapacitySuffix|] == d;
    Radix.DecimalRoundTrip(n);
  }

  /** A controller's answer: 2xx with a payload, 404, 400 with a message,
      403, or 500 (an exception caught by the controller: a failed schema
      validation, a duplicate key, a failed QR encoding). */
  datatype Response<+T> = Ok(value: T) | NotFound | BadRequest(message: Message) | Forbidden | ServerError
}
