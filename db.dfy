/** The persisted records and an abstract in-memory store standing in for the
    Prisma client: the `Event` and `Booking` tables, their identities, the
    (eventId, userId) uniqueness key and the event foreign key.

    The database schema itself is not part of this model; what it enforces
    (unique ids, the composite unique key, the foreign key) is written as the
    store invariant `Consistent`. */
module Db {
  import opened Wrappers

  datatype Category = Conference | Workshop | Seminar | Networking | Social

  /** The enum values accepted by the event validation chains and by Prisma. */
  const CategoryNames: seq<string> := ["CONFERENCE", "WORKSHOP", "SEMINAR", "NETWORKING", "SOCIAL"]

  function CategoryName(c: Category): (s: string)
    ensures s in CategoryNames
  {
    match c
    case Conference => "CONFERENCE"
    case Workshop => "WORKSHOP"
    case Seminar => "SEMINAR"
    case Networking => "NETWORKING"
    case Social => "SOCIAL"
  }

  /** Reads an enum value the way Prisma does: only the exact upper-case name. */
  function ParseCategory(s: string): (r: Option<Category>)
    ensures r.Some? <==> s in CategoryNames
    ensures r.Some? ==> CategoryName(r.value) == s
  {
    if s == "CONFERENCE" then Some(Conference)
    else if s == "WORKSHOP" then Some(Workshop)
    else if s == "SEMINAR" then Some(Seminar)
    else if s == "NETWORKING" then Some(Networking)
    else if s == "SOCIAL" then Some(Social)
    else None
  }

  datatype Status = Pending | Confirmed | Cancelled

  const StatusNames: seq<string> := ["PENDING", "CONFIRMED", "CANCELLED"]

  function StatusName(st: Status): (s: string)
    ensures s in StatusNames
  {
    match st
    case Pending => "PENDING"
    case Confirmed => "CONFIRMED"
    case Cancelled => "CANCELLED"
  }

  function ParseStatus(s: string): (r: Option<Status>)
    ensures r.Some? <==> s in StatusNames
    ensures r.Some? ==> StatusName(r.value) == s
  {
    if s == "PENDING" then Some(Pending)
    else if s == "CONFIRMED" then Some(Confirmed)
    else if s == "CANCELLED" then Some(Cancelled)
    else None
  }

  /** A row of the Event table; `date` is a timestamp in milliseconds. */
  datatype EventRow = EventRow(
    id: nat, title: string, description: string, date: int, location: string,
    category: Category, capacity: int, organizerId: nat)

  /** A row of the Booking table; `bookingDate` is a timestamp in milliseconds. */
  datatype BookingRow = BookingRow(id: nat, eventId: nat, userId: nat, status: Status, bookingDate: int)

  /** An event as the model layer returns it: the row spread into a new object
      with the derived `attendeeCount`. */
  datatype EventView = EventView(event: EventRow, attendeeCount: nat)

  /** The errors the store raises, by Prisma error code. */
  datatype DbError =
    | UniqueViolation        // P2002
    | ForeignKeyViolation    // P2003
    | RecordNotFound         // P2025
    | StorageFault           // any other fault (connection loss, timeout, ...)

  /** A query Prisma refuses before it reaches the database. */
  datatype QueryError =
    | InvalidEnumValue(value: string)   // a filter value that is not an enum name
    | InvalidDate(value: string)        // a date bound that is an Invalid Date

  /** `prisma.event.findUnique({ where: { id } })` on the rows. */
  function FindEventRow(events: seq<EventRow>, id: nat): (r: Option<EventRow>)
    ensures r.Some? ==> r.value in events && r.value.id == id
    ensures r.None? <==> forall i :: 0 <= i < |events| ==> events[i].id != id
  {
    if events == [] then None
    else if events[0].id == id then Some(events[0])
    else FindEventRow(events[1..], id)
  }

  ghost predicate EventIdsUnique(events: seq<EventRow>) {
    forall i, j :: 0 <= i < j < |events| ==> events[i].id != events[j].id
  }

  /** Under unique ids, the lookup returns THE row with that id. */
  lemma FindEventRowIsKeyed(events: seq<EventRow>, i: nat)
    requires EventIdsUnique(events)
    requires i < |events|
    ensures FindEventRow(events, events[i].id) == Some(events[i])
  {
    var r := FindEventRow(events, events[i].id);
    var j :| 0 <= j < |events| && events[j] == r.value;
  }

  ghost predicate BookingIdsUnique(bookings: seq<BookingRow>) {
    forall i, j :: 0 <= i < j < |bookings| ==> bookings[i].id != bookings[j].id
  }

  /** The composite unique key `eventId_userId`: at most one row per pair,
      whatever its status. */
  ghost predicate BookingKeysUnique(bookings: seq<BookingRow>) {
    forall i, j :: 0 <= i < j < |bookings| ==>
      bookings[i].eventId != bookings[j].eventId || bookings[i].userId != bookings[j].userId
  }

  /** The foreign key from Booking.eventId to Event.id. */
  ghost predicate BookingsReferenceEvents(events: seq<EventRow>, bookings: seq<BookingRow>) {
    forall i :: 0 <= i < |bookings| ==> FindEventRow(events, bookings[i].eventId).Some?
  }

  /** What the database guarantees of its tables at every commit. */
  ghost predicate Consistent(events: seq<EventRow>, bookings: seq<BookingRow>, nextEventId: nat, nextBookingId: nat) {
    && EventIdsUnique(events)
    && BookingIdsUnique(bookings)
    && BookingKeysUnique(bookings)
    && BookingsReferenceEvents(events, bookings)
    && (forall i :: 0 <= i < |events| ==> events[i].id < nextEventId)
    && (forall i :: 0 <= i < |bookings| ==> bookings[i].id < nextBookingId)
  }

  /** The database: both tables and their autoincrement counters. Requests are
      applied one at a time; two concurrent requests could interleave between
      a handler's lookups and its write, which this model does not represent. */
  class Store {
    var events: seq<EventRow>
    var bookings: seq<BookingRow>
    var nextEventId: nat
    var nextBookingId: nat

    ghost predicate Valid()
      reads this
    {
      Consistent(events, bookings, nextEventId, nextBookingId)
    }

    constructor ()
      ensures Valid()
      ensures events == [] && bookings == []
    {
      events, bookings := [], [];
      nextEventId, nextBookingId := 1, 1;
    }
  }
}
