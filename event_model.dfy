/** The Event model: the filtered, date-ordered listing, the lookup by id,
    creation and update, and the derived `attendeeCount` attached to every
    event it returns. */
module EventModel {
  import opened Wrappers
  import opened Db
  import opened Text
  import opened Query
  import Seqs
  import BookingModel

  function IsConfirmedFor(eventId: nat): BookingRow -> bool {
    (b: BookingRow) => b.eventId == eventId && b.status == Confirmed
  }

  /** The relation `include: { bookings: { where: { status: 'CONFIRMED' } } }`. */
  function ConfirmedBookings(bookings: seq<BookingRow>, eventId: nat): seq<BookingRow> {
    Seqs.Filter(bookings, IsConfirmedFor(eventId))
  }

  /** `{ ...event, attendeeCount: event.bookings.length }`. */
  function WithAttendeeCount(bookings: seq<BookingRow>, e: EventRow): EventView {
    EventView(e, |ConfirmedBookings(bookings, e.id)|)
  }

  /** The length of the included relation is the count query's result: the
      `attendeeCount` of any returned event equals `Booking.countByEvent`. */
  lemma {:induction false} AttendeeCountIsCountByEvent(bookings: seq<BookingRow>, e: EventRow)
    ensures WithAttendeeCount(bookings, e).attendeeCount == BookingModel.CountByEvent(bookings, e.id)
  {
    if bookings != [] {
      AttendeeCountIsCountByEvent(bookings[1..], e);
    }
  }

  /** An event no booking refers to has no attendee. */
  lemma {:induction false} NoBookingsNoAttendees(bookings: seq<BookingRow>, eventId: nat)
    requires forall i :: 0 <= i < |bookings| ==> bookings[i].eventId != eventId
    ensures BookingModel.CountByEvent(bookings, eventId) == 0
  {
    if bookings != [] {
      NoBookingsNoAttendees(bookings[1..], eventId);
    }
  }

  /** `Event.findById`: null for an absent id, otherwise the row with its
      confirmed count. */
  function FindById(events: seq<EventRow>, bookings: seq<BookingRow>, id: nat): (r: Option<EventView>)
    ensures r.None? <==> FindEventRow(events, id).None?
    ensures r.Some? ==> Some(r.value.event) == FindEventRow(events, id)
    ensures r.Some? ==> r.value.attendeeCount == BookingModel.CountByEvent(bookings, id)
  {
    match FindEventRow(events, id)
    case None => None
    case Some(e) => AttendeeCountIsCountByEvent(bookings, e); Some(WithAttendeeCount(bookings, e))
  }

  /** `Event.countAttendees(id)` is the same count query as
      `Booking.countByEvent(id)`, and agrees with `findById(id).attendeeCount`. */
  lemma CountAttendeesAgreesWithFindById(events: seq<EventRow>, bookings: seq<BookingRow>, id: nat)
    requires FindEventRow(events, id).Some?
    ensures FindById(events, bookings, id).value.attendeeCount == BookingModel.CountByEvent(bookings, id)
  {
  }

  /** The `where` object `findMany` builds, one optional constraint per filter. */
  datatype EventWhere = EventWhere(
    category: Option<Category>, location: Option<string>,
    gte: Option<int>, lte: Option<int>, search: Option<string>)

  /** `findMany`'s construction of `where`. `toTime` is `new Date(...)` on a
      query-string value (None for an Invalid Date). Prisma refuses a category
      that is not an enum name and an Invalid Date bound. */
  function BuildWhere(f: Filters, toTime: string -> Option<int>): Result<EventWhere, QueryError> {
    if f.category != "" && ParseCategory(f.category).None? then Failure(InvalidEnumValue(f.category))
    else if f.startDate != "" && toTime(f.startDate).None? then Failure(InvalidDate(f.startDate))
    else if f.endDate != "" && toTime(f.endDate).None? then Failure(InvalidDate(f.endDate))
    else Success(EventWhere(
      if f.category == "" then None else ParseCategory(f.category),
      if f.location == "" then None else Some(f.location),
      if f.startDate == "" then None else toTime(f.startDate),
      if f.endDate == "" then None else toTime(f.endDate),
      if f.search == "" then None else Some(f.search)))
  }

  /** How the database evaluates the `where` object on one row. */
  predicate MatchesWhere(e: EventRow, w: EventWhere) {
    && (w.category.None? || e.category == w.category.value)
    && (w.location.None? || ContainsInsensitive(e.location, w.location.value))
    && (w.gte.None? || e.date >= w.gte.value)
    && (w.lte.None? || e.date <= w.lte.value)
    && (w.search.None?
        || ContainsInsensitive(e.title, w.search.value)
        || ContainsInsensitive(e.description, w.search.value)
        || ContainsInsensitive(e.location, w.search.value))
  }

  function Matching(w: EventWhere): EventRow -> bool {
    (e: EventRow) => MatchesWhere(e, w)
  }

  /** The sort key of `orderBy: { date: 'asc' }`. */
  function ByDate(): EventRow -> int {
    (e: EventRow) => e.date
  }

  /** `Event.findMany(filters)`. */
  function FindMany(events: seq<EventRow>, bookings: seq<BookingRow>, f: Filters,
                    toTime: string -> Option<int>): Result<seq<EventView>, QueryError>
  {
    match BuildWhere(f, toTime)
    case Failure(err) => Failure(err)
    case Success(w) =>
      var rows := Seqs.SortBy(Seqs.Filter(events, Matching(w)), ByDate());
      Success(seq(|rows|, i requires 0 <= i < |rows| => WithAttendeeCount(bookings, rows[i])))
  }

  /** The filters stated on their own terms: every set filter constrains,
      an unset one does not, and all combine by conjunction. The date range
      is inclusive at both ends. */
  ghost predicate PassesFilters(e: EventRow, f: Filters, toTime: string -> Option<int>) {
    && (f.category != "" ==> CategoryName(e.category) == f.category)
    && (f.location != "" ==> ContainsInsensitive(e.location, f.location))
    && (f.startDate != "" ==> toTime(f.startDate).Some? && toTime(f.startDate).value <= e.date)
    && (f.endDate != "" ==> toTime(f.endDate).Some? && e.date <= toTime(f.endDate).value)
    && (f.search != "" ==>
          ContainsInsensitive(e.title, f.search)
          || ContainsInsensitive(e.description, f.search)
          || ContainsInsensitive(e.location, f.search))
  }

  lemma MatchesWhereIffPassesFilters(e: EventRow, f: Filters, toTime: string -> Option<int>)
    requires BuildWhere(f, toTime).Success?
    ensures MatchesWhere(e, BuildWhere(f, toTime).value) <==> PassesFilters(e, f, toTime)
  {
    if f.category != "" {
      var c := ParseCategory(f.category).value;
      assert CategoryName(e.category) == f.category <==> e.category == c by {
        if e.category != c {
          assert ParseCategory(CategoryName(e.category)) == Some(e.category) by {
            match e.category
            case Conference =>
            case Workshop =>
            case Seminar =>
            case Networking =>
            case Social =>
          }
        }
      }
    }
  }

  /** The listing is refused exactly for a category that is not an enum name
      or a date bound that is not a valid date. */
  lemma FindManyFailsOnlyOnBadFilter(events: seq<EventRow>, bookings: seq<BookingRow>, f: Filters,
                                     toTime: string -> Option<int>)
    ensures FindMany(events, bookings, f, toTime).Failure? <==>
      || (f.category != "" && f.category !in CategoryNames)
      || (f.startDate != "" && toTime(f.startDate).None?)
      || (f.endDate != "" && toTime(f.endDate).None?)
  {
  }

  /** Every listed event is a stored event that passes the filters and carries
      its confirmed count, and the list is ascending by date. */
  lemma FindManySound(events: seq<EventRow>, bookings: seq<BookingRow>, f: Filters,
                      toTime: string -> Option<int>)
    ensures var r := FindMany(events, bookings, f, toTime);
      r.Success? ==>
        && (forall i :: 0 <= i < |r.value| ==>
              && r.value[i].event in events
              && PassesFilters(r.value[i].event, f, toTime)
              && r.value[i].attendeeCount == BookingModel.CountByEvent(bookings, r.value[i].event.id))
        && (forall i, j :: 0 <= i < j < |r.value| ==> r.value[i].event.date <= r.value[j].event.date)
  {
    var r := FindMany(events, bookings, f, toTime);
    if r.Success? {
      var w := BuildWhere(f, toTime).value;
      var matching := Seqs.Filter(events, Matching(w));
      var rows := Seqs.SortBy(matching, ByDate());
      forall i | 0 <= i < |r.value|
        ensures r.value[i].event in events && PassesFilters(r.value[i].event, f, toTime)
        ensures r.value[i].attendeeCount == BookingModel.CountByEvent(bookings, r.value[i].event.id)
      {
        assert rows[i] in multiset(rows);
        assert rows[i] in matching;
        MatchesWhereIffPassesFilters(rows[i], f, toTime);
        AttendeeCountIsCountByEvent(bookings, rows[i]);
      }
    }
  }

  /** Every stored event that passes the filters is listed. */
  lemma FindManyComplete(events: seq<EventRow>, bookings: seq<BookingRow>, f: Filters,
                         toTime: string -> Option<int>, e: EventRow)
    requires FindMany(events, bookings, f, toTime).Success?
    requires e in events && PassesFilters(e, f, toTime)
    ensures exists i :: 0 <= i < |FindMany(events, bookings, f, toTime).value| &&
                        FindMany(events, bookings, f, toTime).value[i].event == e
  {
    var w := BuildWhere(f, toTime).value;
    MatchesWhereIffPassesFilters(e, f, toTime);
    var matching := Seqs.Filter(events, Matching(w));
    var rows := Seqs.SortBy(matching, ByDate());
    assert e in multiset(matching);
    var k :| 0 <= k < |rows| && rows[k] == e;
    assert FindMany(events, bookings, f, toTime).value[k].event == e;
  }

  /** Each stored event is listed at most once: no two entries share an
      event id, as the rows the query reads have unique ids. */
  lemma FindManyListsEachOnce(events: seq<EventRow>, bookings: seq<BookingRow>, f: Filters,
                              toTime: string -> Option<int>)
    requires EventIdsUnique(events)
    ensures var r := FindMany(events, bookings, f, toTime);
      r.Success? ==> forall i, j :: 0 <= i < j < |r.value| ==> r.value[i].event.id != r.value[j].event.id
  {
    var r := FindMany(events, bookings, f, toTime);
    if r.Success? {
      var w := BuildWhere(f, toTime).value;
      var matching := Seqs.Filter(events, Matching(w));
      var rows := Seqs.SortBy(matching, ByDate());
      assert Seqs.Distinct(events);
      Seqs.SubMultisetKeepsDistinct(matching, events);
      Seqs.SubMultisetKeepsDistinct(rows, matching);
      forall i, j | 0 <= i < j < |r.value| ensures r.value[i].event.id != r.value[j].event.id {
        assert rows[i] in multiset(rows) && rows[j] in multiset(rows);
        assert rows[i] in matching && rows[j] in matching;
        var m :| 0 <= m < |events| && events[m] == rows[i];
        var n :| 0 <= n < |events| && events[n] == rows[j];
      }
    }
  }

  /** With no filter set the listing succeeds, has one entry per stored row,
      and lists every stored event. */
  lemma NoFiltersListEverything(events: seq<EventRow>, bookings: seq<BookingRow>, toTime: string -> Option<int>)
    ensures var r := FindMany(events, bookings, NoFilters, toTime);
      && r.Success? && |r.value| == |events|
      && forall e :: e in events ==> exists i :: 0 <= i < |r.value| && r.value[i].event == e
  {
    var w := BuildWhere(NoFilters, toTime).value;
    assert Seqs.Filter(events, Matching(w)) == events by {
      FilterKeepsAll(events, Matching(w));
    }
    forall e | e in events
      ensures exists i :: 0 <= i < |FindMany(events, bookings, NoFilters, toTime).value| &&
                          FindMany(events, bookings, NoFilters, toTime).value[i].event == e
    {
      FindManyComplete(events, bookings, NoFilters, toTime, e);
    }
  }

  lemma {:induction false} FilterKeepsAll(s: seq<EventRow>, p: EventRow -> bool)
    requires forall e :: p(e)
    ensures Seqs.Filter(s, p) == s
  {
    if s != [] {
      FilterKeepsAll(s[1..], p);
      assert s == [s[0]] + s[1..];
    }
  }

  /** The data of `Event.create`: the fields of a new row. */
  datatype NewEvent = NewEvent(
    title: string, description: string, date: int, location: string,
    category: Category, capacity: int, organizerId: nat)

  /** `Event.create`: inserts a row with the next id; a new event has no
      bookings, so its `attendeeCount` is 0. */
  method Create(db: Store, data: NewEvent) returns (v: EventView)
    requires db.Valid()
    modifies db
    ensures db.Valid()
    ensures v.event == EventRow(old(db.nextEventId), data.title, data.description, data.date,
                                data.location, data.category, data.capacity, data.organizerId)
    ensures v.attendeeCount == 0
    ensures db.events == old(db.events) + [v.event] && db.nextEventId == old(db.nextEventId) + 1
    ensures db.bookings == old(db.bookings) && db.nextBookingId == old(db.nextBookingId)
  {
    var e := EventRow(db.nextEventId, data.title, data.description, data.date,
                      data.location, data.category, data.capacity, data.organizerId);
    forall i | 0 <= i < |db.bookings| ensures db.bookings[i].eventId != e.id {
      assert FindEventRow(db.events, db.bookings[i].eventId).Some?;
    }
    NoBookingsNoAttendees(db.bookings, e.id);
    AttendeeCountIsCountByEvent(db.bookings, e);
    ghost var before := db.events;
    db.events := db.events + [e];
    db.nextEventId := db.nextEventId + 1;
    forall id | FindEventRow(before, id).Some? ensures FindEventRow(db.events, id).Some? {
      var j :| 0 <= j < |before| && before[j].id == id;
      assert db.events[j] == before[j];
    }
    v := WithAttendeeCount(db.bookings, e);
  }

  /** The data of `Event.update`: the fields present in the request body. */
  datatype EventPatch = EventPatch(
    title: Option<string>, description: Option<string>, date: Option<int>, location: Option<string>,
    category: Option<Category>, capacity: Option<int>, organizerId: Option<nat>)

  function Pick<T>(update: Option<T>, current: T): T {
    if update.Some? then update.value else current
  }

  /** Prisma's `update` with `data`: fields present in `data` replace the
      stored ones, absent fields keep their value, the id never changes. */
  function ApplyPatch(e: EventRow, p: EventPatch): (r: EventRow)
    ensures r.id == e.id
    ensures p.title.None? ==> r.title == e.title
    ensures p.title.Some? ==> r.title == p.title.value
    ensures p.description.None? ==> r.description == e.description
    ensures p.description.Some? ==> r.description == p.description.value
    ensures p.date.None? ==> r.date == e.date
    ensures p.date.Some? ==> r.date == p.date.value
    ensures p.location.None? ==> r.location == e.location
    ensures p.location.Some? ==> r.location == p.location.value
    ensures p.category.None? ==> r.category == e.category
    ensures p.category.Some? ==> r.category == p.category.value
    ensures p.capacity.None? ==> r.capacity == e.capacity
    ensures p.capacity.Some? ==> r.capacity == p.capacity.value
    ensures p.organizerId.None? ==> r.organizerId == e.organizerId
    ensures p.organizerId.Some? ==> r.organizerId == p.organizerId.value
  {
    EventRow(e.id, Pick(p.title, e.title), Pick(p.description, e.description), Pick(p.date, e.date),
             Pick(p.location, e.location), Pick(p.category, e.category), Pick(p.capacity, e.capacity),
             Pick(p.organizerId, e.organizerId))
  }

  /** Applying the same patch twice is applying it once, and the empty
      patch changes nothing. */
  lemma ApplyPatchIdempotent(e: EventRow, p: EventPatch)
    ensures ApplyPatch(ApplyPatch(e, p), p) == ApplyPatch(e, p)
    ensures ApplyPatch(e, EventPatch(None, None, None, None, None, None, None)) == e
  {
  }

  function IndexOf(events: seq<EventRow>, id: nat): (k: Option<nat>)
    ensures k.Some? ==> k.value < |events| && events[k.value].id == id
    ensures k.None? <==> FindEventRow(events, id).None?
  {
    if events == [] then None
    else if events[0].id == id then Some(0)
    else match IndexOf(events[1..], id)
      case None => None
      case Some(k) => Some(k + 1)
  }

  /** `Event.update(id, data)`: replaces the row in place and returns it with
      its confirmed count; an absent id is P2025. */
  method Update(db: Store, id: nat, p: EventPatch) returns (r: Result<EventView, DbError>)
    requires db.Valid()
    modifies db
    ensures db.Valid()
    ensures r.Failure? <==> FindEventRow(old(db.events), id).None?
    ensures r.Failure? ==> r.error == RecordNotFound && db.events == old(db.events)
    ensures r.Success? ==>
      && (exists k :: 0 <= k < |old(db.events)| && old(db.events)[k].id == id
            && db.events == old(db.events)[k := ApplyPatch(old(db.events)[k], p)]
            && r.value.event == db.events[k])
      && r.value.attendeeCount == BookingModel.CountByEvent(db.bookings, id)
    ensures db.bookings == old(db.bookings) && db.nextEventId == old(db.nextEventId)
    ensures db.nextBookingId == old(db.nextBookingId)
  {
    var k := IndexOf(db.events, id);
    if k.None? {
      return Failure(RecordNotFound);
    }
    ghost var before := db.events;
    var e := ApplyPatch(db.events[k.value], p);
    db.events := db.events[k.value := e];
    forall x | FindEventRow(before, x).Some? ensures FindEventRow(db.events, x).Some? {
      var j :| 0 <= j < |before| && before[j].id == x;
      assert db.events[j].id == x;
    }
    AttendeeCountIsCountByEvent(db.bookings, e);
    r := Success(WithAttendeeCount(db.bookings, e));
  }
}
