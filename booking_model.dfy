/** The Booking model: `create`, the composite-key lookup, the per-user
    listing with its status and upcoming/past filters, and the confirmed
    count of an event. */
module BookingModel {
  import opened Wrappers
  import opened Db
  import Seqs

  /** `prisma.booking.findUnique({ where: { eventId_userId } })`: no status
      filter, so a CANCELLED or PENDING row is found as well. */
  function FindByEventAndUser(bookings: seq<BookingRow>, eventId: nat, userId: nat): (r: Option<BookingRow>)
    ensures r.Some? ==> r.value in bookings && r.value.eventId == eventId && r.value.userId == userId
    ensures r.None? <==> forall i :: 0 <= i < |bookings| ==>
      bookings[i].eventId != eventId || bookings[i].userId != userId
  {
    if bookings == [] then None
    else if bookings[0].eventId == eventId && bookings[0].userId == userId then Some(bookings[0])
    else FindByEventAndUser(bookings[1..], eventId, userId)
  }

  /** Under the unique key, the lookup returns THE row of that pair. */
  lemma FindByEventAndUserIsKeyed(bookings: seq<BookingRow>, i: nat)
    requires BookingKeysUnique(bookings)
    requires i < |bookings|
    ensures FindByEventAndUser(bookings, bookings[i].eventId, bookings[i].userId) == Some(bookings[i])
  {
    var r := FindByEventAndUser(bookings, bookings[i].eventId, bookings[i].userId);
    var j :| 0 <= j < |bookings| && bookings[j] == r.value;
  }

  /** `prisma.booking.count({ where: { eventId, status: 'CONFIRMED' } })`. */
  function CountByEvent(bookings: seq<BookingRow>, eventId: nat): (n: nat)
    ensures n <= |bookings|
  {
    if bookings == [] then 0
    else
      var here := if bookings[0].eventId == eventId && bookings[0].status == Confirmed then 1 else 0;
      here + CountByEvent(bookings[1..], eventId)
  }

  /** Appending one row changes the count by one exactly when the row is a
      CONFIRMED booking of that event. */
  lemma {:induction false} CountByEventAppend(bookings: seq<BookingRow>, b: BookingRow, eventId: nat)
    ensures CountByEvent(bookings + [b], eventId)
      == CountByEvent(bookings, eventId) + (if b.eventId == eventId && b.status == Confirmed then 1 else 0)
  {
    if bookings != [] {
      assert (bookings + [b])[1..] == bookings[1..] + [b];
      CountByEventAppend(bookings[1..], b, eventId);
    } else {
      assert [b][1..] == [];
    }
  }

  /** `Booking.create`: inserts one row with the schema's default status and
      the current time as `bookingDate`. The database refuses a second row for
      the same (eventId, userId) (P2002) and a row for a missing event (P2003);
      `fault` stands for any other failure of the insert. */
  method Create(db: Store, eventId: nat, userId: nat, status: Status, now: int, fault: bool)
    returns (r: Result<BookingRow, DbError>)
    requires db.Valid()
    modifies db
    ensures db.Valid()
    ensures r.Failure? <==>
      fault || FindEventRow(old(db.events), eventId).None?
      || FindByEventAndUser(old(db.bookings), eventId, userId).Some?
    ensures r.Success? ==>
      && r.value == BookingRow(old(db.nextBookingId), eventId, userId, status, now)
      && db.bookings == old(db.bookings) + [r.value]
      && db.nextBookingId == old(db.nextBookingId) + 1
    ensures r.Failure? ==> db.bookings == old(db.bookings) && db.nextBookingId == old(db.nextBookingId)
    ensures db.events == old(db.events) && db.nextEventId == old(db.nextEventId)
  {
    if fault {
      return Failure(StorageFault);
    }
    if FindEventRow(db.events, eventId).None? {
      return Failure(ForeignKeyViolation);
    }
    if FindByEventAndUser(db.bookings, eventId, userId).Some? {
      return Failure(UniqueViolation);
    }
    var b := BookingRow(db.nextBookingId, eventId, userId, status, now);
    ghost var before := db.bookings;
    db.bookings := db.bookings + [b];
    db.nextBookingId := db.nextBookingId + 1;
    assert forall i :: 0 <= i < |before| ==> db.bookings[i] == before[i];
    assert db.bookings[|before|] == b;
    r := Success(b);
  }

  /** A booking joined with its event (`include: { event }`). */
  datatype BookingView = BookingView(booking: BookingRow, event: EventRow)

  /** The `where` object of `findByUser`: the caller's id, and the status
      when one was given. */
  datatype BookingWhere = BookingWhere(userId: nat, status: Option<Status>)

  /** `if (status) where.status = status`; a status that is not an enum name
      makes Prisma refuse the query. */
  function BuildWhere(userId: nat, status: string): Result<BookingWhere, QueryError> {
    if status == "" then Success(BookingWhere(userId, None))
    else match ParseStatus(status)
      case Some(st) => Success(BookingWhere(userId, Some(st)))
      case None => Failure(InvalidEnumValue(status))
  }

  predicate MatchesWhere(b: BookingRow, w: BookingWhere) {
    b.userId == w.userId && (w.status.None? || b.status == w.status.value)
  }

  /** `upcoming ? eventDate > now : eventDate < now`. */
  predicate KeptByDate(eventDate: int, upcoming: bool, now: int) {
    if upcoming then eventDate > now else eventDate < now
  }

  function Matching(w: BookingWhere): BookingRow -> bool {
    (b: BookingRow) => MatchesWhere(b, w)
  }

  /** The sort key of `orderBy: { bookingDate: 'desc' }`. */
  function NewestFirst(): BookingRow -> int {
    (b: BookingRow) => -b.bookingDate
  }

  function KeptView(upcoming: bool, now: int): BookingView -> bool {
    (v: BookingView) => KeptByDate(v.event.date, upcoming, now)
  }

  function Join(events: seq<EventRow>, rows: seq<BookingRow>): (r: seq<BookingView>)
    requires forall i :: 0 <= i < |rows| ==> FindEventRow(events, rows[i].eventId).Some?
    ensures |r| == |rows|
    ensures forall i :: 0 <= i < |rows| ==>
      r[i] == BookingView(rows[i], FindEventRow(events, rows[i].eventId).value)
  {
    seq(|rows|, i requires 0 <= i < |rows| => BookingView(rows[i], FindEventRow(events, rows[i].eventId).value))
  }

  /** The rows the Prisma query returns, newest booking first. */
  function SelectRows(bookings: seq<BookingRow>, w: BookingWhere): (rows: seq<BookingRow>)
    ensures forall i :: 0 <= i < |rows| ==> rows[i] in bookings && MatchesWhere(rows[i], w)
    ensures forall b :: b in bookings && MatchesWhere(b, w) ==> b in rows
    ensures forall i, j :: 0 <= i < j < |rows| ==> rows[i].bookingDate >= rows[j].bookingDate
    ensures multiset(rows) == multiset(Seqs.Filter(bookings, Matching(w)))
  {
    var matching := Seqs.Filter(bookings, Matching(w));
    var rows := Seqs.SortBy(matching, NewestFirst());
    assert forall i :: 0 <= i < |rows| ==> rows[i] in matching by {
      forall i | 0 <= i < |rows| ensures rows[i] in matching {
        assert rows[i] in multiset(rows);
      }
    }
    assert forall b :: b in matching ==> b in rows by {
      forall b | b in matching ensures b in rows {
        assert b in multiset(matching);
      }
    }
    rows
  }

  /** `Booking.findByUser(userId, { status, upcoming })`; `upcoming` is the
      flag after the query-string value has been read (see `UpcomingFlag`). */
  function FindByUser(events: seq<EventRow>, bookings: seq<BookingRow>, userId: nat, status: string,
                      upcoming: Option<bool>, now: int): Result<seq<BookingView>, QueryError>
    requires BookingsReferenceEvents(events, bookings)
  {
    match BuildWhere(userId, status)
    case Failure(e) => Failure(e)
    case Success(w) =>
      var rows := SelectRows(bookings, w);
      SelectedReferenceEvents(events, bookings, w);
      var joined := Join(events, rows);
      if upcoming.None? then Success(joined)
      else Success(Seqs.Filter(joined, KeptView(upcoming.value, now)))
  }

  /** The selected rows keep the foreign key, so each joins its event. */
  lemma SelectedReferenceEvents(events: seq<EventRow>, bookings: seq<BookingRow>, w: BookingWhere)
    requires BookingsReferenceEvents(events, bookings)
    ensures var rows := SelectRows(bookings, w);
      forall i :: 0 <= i < |rows| ==> FindEventRow(events, rows[i].eventId).Some?
  {
    var rows := SelectRows(bookings, w);
    forall i | 0 <= i < |rows| ensures FindEventRow(events, rows[i].eventId).Some? {
      var j :| 0 <= j < |bookings| && bookings[j] == rows[i];
    }
  }

  /** A status that is not one of the three enum names is refused; any other
      query succeeds. */
  lemma FindByUserFailsOnlyOnBadStatus(events: seq<EventRow>, bookings: seq<BookingRow>, userId: nat,
                                       status: string, upcoming: Option<bool>, now: int)
    requires BookingsReferenceEvents(events, bookings)
    ensures FindByUser(events, bookings, userId, status, upcoming, now).Failure?
      <==> status != "" && status !in StatusNames
  {
  }

  /** Every listed booking is the caller's, has the requested status, carries
      its own event, and passes the upcoming/past test when one was asked
      for; an event exactly at `now` is never listed then. */
  lemma FindByUserSound(events: seq<EventRow>, bookings: seq<BookingRow>, userId: nat,
                        status: string, upcoming: Option<bool>, now: int)
    requires BookingsReferenceEvents(events, bookings)
    ensures var r := FindByUser(events, bookings, userId, status, upcoming, now);
      r.Success? ==> forall i :: 0 <= i < |r.value| ==>
        && r.value[i].booking in bookings
        && r.value[i].booking.userId == userId
        && (status != "" ==> StatusName(r.value[i].booking.status) == status)
        && FindEventRow(events, r.value[i].booking.eventId) == Some(r.value[i].event)
        && (upcoming.Some? ==> KeptByDate(r.value[i].event.date, upcoming.value, now))
        && (upcoming.Some? ==> r.value[i].event.date != now)
  {
    var r := FindByUser(events, bookings, userId, status, upcoming, now);
    if r.Success? {
      var w := BuildWhere(userId, status).value;
      var joined := Join(events, SelectRows(bookings, w));
      forall i | 0 <= i < |r.value|
        ensures r.value[i] in joined
      {
        if upcoming.Some? {
          assert r.value[i] in Seqs.Filter(joined, KeptView(upcoming.value, now));
        }
      }
    }
  }

  /** Every booking of the caller with the requested status, and, when
      upcoming/past was asked for, whose event passes that test, is listed. */
  lemma FindByUserComplete(events: seq<EventRow>, bookings: seq<BookingRow>, userId: nat,
                           status: string, upcoming: Option<bool>, now: int, b: BookingRow)
    requires BookingsReferenceEvents(events, bookings)
    requires b in bookings && b.userId == userId
    requires status == "" || StatusName(b.status) == status
    requires upcoming.Some? ==> KeptByDate(FindEventRow(events, b.eventId).value.date, upcoming.value, now)
    ensures var r := FindByUser(events, bookings, userId, status, upcoming, now);
      r.Success? && exists i :: 0 <= i < |r.value| && r.value[i].booking == b
  {
    BuildWhereMatches(userId, status, b);
    var w := BuildWhere(userId, status).value;
    var rows := SelectRows(bookings, w);
    var k :| 0 <= k < |rows| && rows[k] == b;
    var j :| 0 <= j < |bookings| && bookings[j] == rows[k];
    var joined := Join(events, rows);
    assert joined[k] == BookingView(b, FindEventRow(events, b.eventId).value);
    var r := FindByUser(events, bookings, userId, status, upcoming, now);
    assert r.value == if upcoming.None? then joined else Seqs.Filter(joined, KeptView(upcoming.value, now));
    KeptIsListed(joined, upcoming, now, k);
  }

  /** The condition built for the caller and the name of a booking's own
      status selects that booking. */
  lemma BuildWhereMatches(userId: nat, status: string, b: BookingRow)
    requires b.userId == userId
    requires status == "" || StatusName(b.status) == status
    ensures BuildWhere(userId, status).Success? && MatchesWhere(b, BuildWhere(userId, status).value)
  {
    if status != "" {
      match b.status
      case Pending =>
      case Confirmed =>
      case Cancelled =>
    }
  }

  /** A joined row that passes the upcoming/past test, when one is asked
      for, is in the listing. */
  lemma KeptIsListed(joined: seq<BookingView>, upcoming: Option<bool>, now: int, k: nat)
    requires k < |joined|
    requires upcoming.Some? ==> KeptByDate(joined[k].event.date, upcoming.value, now)
    ensures var list := if upcoming.None? then joined else Seqs.Filter(joined, KeptView(upcoming.value, now));
      exists i :: 0 <= i < |list| && list[i] == joined[k]
  {
    var list := if upcoming.None? then joined else Seqs.Filter(joined, KeptView(upcoming.value, now));
    if upcoming.Some? {
      assert joined[k] in list;
    }
    var i :| 0 <= i < |list| && list[i] == joined[k];
  }

  /** Each stored booking is listed at most once: no two entries share a
      booking id, as the rows the query reads have unique ids. */
  lemma FindByUserListsEachOnce(events: seq<EventRow>, bookings: seq<BookingRow>, userId: nat,
                                status: string, upcoming: Option<bool>, now: int)
    requires BookingsReferenceEvents(events, bookings)
    requires BookingIdsUnique(bookings)
    ensures var r := FindByUser(events, bookings, userId, status, upcoming, now);
      r.Success? ==> forall i, j :: 0 <= i < j < |r.value| ==>
        r.value[i].booking.id != r.value[j].booking.id
  {
    var r := FindByUser(events, bookings, userId, status, upcoming, now);
    if r.Success? {
      FindByUserSound(events, bookings, userId, status, upcoming, now);
      FindByUserRepeatsNothing(events, bookings, userId, status, upcoming, now);
      forall i, j | 0 <= i < j < |r.value|
        ensures r.value[i].booking.id != r.value[j].booking.id
      {
        var m :| 0 <= m < |bookings| && bookings[m] == r.value[i].booking;
        var n :| 0 <= n < |bookings| && bookings[n] == r.value[j].booking;
      }
    }
  }

  /** A listing drawn from rows without repeats has no repeated entry. */
  lemma FindByUserRepeatsNothing(events: seq<EventRow>, bookings: seq<BookingRow>, userId: nat,
                                 status: string, upcoming: Option<bool>, now: int)
    requires BookingsReferenceEvents(events, bookings)
    requires Seqs.Distinct(bookings)
    ensures var r := FindByUser(events, bookings, userId, status, upcoming, now);
      r.Success? ==> Seqs.Distinct(r.value)
  {
    var r := FindByUser(events, bookings, userId, status, upcoming, now);
    if r.Success? {
      var w := BuildWhere(userId, status).value;
      var rows := SelectRows(bookings, w);
      var joined := Join(events, rows);
      Seqs.SubMultisetKeepsDistinct(Seqs.Filter(bookings, Matching(w)), bookings);
      Seqs.SubMultisetKeepsDistinct(rows, Seqs.Filter(bookings, Matching(w)));
      assert Seqs.Distinct(joined) by {
        forall i, j | 0 <= i < j < |joined| ensures joined[i] != joined[j] {
          assert joined[i].booking == rows[i] && joined[j].booking == rows[j];
        }
      }
      if upcoming.Some? {
        Seqs.SubMultisetKeepsDistinct(r.value, joined);
      }
    }
  }

  /** Bookings are listed by `bookingDate`, newest first, also after the
      upcoming/past filter. */
  lemma FindByUserNewestFirst(events: seq<EventRow>, bookings: seq<BookingRow>, userId: nat,
                              status: string, upcoming: Option<bool>, now: int)
    requires BookingsReferenceEvents(events, bookings)
    ensures var r := FindByUser(events, bookings, userId, status, upcoming, now);
      r.Success? ==> forall i, j :: 0 <= i < j < |r.value| ==>
        r.value[i].booking.bookingDate >= r.value[j].booking.bookingDate
  {
    var r := FindByUser(events, bookings, userId, status, upcoming, now);
    if r.Success? && upcoming.Some? {
      var w := BuildWhere(userId, status).value;
      var joined := Join(events, SelectRows(bookings, w));
      var key := (v: BookingView) => -v.booking.bookingDate;
      assert Seqs.SortedBy(joined, key);
      Seqs.FilterSorted(joined, KeptView(upcoming.value, now), key);
    }
  }

  /** How `findByUser` reads the raw `upcoming` query-string value: it is
      tested for JavaScript truthiness, so every non-empty string, including
      "false", selects upcoming events. */
  function UpcomingFlagAsWritten(raw: Option<string>): Option<bool> {
    match raw
    case None => None
    case Some(s) => Some(s != "")
  }

  /** The reading the API documents (`upcoming` is a boolean): "true" selects
      upcoming events, anything else past events. */
  function UpcomingFlag(raw: Option<string>): (r: Option<bool>)
    ensures r.None? <==> raw.None?
    ensures r == Some(true) <==> raw == Some("true")
  {
    match raw
    case None => None
    case Some(s) => Some(s == "true")
  }
}
