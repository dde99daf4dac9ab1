/** The `/api/bookings` routes: the admission handler, which checks and then
    commits one booking in a fixed order, and the per-user listing. */
module BookingRoutes {
  import opened Wrappers
  import opened Db
  import opened Http
  import opened Text
  import EventModel
  import BookingModel
  import Realtime
  import Seqs

  const NotFoundMessage: string := "Event not found"
  const AlreadyBookedMessage: string := "You have already booked this event"
  const CreateFaultMessage: string := "Server error while creating booking"
  const ListFaultMessage: string := "Server error while fetching bookings"

  /** The 400 message of a full event, with its count and capacity. */
  function FullMessage(attendeeCount: nat, capacity: int): string {
    "Event is fully booked. " + NatToString(attendeeCount) + "/" + IntToString(capacity) + " spots taken."
  }

  /** The outcome of one admission: the response, the Booking table and its
      counter afterwards, and what was emitted. */
  datatype Admission = Admission(
    response: Response<BookingRow>, bookings: seq<BookingRow>, nextBookingId: nat,
    emitted: seq<Realtime.Emission>)

  /** `POST /api/bookings` as a function of the store: 404 for a missing
      event, 400 for an existing (event, user) row of any status, 400 when
      the confirmed count has reached the capacity, 500 when the insert
      fails (`fault`), and otherwise 201 with the new row, which is also
      emitted as `booking-update`. `initialStatus` is the schema's default
      status of a new booking. */
  function Admit(events: seq<EventRow>, bookings: seq<BookingRow>, nextBookingId: nat,
                 eventId: nat, userId: nat, initialStatus: Status, now: int, fault: bool): Admission
  {
    var refuse := (r: Response<BookingRow>) => Admission(r, bookings, nextBookingId, []);
    match EventModel.FindById(events, bookings, eventId)
    case None => refuse(Response(404, Message(NotFoundMessage)))
    case Some(ev) =>
      if BookingModel.FindByEventAndUser(bookings, eventId, userId).Some? then
        refuse(Response(400, Message(AlreadyBookedMessage)))
      else if ev.attendeeCount >= ev.event.capacity then
        refuse(Response(400, Message(FullMessage(ev.attendeeCount, ev.event.capacity))))
      else if fault then
        refuse(Response(500, Message(CreateFaultMessage)))
      else
        var b := BookingRow(nextBookingId, eventId, userId, initialStatus, now);
        Admission(Response(201, Json(b)), bookings + [b], nextBookingId + 1,
                  [Realtime.Emission(Realtime.BookingUpdate, Realtime.BookingPayload(b))])
  }

  /** The handler itself: the same lookups in the same order, then the insert
      into the store and the emit. Between its checks and its insert nothing
      else runs here; in the server two requests could interleave there. */
  method PostBooking(db: Store, io: Realtime.Io, eventId: nat, userId: nat,
                     initialStatus: Status, now: int, fault: bool)
    returns (resp: Response<BookingRow>)
    requires db.Valid()
    modifies db, io
    ensures db.Valid()
    ensures var a := Admit(old(db.events), old(db.bookings), old(db.nextBookingId),
                           eventId, userId, initialStatus, now, fault);
      && resp == a.response
      && db.bookings == a.bookings
      && db.nextBookingId == a.nextBookingId
      && io.emitted == old(io.emitted) + a.emitted
    ensures db.events == old(db.events) && db.nextEventId == old(db.nextEventId)
  {
    var event := EventModel.FindById(db.events, db.bookings, eventId);
    if event.None? {
      return Response(404, Message(NotFoundMessage));
    }
    var existing := BookingModel.FindByEventAndUser(db.bookings, eventId, userId);
    if existing.Some? {
      return Response(400, Message(AlreadyBookedMessage));
    }
    if event.value.attendeeCount >= event.value.event.capacity {
      return Response(400, Message(FullMessage(event.value.attendeeCount, event.value.event.capacity)));
    }
    var created := BookingModel.Create(db, eventId, userId, initialStatus, now, fault);
    if created.Failure? {
      return Response(500, Message(CreateFaultMessage));
    }
    io.Emit(Realtime.BookingUpdate, Realtime.BookingPayload(created.value));
    resp := Response(201, Json(created.value));
  }

  // ---------------------------------------------------------------------
  // Properties of an admission
  // ---------------------------------------------------------------------

  /** A booking is made exactly when the event exists, the caller has no row
      for it, its confirmed count is below its capacity and the insert
      succeeds; it is then the only change, and the only emission carries it. */
  lemma AdmitSucceedsExactly(events: seq<EventRow>, bookings: seq<BookingRow>, nextBookingId: nat,
                             eventId: nat, userId: nat, initialStatus: Status, now: int, fault: bool)
    ensures var a := Admit(events, bookings, nextBookingId, eventId, userId, initialStatus, now, fault);
      && (a.response.status == 201 <==>
            && FindEventRow(events, eventId).Some?
            && BookingModel.FindByEventAndUser(bookings, eventId, userId).None?
            && BookingModel.CountByEvent(bookings, eventId) < FindEventRow(events, eventId).value.capacity
            && !fault)
      && (a.response.status == 201 ==>
            && var b := BookingRow(nextBookingId, eventId, userId, initialStatus, now);
            && a.response.body == Json(b)
            && a.bookings == bookings + [b]
            && a.nextBookingId == nextBookingId + 1
            && a.emitted == [Realtime.Emission(Realtime.BookingUpdate, Realtime.BookingPayload(b))])
  {
  }

  /** Every refusal leaves the Booking table and its counter as they were and
      emits nothing; the emission happens only on success. */
  lemma AdmitFailureChangesNothing(events: seq<EventRow>, bookings: seq<BookingRow>, nextBookingId: nat,
                                   eventId: nat, userId: nat, initialStatus: Status, now: int, fault: bool)
    ensures var a := Admit(events, bookings, nextBookingId, eventId, userId, initialStatus, now, fault);
      && (a.response.status != 201 ==> a.bookings == bookings && a.nextBookingId == nextBookingId)
      && (a.emitted != [] <==> a.response.status == 201)
  {
    match EventModel.FindById(events, bookings, eventId)
    case None =>
    case Some(ev) =>
  }

  /** A missing event is a 404 whatever else holds. */
  lemma AdmitMissingEvent(events: seq<EventRow>, bookings: seq<BookingRow>, nextBookingId: nat,
                          eventId: nat, userId: nat, initialStatus: Status, now: int, fault: bool)
    requires FindEventRow(events, eventId).None?
    ensures Admit(events, bookings, nextBookingId, eventId, userId, initialStatus, now, fault)
      == Admission(Response(404, Message(NotFoundMessage)), bookings, nextBookingId, [])
  {
  }

  /** Any existing row for the pair, CANCELLED included, refuses the request
      as "already booked", and this check comes before the capacity check:
      the answer is the same whether or not the event is full. */
  lemma AdmitRefusesExistingKey(events: seq<EventRow>, bookings: seq<BookingRow>, nextBookingId: nat,
                                eventId: nat, userId: nat, initialStatus: Status, now: int, fault: bool,
                                existing: BookingRow)
    requires FindEventRow(events, eventId).Some?
    requires existing in bookings && existing.eventId == eventId && existing.userId == userId
    ensures Admit(events, bookings, nextBookingId, eventId, userId, initialStatus, now, fault)
      == Admission(Response(400, Message(AlreadyBookedMessage)), bookings, nextBookingId, [])
  {
    var i :| 0 <= i < |bookings| && bookings[i] == existing;
  }

  /** A cancelled booking still blocks booking the same event again. */
  lemma CancelledBookingBlocksRebooking(events: seq<EventRow>, bookings: seq<BookingRow>, nextBookingId: nat,
                                        i: nat, initialStatus: Status, now: int, fault: bool)
    requires i < |bookings| && bookings[i].status == Cancelled
    requires FindEventRow(events, bookings[i].eventId).Some?
    ensures Admit(events, bookings, nextBookingId, bookings[i].eventId, bookings[i].userId,
                  initialStatus, now, fault).response
      == Response(400, Message(AlreadyBookedMessage))
  {
    AdmitRefusesExistingKey(events, bookings, nextBookingId, bookings[i].eventId, bookings[i].userId,
                            initialStatus, now, fault, bookings[i]);
  }

  /** A new caller on a full event is refused with the count and capacity in
      the message. */
  lemma AdmitRefusesFullEvent(events: seq<EventRow>, bookings: seq<BookingRow>, nextBookingId: nat,
                              eventId: nat, userId: nat, initialStatus: Status, now: int, fault: bool)
    requires FindEventRow(events, eventId).Some?
    requires BookingModel.FindByEventAndUser(bookings, eventId, userId).None?
    requires BookingModel.CountByEvent(bookings, eventId) >= FindEventRow(events, eventId).value.capacity
    ensures Admit(events, bookings, nextBookingId, eventId, userId, initialStatus, now, fault)
      == Admission(Response(400, Message(FullMessage(BookingModel.CountByEvent(bookings, eventId),
                                                     FindEventRow(events, eventId).value.capacity))),
                   bookings, nextBookingId, [])
  {
  }

  /** No event has more confirmed bookings than its capacity. */
  ghost predicate WithinCapacity(events: seq<EventRow>, bookings: seq<BookingRow>) {
    forall i :: 0 <= i < |events| ==> BookingModel.CountByEvent(bookings, events[i].id) <= events[i].capacity
  }

  /** An admission never takes an event beyond its capacity: a CONFIRMED row
      is added only below the capacity, and a row of another status does not
      count at all. */
  lemma AdmitKeepsCapacity(events: seq<EventRow>, bookings: seq<BookingRow>, nextBookingId: nat,
                           eventId: nat, userId: nat, initialStatus: Status, now: int, fault: bool)
    requires EventIdsUnique(events)
    requires WithinCapacity(events, bookings)
    ensures WithinCapacity(events, Admit(events, bookings, nextBookingId, eventId, userId, initialStatus, now, fault).bookings)
  {
    var a := Admit(events, bookings, nextBookingId, eventId, userId, initialStatus, now, fault);
    if a.bookings != bookings {
      var b := BookingRow(nextBookingId, eventId, userId, initialStatus, now);
      assert a.bookings == bookings + [b];
      forall i | 0 <= i < |events|
        ensures BookingModel.CountByEvent(a.bookings, events[i].id) <= events[i].capacity
      {
        BookingModel.CountByEventAppend(bookings, b, events[i].id);
        if events[i].id == eventId {
          FindEventRowIsKeyed(events, i);
        }
      }
    }
  }

  /** An admission keeps the (eventId, userId) key unique. */
  lemma AdmitKeepsKeysUnique(events: seq<EventRow>, bookings: seq<BookingRow>, nextBookingId: nat,
                             eventId: nat, userId: nat, initialStatus: Status, now: int, fault: bool)
    requires BookingKeysUnique(bookings)
    ensures BookingKeysUnique(Admit(events, bookings, nextBookingId, eventId, userId, initialStatus, now, fault).bookings)
  {
    var a := Admit(events, bookings, nextBookingId, eventId, userId, initialStatus, now, fault);
    if a.bookings != bookings {
      var b := BookingRow(nextBookingId, eventId, userId, initialStatus, now);
      assert a.bookings == bookings + [b];
      assert forall i :: 0 <= i < |bookings| ==> a.bookings[i] == bookings[i];
    }
  }

  // ---------------------------------------------------------------------
  // Admissions in turn
  // ---------------------------------------------------------------------

  /** The requests of `users`, one after another, for the same event, each
      creating its booking with `initialStatus`: the final Booking table and
      counter, and the number of 201 answers. */
  function AdmitInTurn(events: seq<EventRow>, bookings: seq<BookingRow>, nextBookingId: nat,
                       eventId: nat, users: seq<nat>, initialStatus: Status, now: int): (seq<BookingRow>, nat, nat)
    decreases |users|
  {
    if users == [] then (bookings, nextBookingId, 0)
    else
      var a := Admit(events, bookings, nextBookingId, eventId, users[0], initialStatus, now, false);
      var rest := AdmitInTurn(events, a.bookings, a.nextBookingId, eventId, users[1..], initialStatus, now);
      (rest.0, rest.1, rest.2 + (if a.response.status == 201 then 1 else 0))
  }

  /** Distinct new callers asking in turn for CONFIRMED places on an existing
      event: exactly as many are admitted as there were free places, or all
      of them when there are fewer callers than places. With capacity 2, a
      third caller is refused. */
  lemma {:induction false} AdmitInTurnFillsFreePlaces(events: seq<EventRow>, bookings: seq<BookingRow>,
                                                      nextBookingId: nat, eventId: nat, users: seq<nat>, now: int)
    requires FindEventRow(events, eventId).Some?
    requires BookingModel.CountByEvent(bookings, eventId) <= FindEventRow(events, eventId).value.capacity
    requires forall i, j :: 0 <= i < j < |users| ==> users[i] != users[j]
    requires forall k :: 0 <= k < |users| ==> BookingModel.FindByEventAndUser(bookings, eventId, users[k]).None?
    ensures var free := FindEventRow(events, eventId).value.capacity - BookingModel.CountByEvent(bookings, eventId);
      AdmitInTurn(events, bookings, nextBookingId, eventId, users, Confirmed, now).2
        == if |users| <= free then |users| else free
    decreases |users|
  {
    if users != [] {
      var a := Admit(events, bookings, nextBookingId, eventId, users[0], Confirmed, now, false);
      var e := FindEventRow(events, eventId).value;
      var b := BookingRow(nextBookingId, eventId, users[0], Confirmed, now);
      forall k | 0 <= k < |users[1..]|
        ensures BookingModel.FindByEventAndUser(a.bookings, eventId, users[1..][k]).None?
      {
        assert users[1..][k] == users[k + 1];
        if a.bookings != bookings {
          assert a.bookings == bookings + [b];
          assert forall i :: 0 <= i < |bookings| ==> a.bookings[i] == bookings[i];
        }
      }
      if a.bookings != bookings {
        BookingModel.CountByEventAppend(bookings, b, eventId);
      }
      AdmitInTurnFillsFreePlaces(events, a.bookings, a.nextBookingId, eventId, users[1..], now);
    }
  }

  // ---------------------------------------------------------------------
  // GET /api/bookings
  // ---------------------------------------------------------------------

  /** `GET /api/bookings`: the caller's bookings as `Booking.findByUser` lists
      them, read with the documented meaning of `upcoming`; 500 when the
      query is refused. `status` is '' when the query string has none. */
  function GetBookings(events: seq<EventRow>, bookings: seq<BookingRow>, userId: nat,
                       status: string, upcoming: Option<string>, now: int): (r: Response<seq<BookingModel.BookingView>>)
    requires BookingsReferenceEvents(events, bookings)
    ensures r.status == 200 || r == Response(500, Message(ListFaultMessage))
    ensures r.status == 500 <==> status != "" && status !in StatusNames
    ensures r.status == 200 ==>
      r.body == Json(BookingModel.FindByUser(events, bookings, userId, status, BookingModel.UpcomingFlag(upcoming), now).value)
  {
    BookingModel.FindByUserFailsOnlyOnBadStatus(events, bookings, userId, status, BookingModel.UpcomingFlag(upcoming), now);
    match BookingModel.FindByUser(events, bookings, userId, status, BookingModel.UpcomingFlag(upcoming), now)
    case Failure(_) => Response(500, Message(ListFaultMessage))
    case Success(list) => Response(200, Json(list))
  }

  /** With `upcoming=false` only the caller's bookings of past events are
      listed, and with `upcoming=true` only those of future events. */
  lemma GetBookingsSplitsByDate(events: seq<EventRow>, bookings: seq<BookingRow>, userId: nat,
                                status: string, now: int)
    requires BookingsReferenceEvents(events, bookings)
    ensures var r := GetBookings(events, bookings, userId, status, Some("false"), now);
      r.status == 200 ==> forall i :: 0 <= i < |r.body.value| ==>
        r.body.value[i].booking.userId == userId && r.body.value[i].event.date < now
    ensures var r := GetBookings(events, bookings, userId, status, Some("true"), now);
      r.status == 200 ==> forall i :: 0 <= i < |r.body.value| ==>
        r.body.value[i].booking.userId == userId && r.body.value[i].event.date > now
  {
    BookingModel.FindByUserSound(events, bookings, userId, status, Some(false), now);
    BookingModel.FindByUserSound(events, bookings, userId, status, Some(true), now);
  }

  /** As written, `findByUser` tests the raw string `upcoming` for
      truthiness, so `upcoming=false` still selects upcoming events: a
      booking of an event after `now` is listed. */
  lemma UpcomingFalseAsWrittenListsFutureEvent()
    ensures var e := EventRow(1, "Launch", "Product launch evening", 200, "Kigali", Social, 10, 2);
      var b := BookingRow(1, 1, 7, Confirmed, 0);
      BookingModel.FindByUser([e], [b], 7, "", BookingModel.UpcomingFlagAsWritten(Some("false")), 100)
        == Success([BookingModel.BookingView(b, e)])
  {
    var e := EventRow(1, "Launch", "Product launch evening", 200, "Kigali", Social, 10, 2);
    var b := BookingRow(1, 1, 7, Confirmed, 0);
    var v := BookingModel.BookingView(b, e);
    var w := BookingModel.BookingWhere(7, None);
    assert BookingModel.MatchesWhere(b, w);
    var rows := BookingModel.SelectRows([b], w);
    assert b in rows;
    assert rows == [b];
    assert BookingModel.Join([e], rows) == [v];
    assert BookingModel.KeptView(true, 100)(v);
    var kept := Seqs.Filter([v], BookingModel.KeptView(true, 100));
    assert v in kept;
    assert kept == [v];
    assert BookingModel.BuildWhere(7, "") == Success(w);
  }
}
