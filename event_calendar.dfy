/** The event calendar page: the react-query cache it reads and writes, the
    optimistic booking mutation (snapshot, transform, rollback, refetch), the
    mapping of events onto calendar entries, and the modal it opens. */
module EventCalendar {
  import opened Wrappers
  import opened Query
  import opened Db
  import BookingModel
  import EventModal

  /** An event as the client holds it: the server's JSON, plus the
      `isBooked` flag the optimistic update adds (absent, so false, in what
      the server sends). */
  datatype ClientEvent = ClientEvent(event: EventRow, attendeeCount: int, isBooked: bool)

  /** The two query keys the page uses: `['events', filters]` and `['bookings']`. */
  datatype QueryKey = EventsKey(filters: Filters) | BookingsKey

  datatype CacheData =
    | EventList(events: seq<ClientEvent>)
    | BookingList(bookings: seq<BookingModel.BookingView>)

  /** What `onMutate` returns: `{ previousEvents }`. */
  datatype MutationContext = MutationContext(previousEvents: CacheData)

  /** The optimistic update applied to the cached list: the booked event is
      marked booked with one more attendee, with no check of capacity or of
      an existing booking. */
  function Optimistic(events: seq<ClientEvent>, eventId: nat): (r: seq<ClientEvent>)
    ensures |r| == |events|
  {
    seq(|events|, i requires 0 <= i < |events| =>
      if events[i].event.id == eventId
      then events[i].(isBooked := true, attendeeCount := events[i].attendeeCount + 1)
      else events[i])
  }

  /** The transform keeps the list's length and order, changes no event but
      those with the booked id, and changes those only in the two fields. */
  lemma OptimisticTouchesOnlyTheBookedEvent(events: seq<ClientEvent>, eventId: nat)
    ensures var r := Optimistic(events, eventId);
      forall i :: 0 <= i < |events| ==>
        && r[i].event == events[i].event
        && (events[i].event.id != eventId ==> r[i] == events[i])
        && (events[i].event.id == eventId ==> r[i].isBooked && r[i].attendeeCount == events[i].attendeeCount + 1)
  {
  }

  /** The transform counts a booking on a full event too: here an event with
      its 3 places taken shows 4 attendees. */
  lemma OptimisticIgnoresCapacity()
    ensures var e := ClientEvent(EventRow(4, "Workshop", "Hands-on workshop", 0, "Kigali", Workshop, 3, 1), 3, false);
      Optimistic([e], 4)[0].attendeeCount > e.event.capacity
  {
  }

  /** The react-query client, for the page's two keys: the cached data, the
      keys marked stale by `invalidateQueries` and those whose fetches
      `cancelQueries` has cancelled. */
  class QueryCache {
    var entries: map<QueryKey, CacheData>
    var stale: set<QueryKey>
    var cancelled: set<QueryKey>

    constructor ()
      ensures entries == map[] && stale == {} && cancelled == {}
    {
      entries, stale, cancelled := map[], {}, {};
    }

    /** `getQueryData(key)`. */
    function Get(key: QueryKey): (r: Option<CacheData>)
      reads this
      ensures r.Some? <==> key in entries
      ensures r.Some? ==> r.value == entries[key]
    {
      if key in entries then Some(entries[key]) else None
    }

    /** `onMutate(eventId)`: cancel the key's fetches, snapshot its entry and
        write the optimistic list. With no list cached the updater's
        `old.map` throws: the result is None and the data is untouched. */
    method OnMutate(filters: Filters, eventId: nat) returns (ctx: Option<MutationContext>)
      modifies this
      ensures cancelled == old(cancelled) + {EventsKey(filters)}
      ensures stale == old(stale)
      ensures var key := EventsKey(filters);
        if key in old(entries) && old(entries)[key].EventList? then
          && ctx == Some(MutationContext(old(entries)[key]))
          && entries == old(entries)[key := EventList(Optimistic(old(entries)[key].events, eventId))]
        else
          ctx.None? && entries == old(entries)
    {
      var key := EventsKey(filters);
      cancelled := cancelled + {key};
      var previous := Get(key);
      if previous.None? || !previous.value.EventList? {
        return None;
      }
      entries := entries[key := EventList(Optimistic(previous.value.events, eventId))];
      ctx := Some(MutationContext(previous.value));
    }

    /** `onError`: put the snapshot back. Without a context
        (`context.previousEvents` of undefined throws) nothing is written. */
    method OnError(filters: Filters, ctx: Option<MutationContext>)
      modifies this
      ensures ctx.Some? ==> entries == old(entries)[EventsKey(filters) := ctx.value.previousEvents]
      ensures ctx.None? ==> entries == old(entries)
      ensures stale == old(stale) && cancelled == old(cancelled)
    {
      if ctx.Some? {
        entries := entries[EventsKey(filters) := ctx.value.previousEvents];
      }
    }

    /** `onSettled`: both the events key and `['bookings']` go stale. */
    method OnSettled(filters: Filters)
      modifies this
      ensures stale == old(stale) + {EventsKey(filters), BookingsKey}
      ensures entries == old(entries) && cancelled == old(cancelled)
    {
      stale := stale + {EventsKey(filters), BookingsKey};
    }

    /** One booking from the calendar: `onMutate`, the request (whose
        answer is `accepted`), `onError` when it was refused, and `onSettled`.
        A refused booking leaves the cached data exactly as it was; an
        accepted one leaves the optimistic list. `sent` is false when
        `onMutate` threw, in which case nothing is invalidated. */
    method BookEvent(filters: Filters, eventId: nat, accepted: bool) returns (sent: bool)
      modifies this
      ensures var key := EventsKey(filters);
        sent <==> key in old(entries) && old(entries)[key].EventList?
      ensures !sent ==> entries == old(entries) && stale == old(stale)
      ensures sent ==> stale == old(stale) + {EventsKey(filters), BookingsKey}
      ensures cancelled == old(cancelled) + {EventsKey(filters)}
      ensures sent && !accepted ==> entries == old(entries)
      ensures sent && accepted ==>
        var key := EventsKey(filters);
        entries == old(entries)[key := EventList(Optimistic(old(entries)[key].events, eventId))]
    {
      var ctx := OnMutate(filters, eventId);
      if ctx.None? {
        return false;
      }
      sent := true;
      if !accepted {
        OnError(filters, ctx);
      }
      OnSettled(filters);
    }
  }

  /** A react-big-calendar entry; times are in milliseconds. */
  datatype CalendarEntry = CalendarEntry(id: nat, title: string, start: int, end: int, allDay: bool,
                                         resource: ClientEvent)

  const TwoHours: int := 2 * 60 * 60 * 1000

  /** `calendarEvents`: every event as a two-hour timed entry carrying the
      event itself. */
  function CalendarEvents(events: Option<seq<ClientEvent>>): (r: seq<CalendarEntry>)
    ensures events.None? ==> r == []
    ensures events.Some? ==> |r| == |events.value|
  {
    if events.None? then []
    else
      var es := events.value;
      seq(|es|, i requires 0 <= i < |es| =>
        CalendarEntry(es[i].event.id, es[i].event.title, es[i].event.date, es[i].event.date + TwoHours, false, es[i]))
  }

  /** Each entry starts at its event's date, ends 7,200,000 ms later, is not
      all-day, and carries its event. */
  lemma CalendarEntriesCarryTheirEvent(events: seq<ClientEvent>)
    ensures var r := CalendarEvents(Some(events));
      forall i :: 0 <= i < |events| ==>
        && r[i].resource == events[i] && r[i].id == events[i].event.id
        && r[i].start == events[i].event.date && r[i].end == r[i].start + 7200000
        && !r[i].allDay
  {
  }

  /** Selecting entry `i` opens the modal on the entry's `resource`, and its
      Book button hands that event's `id` to the mutation. With the listed
      ids distinct, as the server's are, the optimistic update then marks
      the selected event and no other. */
  lemma ModalBookingMarksSelectedEvent(events: seq<ClientEvent>, i: nat)
    requires i < |events|
    requires forall j, k :: 0 <= j < k < |events| ==> events[j].event.id != events[k].event.id
    ensures var selected := CalendarEvents(Some(events))[i].resource;
      var r := Optimistic(events, selected.event.id);
      && selected == events[i]
      && r[i] == events[i].(isBooked := true, attendeeCount := events[i].attendeeCount + 1)
      && forall j :: 0 <= j < |events| && j != i ==> r[j] == events[j]
  {
    var id := events[i].event.id;
    forall j | 0 <= j < |events| && j != i ensures events[j].event.id != id {
      if j < i {
        assert events[j].event.id != events[i].event.id;
      } else {
        assert events[i].event.id != events[j].event.id;
      }
    }
  }

  /** The page renders the modal without `isBooked` and `isFull`, so its
      footer depends only on the user and on whether a booking is pending:
      a signed-in user sees the Book button even on an event already booked
      or full. */
  function ModalFooter(hasUser: bool, isBooking: bool): (f: EventModal.Footer)
    ensures hasUser ==> f.BookButton? && (f.disabled <==> isBooking)
    ensures !hasUser ==> f == EventModal.LoginPrompt
  {
    EventModal.SelectFooter(hasUser, false, false, isBooking)
  }
}
