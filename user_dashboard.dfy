/** The user dashboard: the upcoming/past tab applied to the caller's
    bookings, and the three booking statistics. `bookings` is None until the
    query has data. */
module UserDashboard {
  import opened Wrappers
  import opened Db
  import Seqs
  import BookingModel

  /** The tab's test on one booking: strictly after `now` on the "upcoming"
      tab, strictly before it on any other; the server's upcoming/past test. */
  function TabKeeps(tab: string, now: int): BookingModel.BookingView -> bool {
    BookingModel.KeptView(tab == "upcoming", now)
  }

  /** `filteredBookings`. */
  function FilteredBookings(bookings: Option<seq<BookingModel.BookingView>>, tab: string, now: int)
    : (r: seq<BookingModel.BookingView>)
    ensures bookings.None? ==> r == []
    ensures bookings.Some? ==> forall v :: v in r <==>
      v in bookings.value && (if tab == "upcoming" then v.event.date > now else v.event.date < now)
  {
    if bookings.None? then [] else Seqs.Filter(bookings.value, TabKeeps(tab, now))
  }

  /** The tab keeps the bookings in the order the server sent them. */
  lemma FilteredIsSubsequence(bookings: seq<BookingModel.BookingView>, tab: string, now: int)
    ensures Seqs.IsSubsequence(FilteredBookings(Some(bookings), tab, now), bookings)
  {
    Seqs.FilterIsSubsequence(bookings, TabKeeps(tab, now));
  }

  /** Filtering the full listing on the client gives what the server lists
      itself for the corresponding `upcoming` flag. */
  lemma TabAgreesWithServer(events: seq<EventRow>, bookings: seq<BookingRow>, userId: nat,
                            status: string, tab: string, now: int)
    requires BookingsReferenceEvents(events, bookings)
    requires BookingModel.FindByUser(events, bookings, userId, status, None, now).Success?
    ensures FilteredBookings(Some(BookingModel.FindByUser(events, bookings, userId, status, None, now).value), tab, now)
      == BookingModel.FindByUser(events, bookings, userId, status, Some(tab == "upcoming"), now).value
  {
  }

  /** "Total Bookings". */
  function TotalCount(bookings: Option<seq<BookingModel.BookingView>>): (n: nat)
    ensures bookings.None? ==> n == 0
    ensures bookings.Some? ==> n == |bookings.value|
  {
    if bookings.None? then 0 else |bookings.value|
  }

  /** "Upcoming" and "Past". */
  function UpcomingCount(bookings: Option<seq<BookingModel.BookingView>>, now: int): (n: nat)
    ensures n == |FilteredBookings(bookings, "upcoming", now)|
  {
    if bookings.None? then 0 else |Seqs.Filter(bookings.value, BookingModel.KeptView(true, now))|
  }

  function PastCount(bookings: Option<seq<BookingModel.BookingView>>, now: int): (n: nat)
    ensures n == |FilteredBookings(bookings, "past", now)|
  {
    if bookings.None? then 0 else |Seqs.Filter(bookings.value, BookingModel.KeptView(false, now))|
  }

  /** No booking is both upcoming and past, the two counts never exceed the
      total, and they fall short of it when an event is exactly at `now`. */
  lemma StatisticsPartition(bookings: Option<seq<BookingModel.BookingView>>, now: int)
    ensures forall v :: !(v in FilteredBookings(bookings, "upcoming", now) && v in FilteredBookings(bookings, "past", now))
    ensures UpcomingCount(bookings, now) + PastCount(bookings, now) <= TotalCount(bookings)
    ensures bookings.Some? && (exists i :: 0 <= i < |bookings.value| && bookings.value[i].event.date == now) ==>
      UpcomingCount(bookings, now) + PastCount(bookings, now) < TotalCount(bookings)
  {
    if bookings.Some? {
      Seqs.FilterDisjointLength(bookings.value, BookingModel.KeptView(true, now), BookingModel.KeptView(false, now));
    }
  }
}
