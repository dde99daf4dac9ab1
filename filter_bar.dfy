/** The calendar's filter bar: each handler is an updater from the previous
    filter state to the next one. */
module FilterBar {
  import opened Query
  import opened Wrappers
  import Db
  import EventModel

  /** The category buttons, in display order. */
  const Categories: seq<string> := ["CONFERENCE", "WORKSHOP", "SEMINAR", "NETWORKING", "SOCIAL"]

  /** The buttons offer exactly the values the server accepts. */
  lemma CategoriesAreServerEnum()
    ensures Categories == Db.CategoryNames
    ensures forall c :: c in Categories <==> Db.ParseCategory(c).Some?
  {
  }

  /** The search box. */
  function SetSearch(prev: Filters, value: string): (r: Filters)
    ensures r.search == value
    ensures r.category == prev.category && r.location == prev.location
    ensures r.startDate == prev.startDate && r.endDate == prev.endDate
  {
    prev.(search := value)
  }

  /** The location box. */
  function SetLocation(prev: Filters, value: string): (r: Filters)
    ensures r.location == value
    ensures r.category == prev.category && r.search == prev.search
    ensures r.startDate == prev.startDate && r.endDate == prev.endDate
  {
    prev.(location := value)
  }

  datatype DateField = StartDate | EndDate

  /** `handleDateChange(field, value)` for the two date inputs. */
  function SetDate(prev: Filters, field: DateField, value: string): (r: Filters)
    ensures field == StartDate ==> r.startDate == value && r.endDate == prev.endDate
    ensures field == EndDate ==> r.endDate == value && r.startDate == prev.startDate
    ensures r.category == prev.category && r.location == prev.location && r.search == prev.search
  {
    match field
    case StartDate => prev.(startDate := value)
    case EndDate => prev.(endDate := value)
  }

  /** A category button: pressing the selected one clears it, any other
      becomes the selection. */
  function ToggleCategory(prev: Filters, category: string): (r: Filters)
    ensures prev.category == category ==> r.category == ""
    ensures prev.category != category ==> r.category == category
    ensures r.location == prev.location && r.search == prev.search
    ensures r.startDate == prev.startDate && r.endDate == prev.endDate
  {
    prev.(category := if prev.category == category then "" else category)
  }

  /** Pressing the same button twice restores the state exactly when nothing
      or that category was selected before; from another selection it ends
      with no category. */
  lemma ToggleTwice(prev: Filters, category: string)
    ensures ToggleCategory(ToggleCategory(prev, category), category) == prev
      <==> prev.category == "" || prev.category == category
    ensures prev.category != "" && prev.category != category ==>
      ToggleCategory(ToggleCategory(prev, category), category).category == ""
  {
  }

  /** "Clear All": every field empty, whatever the state was. */
  function ClearFilters(): (r: Filters)
    ensures r.category == "" && r.location == "" && r.startDate == "" && r.endDate == "" && r.search == ""
  {
    NoFilters
  }

  /** After "Clear All" the server lists every stored event, one entry per
      stored row. */
  lemma ClearListsEverything(events: seq<Db.EventRow>, bookings: seq<Db.BookingRow>, toTime: string -> Option<int>)
    ensures var r := EventModel.FindMany(events, bookings, ClearFilters(), toTime);
      && r.Success? && |r.value| == |events|
      && forall e :: e in events ==> exists i :: 0 <= i < |r.value| && r.value[i].event == e
  {
    EventModel.NoFiltersListEverything(events, bookings, toTime);
  }

  /** A state reached from a cleared bar through the buttons and the search
      and location boxes alone is never refused by the server. */
  lemma ButtonsNeverRefused(prev: Filters, category: string, events: seq<Db.EventRow>,
                            bookings: seq<Db.BookingRow>, toTime: string -> Option<int>)
    requires prev.category == "" || prev.category in Categories
    requires prev.startDate == "" && prev.endDate == ""
    requires category in Categories
    ensures EventModel.FindMany(events, bookings, ToggleCategory(prev, category), toTime).Success?
  {
    EventModel.FindManyFailsOnlyOnBadFilter(events, bookings, ToggleCategory(prev, category), toTime);
  }
}
