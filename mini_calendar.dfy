/** The dashboard's month grid: the weekday the month starts on, its number
    of days, the grid of day cells and whether a day holds a booking. Months
    are numbered from 0, as in JavaScript's `Date`. */
module MiniCalendar {
  import opened Wrappers
  import BookingModel

  /** The year `new Date(year, month, day)` constructs: a year from 0 to 99
      is read as 1900 + year; every other year is taken as it is. */
  function DateYear(year: int): (y: int)
    ensures 0 <= year <= 99 ==> y == 1900 + year
    ensures !(0 <= year <= 99) ==> y == year
  {
    if 0 <= year <= 99 then 1900 + year else year
  }

  predicate IsLeap(year: int) {
    year % 4 == 0 && (year % 100 != 0 || year % 400 == 0)
  }

  /** The length of a month of the proleptic Gregorian calendar. */
  function MonthLength(year: int, month: nat): (n: nat)
    requires month < 12
    ensures 28 <= n <= 31
    ensures month == 1 ==> (n == 29 <==> IsLeap(year))
  {
    if month == 1 then (if IsLeap(year) then 29 else 28)
    else if month == 3 || month == 5 || month == 8 || month == 10 then 30
    else 31
  }

  /** Leap years among the years 0 .. year - 1 of the proleptic Gregorian
      calendar, or minus those among year .. -1 for a negative year. */
  function LeapsBefore(year: int): int {
    (year + 3) / 4 - (year + 99) / 100 + (year + 399) / 400
  }

  /** Days of the year before the first of `month`. */
  function DaysBeforeMonth(year: int, month: nat): nat
    requires month < 12
  {
    if month == 0 then 0 else DaysBeforeMonth(year, month - 1) + MonthLength(year, month - 1)
  }

  /** The day number of the first of the month, counted from 1 January of
      year 0. */
  function DayNumber(year: int, month: nat): int
    requires month < 12
  {
    365 * year + LeapsBefore(year) + DaysBeforeMonth(year, month)
  }

  /** The weekday of the first of a month of the proleptic Gregorian
      calendar: 0 is Sunday; 1 January 1970 was a Thursday. */
  function WeekdayOfFirst(year: int, month: nat): (d: nat)
    requires month < 12
    ensures d < 7
  {
    (DayNumber(year, month) - UnixEpochDay + 4) % 7
  }

  /** The day number of 1 January 1970. */
  const UnixEpochDay: int := 719528

  lemma UnixEpochDayIsJanuary1970()
    ensures DayNumber(1970, 0) == UnixEpochDay
  {
  }

  lemma ModSevenShift(a: int, n: int)
    ensures (a + n) % 7 == (a % 7 + n) % 7
  {
    var q := a / 7;
    assert a == 7 * q + a % 7;
    assert a + n == 7 * q + (a % 7 + n);
  }

  /** A month starts as many weekdays after the previous one as that one had
      days, within a year ... */
  lemma NextMonthWeekday(year: int, month: nat)
    requires month < 11
    ensures WeekdayOfFirst(year, month + 1) == (WeekdayOfFirst(year, month) + MonthLength(year, month)) % 7
  {
    DayNumberStep(year, month);
    ModSevenShift(DayNumber(year, month) - UnixEpochDay + 4, MonthLength(year, month));
  }

  lemma DayNumberStep(year: int, month: nat)
    requires month < 11
    ensures DayNumber(year, month + 1) == DayNumber(year, month) + MonthLength(year, month)
  {
    assert DaysBeforeMonth(year, month + 1) == DaysBeforeMonth(year, month) + MonthLength(year, month);
  }

  /** ... and across a year's end. */
  lemma NextYearWeekday(year: int)
    ensures WeekdayOfFirst(year + 1, 0) == (WeekdayOfFirst(year, 11) + MonthLength(year, 11)) % 7
  {
    LeapStep(year);
    var a := DayNumber(year, 11) - UnixEpochDay + 4;
    assert DaysBeforeMonth(year, 11) == 334 + (if IsLeap(year) then 1 else 0) by {
      var i := 0;
      while i < 11
        invariant 0 <= i <= 11
        invariant DaysBeforeMonth(year, i) == CumulativeDays(i) + (if i >= 2 && IsLeap(year) then 1 else 0)
      {
        i := i + 1;
      }
    }
    assert DayNumber(year + 1, 0) == DayNumber(year, 11) + 31;
    ModSevenShift(a, 31);
  }

  function CumulativeDays(month: nat): nat
    requires month < 12
  {
    [0, 31, 59, 90, 120, 151, 181, 212, 243, 273, 304, 334][month]
  }

  /** One more year counts one more leap year exactly when it is a leap year. */
  lemma LeapStep(year: int)
    ensures LeapsBefore(year + 1) == LeapsBefore(year) + (if IsLeap(year) then 1 else 0)
  {
    assert (year + 4) / 4 == (year + 3) / 4 + (if year % 4 == 0 then 1 else 0);
    assert (year + 100) / 100 == (year + 99) / 100 + (if year % 100 == 0 then 1 else 0);
    assert (year + 400) / 400 == (year + 399) / 400 + (if year % 400 == 0 then 1 else 0);
  }

  /** `new Date(year, month, 1).getDay()`. */
  function FirstWeekday(year: int, month: nat): (d: nat)
    requires month < 12
    ensures d < 7
    ensures !(0 <= year <= 99) ==> d == WeekdayOfFirst(year, month)
    ensures 0 <= year <= 99 ==> d == WeekdayOfFirst(1900 + year, month)
  {
    WeekdayOfFirst(DateYear(year), month)
  }

  /** `new Date(year, month + 1, 0).getDate()`: the last day of the month of
      the year `new Date` constructs. */
  function DaysInMonth(year: int, month: nat): (n: nat)
    requires month < 12
    ensures 28 <= n <= 31
    ensures month == 1 ==> (n == 29 <==> IsLeap(DateYear(year)))
    ensures !(0 <= year <= 99) ==> n == MonthLength(year, month)
    ensures 0 <= year <= 99 ==> n == MonthLength(1900 + year, month)
  {
    MonthLength(DateYear(year), month)
  }

  /** A two-digit year is shown with the months of the 1900s: February of
      year 0 has 28 days (1900 is not a leap year), and January of year 99
      starts on the weekday of January 1999. */
  lemma TwoDigitYearsAreNineteenHundreds()
    ensures DaysInMonth(0, 1) == 28 && MonthLength(0, 1) == 29
    ensures FirstWeekday(99, 0) == WeekdayOfFirst(1999, 0)
  {
  }

  /** A month of the calendar: the state's `getFullYear()` and `getMonth()`. */
  datatype YearMonth = YearMonth(year: int, month: nat)

  /** `goToPreviousMonth`: `new Date(year, month - 1, 1)`. */
  function PreviousMonth(year: int, month: nat): (r: YearMonth)
    requires month < 12
    ensures r.month < 12
    ensures month > 0 ==> r == YearMonth(DateYear(year), month - 1)
    ensures month == 0 ==> r == YearMonth(DateYear(year) - 1, 11)
  {
    if month == 0 then YearMonth(DateYear(year) - 1, 11) else YearMonth(DateYear(year), month - 1)
  }

  /** `goToNextMonth`: `new Date(year, month + 1, 1)`. */
  function NextMonth(year: int, month: nat): (r: YearMonth)
    requires month < 12
    ensures r.month < 12
    ensures month < 11 ==> r == YearMonth(DateYear(year), month + 1)
    ensures month == 11 ==> r == YearMonth(DateYear(year) + 1, 0)
  {
    if month == 11 then YearMonth(DateYear(year) + 1, 0) else YearMonth(DateYear(year), month + 1)
  }

  /** Away from the two-digit years, going back a month and forward again
      (or forward and back) returns to the month shown. */
  lemma NavigationRoundTrip(year: int, month: nat)
    requires month < 12
    requires year > 100 || year < -1
    ensures var p := PreviousMonth(year, month); NextMonth(p.year, p.month) == YearMonth(year, month)
    ensures var n := NextMonth(year, month); PreviousMonth(n.year, n.month) == YearMonth(year, month)
  {
  }

  /** Going back from January 100 shows December 99, and going forward from
      there shows January 2000. */
  lemma BackFromYear100SkipsAhead()
    ensures PreviousMonth(100, 0) == YearMonth(99, 11)
    ensures NextMonth(99, 11) == YearMonth(2000, 0)
  {
  }

  /** The grid: `firstDay` empty cells, then the days 1 .. daysInMonth. */
  function DaysGrid(firstDay: nat, daysInMonth: nat): seq<Option<nat>> {
    seq(firstDay + daysInMonth, i => if i < firstDay then None else Some(i - firstDay + 1))
  }

  /** The two loops that fill `days`. */
  method BuildDays(firstDay: nat, daysInMonth: nat) returns (days: seq<Option<nat>>)
    ensures days == DaysGrid(firstDay, daysInMonth)
  {
    days := [];
    var i := 0;
    while i < firstDay
      invariant i <= firstDay
      invariant days == seq(i, _ => None)
    {
      days := days + [None];
      i := i + 1;
    }
    var d := 1;
    while d <= daysInMonth
      invariant 1 <= d <= daysInMonth + 1
      invariant |days| == firstDay + d - 1
      invariant forall k :: 0 <= k < |days| ==> days[k] == DaysGrid(firstDay, daysInMonth)[k]
    {
      days := days + [Some(d)];
      d := d + 1;
    }
  }

  /** The grid has one cell per leading blank and per day; the blanks come
      first, and the days follow from 1 in increasing order. */
  lemma DaysGridLayout(firstDay: nat, daysInMonth: nat)
    ensures var g := DaysGrid(firstDay, daysInMonth);
      && |g| == firstDay + daysInMonth
      && (forall i :: 0 <= i < firstDay ==> g[i].None?)
      && (forall i :: firstDay <= i < |g| ==> g[i] == Some(i - firstDay + 1))
      && (forall i, j :: firstDay <= i < j < |g| ==> g[i].value < g[j].value)
  {
  }

  /** A calendar date in the browser's time zone. */
  datatype CalendarDate = CalendarDate(year: int, month: nat, day: nat)

  /** `hasBooking(day)`: some booking's event falls on the date
      `new Date(year, month, day)` of the shown month; `dayOf` is the time
      zone's reading of a timestamp (`toDateString`). No bookings or an empty cell is never marked. */
  function HasBooking(bookings: Option<seq<BookingModel.BookingView>>, day: Option<nat>,
                      year: int, month: nat, dayOf: int -> CalendarDate): (r: bool)
    ensures bookings.None? || day.None? ==> !r
  {
    if bookings.None? || day.None? || day.value == 0 then false
    else exists i :: 0 <= i < |bookings.value| && dayOf(bookings.value[i].event.date) == CalendarDate(DateYear(year), month, day.value)
  }

  /** In a grid of `firstDay` blanks and `daysInMonth` days, the cell of a
      day is marked exactly when a booking's event falls on that day, and the
      blank cells never are. */
  lemma MarkedCells(bookings: seq<BookingModel.BookingView>, year: int, month: nat, dayOf: int -> CalendarDate,
                    firstDay: nat, daysInMonth: nat, i: nat)
    requires i < firstDay + daysInMonth
    ensures var g := DaysGrid(firstDay, daysInMonth);
      && (i < firstDay ==> !HasBooking(Some(bookings), g[i], year, month, dayOf))
      && (i >= firstDay ==>
            (HasBooking(Some(bookings), g[i], year, month, dayOf) <==>
               exists b :: b in bookings && dayOf(b.event.date) == CalendarDate(DateYear(year), month, i - firstDay + 1)))
  {
    var g := DaysGrid(firstDay, daysInMonth);
    if i >= firstDay {
      var d := i - firstDay + 1;
      assert g[i] == Some(d);
      if exists b :: b in bookings && dayOf(b.event.date) == CalendarDate(DateYear(year), month, d) {
        var b :| b in bookings && dayOf(b.event.date) == CalendarDate(DateYear(year), month, d);
        var k :| 0 <= k < |bookings| && bookings[k] == b;
      }
    }
  }

  /** 1 October 2026 is a Thursday, and October has 31 days. */
  lemma October2026()
    ensures FirstWeekday(2026, 9) == 4 && DaysInMonth(2026, 9) == 31
  {
  }
}
