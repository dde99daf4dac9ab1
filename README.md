# Eventbooking in Dafny

A model of the rules of the Eventbooking application, with proofs about it. The backend is Express and Prisma; the frontend is React.

**Server.**
- The booking admission handler checks the event, the (event, user) key and the confirmed count against the capacity, in that order. It then inserts the booking and emits `booking-update`.
- The per-user booking listing.
- The event listing with its filters.
- Lookup, create and update of events, each returning a derived `attendeeCount`.
- The express-validator chains of event create and patch.
- The patch handler's 400 / 404 / 403 / write order.
- The capacity report.
- The error middleware, the unmatched-route fallback, and the Socket.IO relay names.

**Client.**
- The calendar's optimistic booking on the react-query cache: snapshot, transform, rollback, invalidate.
- The calendar entries.
- The filter-bar updaters.
- The event modal's badges and footer.
- The dashboard's upcoming/past tabs and statistics.
- The mini-calendar grid.
- The registration form's password strength and submit guard.

**How the model is built.**
- The database is an in-memory store. It is the class `Db.Store`: the Event and Booking tables as sequences plus their autoincrement counters. Its invariant `Db.Consistent` holds what the schema enforces: unique ids, the unique (eventId, userId) key, and the event foreign key.
- `io.emit` is the append-only log of `Realtime.Io`.
- The react-query client is the class `EventCalendar.QueryCache`, which holds a map from query keys to data.
- Each handler that changes state is a method. It is proved against a pure function of the old state: for example, `BookingRoutes.PostBooking` against `BookingRoutes.Admit`. The properties are then lemmas about that function.
- Timestamps are integers in milliseconds.
- The current time, the result of `new Date(string)`, the local-date reading of a timestamp, the schema's default booking status and storage faults are all parameters.

## Model

| member | source | states |
|---|---|---|
| Text.TrimSpec | backend/src/routes/events.js:129-132 | the `trim()` sanitizer leaves no leading or trailing whitespace; the result occurs in the input at some position, and every character before and after that slice is whitespace; the result is non-empty when the input had a non-space |
| Text.TrimIdempotent | backend/src/routes/events.js:129-132 | trimming twice is trimming once |
| Text.TrimStartCutsSpaces | backend/src/routes/events.js:129-132 | every character the leading trim removes is whitespace |
| Text.TrimEndCutsSpaces | backend/src/routes/events.js:129-132 | every character the trailing trim removes is whitespace |
| Text.Utf16Length | frontend/src/components/Auth/Register.js:21-23 | JavaScript's `length` is the character count plus one per character outside the Basic Multilingual Plane, so between the character count and twice it |
| Text.ValidatorLength | backend/src/routes/events.js:129-132 | `isLength`'s measure (`length` less surrogate pairs and U+FE0E/U+FE0F) is the character count less the presentation selectors, never more than the character count |
| Text.LengthMeasures | backend/src/routes/events.js:129-132 | the measures agree on "abc"; an emoji is 2 for `length` and 1 for `isLength`; "ab" followed by U+FE0F is 3 and 2 |
| Seqs.Filter | frontend/src/components/Dashboard/UserDashboard.js:27-30 | `filter` keeps exactly the elements that pass, never more than the input and each at most as often |
| Seqs.FilterIsSubsequence | frontend/src/components/Dashboard/UserDashboard.js:27 | the filtered list is an order-preserving subsequence |
| Seqs.FilterDisjointLength | frontend/src/components/Dashboard/UserDashboard.js:84-90 | two filters that never both hold keep at most the input's length together, and fewer when an element passes neither |
| Seqs.FilterSorted | backend/src/models/Booking.js:67-79 | filtering a sorted list keeps it sorted |
| Seqs.SortBy | backend/src/models/Event.js:47-49 | `orderBy` asc yields a sorted permutation of the rows |
| Db.ParseCategory | backend/src/routes/events.js:133 | a category string is accepted exactly when it is one of the five enum names, and it names the value it parses to |
| Db.ParseStatus | backend/src/models/Booking.js:50 | a status string is an enum value exactly when it is one of PENDING, CONFIRMED, CANCELLED |
| Db.FindEventRow | backend/src/models/Event.js:60-62 | the lookup by id returns a stored row with that id, and nothing exactly when no row has it |
| Db.FindEventRowIsKeyed | backend/src/models/Event.js:60-62 | under unique ids the lookup returns the row with that id |
| Realtime.Io.Emit | backend/src/routes/bookings.js:87 | an emission is appended to what was sent before |
| BookingModel.FindByEventAndUser | backend/src/models/Booking.js:33-42 | the composite-key lookup returns a row of that pair, whatever its status, and nothing exactly when no row has the pair |
| BookingModel.FindByEventAndUserIsKeyed | backend/src/models/Booking.js:33-42 | under the unique key, the lookup returns the one row of the pair |
| BookingModel.CountByEventAppend | backend/src/models/Booking.js:85-92 | appending a row raises the confirmed count of an event by one exactly when the row is a CONFIRMED booking of it |
| BookingModel.Create | backend/src/models/Booking.js:6-30 | the insert fails exactly on a fault, a missing event (P2003) or an existing pair (P2002), and then changes nothing; otherwise it appends one row with the next id, the given status and `now`, and keeps the store consistent |
| BookingModel.SelectRows | backend/src/models/Booking.js:48-70 | the query returns exactly the caller's rows of the requested status, each as often as it is stored, newest `bookingDate` first |
| BookingModel.FindByUserListsEachOnce | backend/src/models/Booking.js:48-79 | no booking is listed twice: under unique booking ids, no two entries share an id |
| BookingModel.FindByUserRepeatsNothing | backend/src/models/Booking.js:48-79 | a listing drawn from rows without repeats has no repeated entry, also after the date filter |
| BookingModel.Join | backend/src/models/Booking.js:54-66 | each booking is joined with its own event |
| BookingModel.FindByUserFailsOnlyOnBadStatus | backend/src/models/Booking.js:50-52 | the listing is refused exactly for a status that is not an enum name |
| BookingModel.FindByUserSound | backend/src/models/Booking.js:48-50 | every listed booking is the caller's, has the requested status and its own event; with `upcoming` set it passes the strict after/before test, so an event exactly at now is never listed |
| BookingModel.FindByUserComplete | backend/src/models/Booking.js:73-81 | every booking of the caller with the status and, if asked, the right side of now is listed |
| BookingModel.FindByUserNewestFirst | backend/src/models/Booking.js:67-79 | the listing is in descending `bookingDate` order, also after the date filter |
| BookingModel.UpcomingFlag | backend/src/models/Booking.js:73-77 | the documented reading of `upcoming`: absent means no date filter, "true" means upcoming, anything else past |
| EventModel.AttendeeCountIsCountByEvent | backend/src/models/Event.js:52-56 | the `attendeeCount` attached to an event equals the number of its CONFIRMED bookings |
| EventModel.NoBookingsNoAttendees | backend/src/models/Event.js:120-124 | an event no booking refers to has no attendee |
| EventModel.FindById | backend/src/models/Event.js:60-95 | null exactly for an absent id; otherwise the stored row with its confirmed count |
| EventModel.CountAttendeesAgreesWithFindById | backend/src/models/Event.js:158-166 | `countAttendees(id)` equals `findById(id).attendeeCount` |
| EventModel.MatchesWhereIffPassesFilters | backend/src/models/Event.js:9-26 | the built `where` keeps an event exactly when the category is equal, the location contains the filter case-insensitively, the date lies in the inclusive range, and the search term occurs in the title, description or location; unset filters impose nothing |
| EventModel.FindManyFailsOnlyOnBadFilter | backend/src/models/Event.js:11-18 | the listing is refused exactly for a non-enum category or an invalid date bound |
| EventModel.FindManySound | backend/src/models/Event.js:28-56 | every listed event is stored, passes the filters and carries its confirmed count, and the list is ascending by date |
| EventModel.FindManyComplete | backend/src/models/Event.js:28-50 | every stored event that passes the filters is listed |
| EventModel.FindManyListsEachOnce | backend/src/models/Event.js:28-50 | no event is listed twice: under unique event ids, no two entries share an id |
| EventModel.NoFiltersListEverything | backend/src/models/Event.js:6-26 | with no filter set the listing succeeds, has one entry per stored row, and every stored event appears in it |
| EventModel.Create | backend/src/models/Event.js:98-125 | inserts the row with the next id and returns it with `attendeeCount` 0; bookings are untouched and the store stays consistent |
| EventModel.ApplyPatch | backend/src/models/Event.js:128-131 | the id stays; every field absent from the data keeps its stored value and every field present takes the given value |
| EventModel.ApplyPatchIdempotent | backend/src/models/Event.js:128-131 | applying a patch twice is applying it once, and an empty patch changes nothing |
| EventModel.IndexOf | backend/src/models/Event.js:129-130 | finds the position of the row with the id, exactly when one exists |
| EventModel.Update | backend/src/models/Event.js:128-156 | an absent id is P2025 with no change; otherwise exactly that row is replaced by the patched row (same id) and returned with its confirmed count |
| EventRoutes.ValidateCreateIff | backend/src/routes/events.js:127-140 | the create chains report no error exactly when the trimmed title is at least 3 long, the trimmed description at least 10 and the trimmed location at least 3 (lengths as `isLength` counts them), the date is ISO 8601, the category is an enum name and the capacity an integer ≥ 1 |
| EventRoutes.ValidatePatchIff | backend/src/routes/events.js:207-220 | the patch chains apply the same rules to the fields present only |
| EventRoutes.ValidationReportsTitle | backend/src/routes/events.js:129 | the title error is reported exactly when the title rule fails, whatever the other fields |
| EventRoutes.ValidationReportsDate | backend/src/routes/events.js:131 | the date error is reported exactly when the date rule fails |
| EventRoutes.ValidationReportsCapacity | backend/src/routes/events.js:134 | the capacity error is reported exactly when the capacity rule fails |
| EventRoutes.SelectorTitleRefused | backend/src/routes/events.js:129 | a title of two letters and U+FE0F is refused on create and on patch, since `isLength` does not count the selector |
| EventRoutes.CheckLengthShape | backend/src/routes/events.js:129-132 | a length chain reports at most its own error |
| EventRoutes.ToNewEvent | backend/src/routes/events.js:142-145 | the created data holds the trimmed text fields, and the caller is the organizer whatever the body says |
| EventRoutes.ToPatch | backend/src/routes/events.js:209-214 | each of the six fields is in the patch exactly when it is in the body; text fields are trimmed and meet their minimum length, the date is the ISO instant, the category parses to the given name, the capacity is the given integer ≥ 1, and the body's `organizerId` is passed through |
| EventRoutes.PatchChangesOnlySentFields | backend/src/routes/events.js:207-233 | an accepted PATCH keeps the id and every field not sent, and sets every field sent to its sanitized value |
| EventRoutes.ListEvents | backend/src/routes/events.js:53-61 | 200 with the model's listing, or 500 exactly when the query is refused |
| EventRoutes.GetEvent | backend/src/routes/events.js:86-99 | 404 exactly when the event is absent; otherwise 200 with the row and its confirmed count |
| EventRoutes.CapacityTest | backend/src/routes/events.js:263-288 | 404 exactly for an absent event; otherwise `matches` always holds and `isFull` holds exactly when the confirmed count has reached the capacity |
| EventRoutes.PostEvent | backend/src/routes/events.js:136-151 | 400 with the errors and no change; 500 on a fault; otherwise 201 with the new row, owned by the caller, appended to the table |
| EventRoutes.PatchDecisionOrder | backend/src/routes/events.js:216-231 | 400 before 404 before 403; only the organizer of an existing event with a valid body reaches the write |
| EventRoutes.PatchCanUnderCutAttendees | backend/src/routes/events.js:214-233 | a patch may set the capacity below the current confirmed count |
| EventRoutes.PatchEvent | backend/src/routes/events.js:215-243 | a refused request changes nothing and emits nothing; a written one replaces exactly the event's row, answers 200 with it and emits `event-update` with it; a fault answers 500 with no change |
| BookingRoutes.PostBooking | backend/src/routes/bookings.js:53-94 | the handler's response, new Booking table, counter and emissions are those of `Admit` on the old store; events are untouched |
| BookingRoutes.AdmitSucceedsExactly | backend/src/routes/bookings.js:58-89 | 201 exactly when the event exists, the pair has no row, the confirmed count is below capacity and the insert succeeds; then exactly one row of the pair is appended and the only emission is `booking-update` with it |
| BookingRoutes.AdmitFailureChangesNothing | backend/src/routes/bookings.js:58-93 | every refusal leaves the Booking table and counter unchanged; something is emitted exactly on success |
| BookingRoutes.AdmitMissingEvent | backend/src/routes/bookings.js:58-61 | an absent event is 404 "Event not found" with no change and no emission |
| BookingRoutes.AdmitRefusesExistingKey | backend/src/routes/bookings.js:64-71 | an existing row of the pair, of any status, is 400 "already booked" even on a full event |
| BookingRoutes.CancelledBookingBlocksRebooking | backend/src/routes/bookings.js:64-71 | a CANCELLED booking still blocks booking the same event again |
| BookingRoutes.AdmitRefusesFullEvent | backend/src/routes/bookings.js:74-78 | a new caller on an event whose count has reached capacity is 400 with `count/capacity` in the message and no change |
| BookingRoutes.AdmitKeepsCapacity | backend/src/routes/bookings.js:74-84 | if no event had more confirmed bookings than its capacity before an admission, none has after, for any initial status |
| BookingRoutes.AdmitKeepsKeysUnique | backend/src/routes/bookings.js:64-84 | an admission keeps the (eventId, userId) key unique |
| BookingRoutes.AdmitInTurnFillsFreePlaces | backend/src/routes/bookings.js:53-89 | distinct new callers asking one after another for CONFIRMED places get exactly min(callers, free places) admissions |
| BookingRoutes.GetBookings | backend/src/routes/bookings.js:142-150 | with the corrected reading of `upcoming` (see Findings): 200 whose body is exactly the caller's listing from `BookingModel.FindByUser`, or 500 with the listing fault message exactly for a non-enum status |
| BookingRoutes.GetBookingsSplitsByDate | backend/src/models/Booking.js:73-79 | with `upcoming=false` only the caller's bookings of past events are listed, with `upcoming=true` only those of future events |
| BookingRoutes.UpcomingFalseAsWrittenListsFutureEvent | backend/src/models/Booking.js:73-77 | as written, `upcoming=false` lists a booking of a future event |
| App.PrismaCode | backend/src/app.js:91-101 | a unique violation carries P2002 and a missing record P2025 |
| App.HandleError | backend/src/app.js:87-107 | P2002 is 409, P2025 is 404, anything else 500; the error detail is present exactly for a 500 in development, and is the error's message |
| App.StoreErrorsMapToStatus | backend/src/app.js:91-106 | a duplicate key maps to the 409 reply, a missing record to the 404 reply, any other store error to 500 "Something went wrong!" |
| App.RouteNotFound | backend/src/app.js:110-115 | an unmatched route is 404 "Route not found" carrying the original URL |
| App.Relay | backend/src/app.js:73-79 | `event-updated` and `booking-created` are relayed, and nothing else; recipients are every connection but the sender |
| App.RelayUsesServerTopics | backend/src/app.js:73-79 | relayed messages go out as `event-update` and `booking-update`, the topics the handlers emit, and reach every other connected socket |
| FilterBar.CategoriesAreServerEnum | frontend/src/components/Calendar/FilterBar.js:6-8 | the category buttons are exactly the server's enum values |
| FilterBar.SetSearch | frontend/src/components/Calendar/FilterBar.js:13-15 | the search update changes only `search` |
| FilterBar.SetLocation | frontend/src/components/Calendar/FilterBar.js:89 | the location update changes only `location` |
| FilterBar.SetDate | frontend/src/components/Calendar/FilterBar.js:24-26 | a date update changes only its own field |
| FilterBar.ToggleCategory | frontend/src/components/Calendar/FilterBar.js:17-22 | pressing the selected category clears it, any other becomes the selection, nothing else changes |
| FilterBar.ToggleTwice | frontend/src/components/Calendar/FilterBar.js:17-22 | pressing a button twice restores the state exactly when nothing or that category was selected |
| FilterBar.ClearFilters | frontend/src/components/Calendar/FilterBar.js:28-36 | "Clear All" yields all five fields empty |
| FilterBar.ClearListsEverything | frontend/src/components/Calendar/FilterBar.js:28-36 | after "Clear All" the listing succeeds, has one entry per stored row, and every stored event appears in it |
| FilterBar.ButtonsNeverRefused | frontend/src/components/Calendar/FilterBar.js:17-22 | a category chosen with the buttons is never refused by the server |
| EventModal.SelectBadges | frontend/src/components/Calendar/EventModal.js:60-71 | "Already Booked" exactly when booked; "Event Full" exactly when full and not booked |
| EventModal.SelectFooter | frontend/src/components/Calendar/EventModal.js:140-173 | no user: login prompt; booked: disabled "Already Booked", before full; full: disabled "Event Full"; otherwise the Book button, disabled exactly while booking |
| EventModal.FooterAgreesWithBadges | frontend/src/components/Calendar/EventModal.js:60-154 | for a signed-in user the footer agrees with the badges |
| Register.PasswordStrength | frontend/src/components/Auth/Register.js:20-25 | '' for the empty password, then by UTF-16 `length`: weak for 1-5, medium for 6-7, strong from 8 |
| Register.StrengthMonotone | frontend/src/components/Auth/Register.js:20-25 | a password with a greater `length` is never rated weaker |
| Register.EmojiPasswordIsMedium | frontend/src/components/Auth/Register.js:20-25 | three emoji make six code units, a medium password |
| Register.HandleSubmit | frontend/src/components/Auth/Register.js:30-49 | on a mismatch only the error is set and `register` is not called; otherwise the error is cleared and loading set before one call with the form's values, then success navigates to "/" and failure shows the returned message, loading off |
| Register.SubmitDisabled | frontend/src/components/Auth/Register.js:161 | disabled exactly while loading or when the passwords differ |
| Register.EnabledSubmitRegisters | frontend/src/components/Auth/Register.js:30-49 | a submit the button allows always calls `register` once with the form's values |
| UserDashboard.FilteredBookings | frontend/src/components/Dashboard/UserDashboard.js:23-31 | empty without data; the "upcoming" tab keeps exactly the bookings after now, any other tab those before now |
| UserDashboard.FilteredIsSubsequence | frontend/src/components/Dashboard/UserDashboard.js:27 | the tab keeps the server's order |
| UserDashboard.TabAgreesWithServer | frontend/src/components/Dashboard/UserDashboard.js:27-30 | filtering the full listing on the client gives the server's own `upcoming` listing |
| UserDashboard.TotalCount | frontend/src/components/Dashboard/UserDashboard.js:79 | the total is the number of bookings, 0 without data |
| UserDashboard.UpcomingCount | frontend/src/components/Dashboard/UserDashboard.js:84 | the upcoming statistic is the size of the upcoming tab |
| UserDashboard.PastCount | frontend/src/components/Dashboard/UserDashboard.js:90 | the past statistic is the size of the past tab |
| UserDashboard.StatisticsPartition | frontend/src/components/Dashboard/UserDashboard.js:79-90 | no booking is both upcoming and past; the two counts never exceed the total, and fall short of it when an event is exactly at now |
| MiniCalendar.DateYear | frontend/src/components/Dashboard/MiniCalendar.js:15-16 | `new Date` reads a year from 0 to 99 as 1900 + year and any other year as it is |
| MiniCalendar.MonthLength | frontend/src/components/Dashboard/MiniCalendar.js:16 | a Gregorian month has 28 to 31 days, February 29 exactly in a leap year |
| MiniCalendar.WeekdayOfFirst | frontend/src/components/Dashboard/MiniCalendar.js:15 | the weekday of the first of a Gregorian month is in 0..6 |
| MiniCalendar.DaysInMonth | frontend/src/components/Dashboard/MiniCalendar.js:16 | the length of the month in the year `new Date` builds: the Gregorian length for a year outside 0..99, that of 1900 + year inside it |
| MiniCalendar.FirstWeekday | frontend/src/components/Dashboard/MiniCalendar.js:15 | the weekday of the first of the month in the year `new Date` builds, mapped the same way |
| MiniCalendar.TwoDigitYearsAreNineteenHundreds | frontend/src/components/Dashboard/MiniCalendar.js:15-16 | February of year 0 shows 28 days, not the Gregorian 29, and January 99 starts on the weekday of January 1999 |
| MiniCalendar.PreviousMonth | frontend/src/components/Dashboard/MiniCalendar.js:38-40 | the month before, wrapping January to December of the year before the constructed year |
| MiniCalendar.NextMonth | frontend/src/components/Dashboard/MiniCalendar.js:42-44 | the month after, wrapping December to January of the year after the constructed year |
| MiniCalendar.NavigationRoundTrip | frontend/src/components/Dashboard/MiniCalendar.js:38-44 | for a year above 100 or below -1, back then forward, or forward then back, returns to the month shown |
| MiniCalendar.BackFromYear100SkipsAhead | frontend/src/components/Dashboard/MiniCalendar.js:38-44 | back from January 100 shows December 99, and forward from there shows January 2000 |
| MiniCalendar.NextMonthWeekday | frontend/src/components/Dashboard/MiniCalendar.js:15-16 | a Gregorian month starts as many weekdays after the previous one as that one had days |
| MiniCalendar.NextYearWeekday | frontend/src/components/Dashboard/MiniCalendar.js:15-16 | the same across a year's end |
| MiniCalendar.October2026 | frontend/src/components/Dashboard/MiniCalendar.js:15-16 | 1 October 2026 is a Thursday and October has 31 days |
| MiniCalendar.BuildDays | frontend/src/components/Dashboard/MiniCalendar.js:19-25 | the two loops build exactly the grid of `firstDay` blanks followed by the days 1..daysInMonth |
| MiniCalendar.DaysGridLayout | frontend/src/components/Dashboard/MiniCalendar.js:19-25 | the grid has `firstDay + daysInMonth` cells, the blanks first, then the days from 1 strictly increasing |
| MiniCalendar.HasBooking | frontend/src/components/Dashboard/MiniCalendar.js:28-35 | false without bookings or for a blank cell |
| MiniCalendar.MarkedCells | frontend/src/components/Dashboard/MiniCalendar.js:28-35 | a day's cell is marked exactly when a booking's event falls on that date of the constructed year; blank cells never are |
| EventCalendar.Optimistic | frontend/src/components/Calendar/EventCalendar.js:48-54 | the transform keeps the list's length |
| EventCalendar.OptimisticTouchesOnlyTheBookedEvent | frontend/src/components/Calendar/EventCalendar.js:48-54 | order kept; events of another id unchanged; the booked id gets `isBooked` and one more attendee |
| EventCalendar.OptimisticIgnoresCapacity | frontend/src/components/Calendar/EventCalendar.js:50-52 | the transform counts a booking on a full event too |
| EventCalendar.QueryCache.Get | frontend/src/components/Calendar/EventCalendar.js:45 | `getQueryData` returns the key's entry, nothing when absent |
| EventCalendar.QueryCache.OnMutate | frontend/src/components/Calendar/EventCalendar.js:40-57 | cancels the key's fetches, returns the exact prior entry and writes the transformed list to that key alone; with no list cached nothing is written |
| EventCalendar.QueryCache.OnError | frontend/src/components/Calendar/EventCalendar.js:58-62 | writes the snapshot back to the key alone |
| EventCalendar.QueryCache.OnSettled | frontend/src/components/Calendar/EventCalendar.js:63-67 | marks both the events key and `['bookings']` stale, nothing else |
| EventCalendar.QueryCache.BookEvent | frontend/src/components/Calendar/EventCalendar.js:38-71 | the events key's fetches are cancelled in every case; a refused booking leaves the cached data exactly as before; an accepted one leaves the optimistic list; both invalidate the two keys |
| EventCalendar.CalendarEvents | frontend/src/components/Calendar/EventCalendar.js:73-84 | empty without data, otherwise one entry per event |
| EventCalendar.CalendarEntriesCarryTheirEvent | frontend/src/components/Calendar/EventCalendar.js:76-84 | each entry starts at its event's date, ends 7,200,000 ms later, is not all-day, and carries its event |
| EventCalendar.ModalBookingMarksSelectedEvent | frontend/src/components/Calendar/EventCalendar.js:86-142 | the modal opened on an entry shows that entry's event; with distinct ids, booking from it marks that event booked with one more attendee and leaves every other event unchanged |
| EventCalendar.ModalFooter | frontend/src/components/Calendar/EventCalendar.js:139-145 | the modal gets no `isBooked`/`isFull`: a signed-in user always sees the Book button, disabled exactly while a booking is pending |

## Left out

- Concurrency. The admission handler's lookups and its insert are separate awaits, so two requests can interleave between check and insert. The model applies requests one at a time. A unique violation raised by a concurrent insert is folded into the `fault` parameter, which gives the handler's 500.
- Prisma itself (the client, SQL, the schema). The store is sequences, and the schema's guarantees are the `Db.Consistent` invariant. The initial booking status comes from a schema default that is not shown, so it is the parameter `initialStatus`.
- The `include` selections of related rows: organizer name and email, the user of a booking, the booking ids of an event. Only the joined event of a booking and the confirmed count are modelled.
- EventRoutes.CapacityTest: `prisma` is not imported in the events route file, so the handler as written throws at its direct count and answers 500. The model states the intended report instead.
- Storage faults on reads. The 500 answers of `GET /api/events/:id` and of the listings are modelled only where the query is refused (bad enum or date).
- `parseInt` of arbitrary strings and NaN ids. Ids are natural numbers.
- Types in the request body that pass validation but that Prisma would reject: a capacity given as a numeric string, or unknown extra fields. `EventRoutes.EventBody` carries the validated fields and the unvalidated `organizerId`, which `EventRoutes.ToPatch` passes through. Their 500 is the `fault` of the handlers.
- Date parsing and formatting. This covers `new Date(...)`, `isISO8601`, `toLocale*String` and `toDateString`. They are parameters: `toTime`, the `IsoDate` value, and `dayOf`.
- The dashboard reads the clock once per statistic; the model uses one `now`.
- Case-insensitive matching uses ASCII lower-casing. Unicode case folding is not modelled.
- The Socket.IO transport, connections and delivery. Only the relay names and the recipient set are modelled.
- Authentication (JWT, bcrypt, the auth middleware). The caller's id is a parameter.
- The health route, the server start-up and shutdown, and the Swagger configuration.
- The mini-calendar's "today" button, which reads the clock. The month shown is a parameter; previous and next are `MiniCalendar.PreviousMonth` and `MiniCalendar.NextMonth`.
- React rendering, toasts, animation and the router.
- react-query beyond the two keys used here. This includes prefix matching of `invalidateQueries` and the refetch that follows invalidation.
- EventCalendar.QueryCache.BookEvent: a throwing `onMutate` (no list cached) is modelled as the mutation being abandoned with nothing written or invalidated. The library's own error path after such a throw is not modelled.
- No listener that merges the `event-update` and `booking-update` emissions into the client cache. The client files here contain none, so none is modelled.
- EventCalendar.Optimistic: its own contract states only the length. The per-element effect is stated by `EventCalendar.OptimisticTouchesOnlyTheBookedEvent`.
- MiniCalendar.HasBooking: its own contract states only the unmarked cases. The marked case is stated by `MiniCalendar.MarkedCells`.
- MiniCalendar.MarkedCells: it is stated for any grid origin and length, not only for the month's first weekday and day count.
- BookingRoutes.GetBookings: it uses the corrected reading of `upcoming` (`BookingModel.UpcomingFlag`), so `upcoming=false` lists past bookings. The handler as written lists future ones (backend/src/models/Booking.js:73-77). That behaviour is stated by `BookingRoutes.UpcomingFalseAsWrittenListsFutureEvent`; see Findings.
- Lone surrogates. A Dafny `char` is a Unicode scalar value, so a JavaScript string holding an unpaired surrogate cannot be represented. `Text.Utf16Length` and `Text.ValidatorLength` are exact for every other string.
- The event modal's `handleBook` is not a member of its own. `EventCalendar.ModalBookingMarksSelectedEvent` states what it passes, the selected event's id, together with its effect on the cache.

## Findings

| source | as written | input that shows it | evidently intended | confidence | as-written member | corrected member |
|---|---|---|---|---|---|---|
| backend/src/models/Booking.js:73-77 | `upcoming` is the raw query-string value and is tested for truthiness, so the string "false" selects upcoming events | `GET /api/bookings?upcoming=false` with one booking of an event after now: that booking is listed | the route documents `upcoming` as a boolean: "false" should list past events only | not executed | BookingRoutes.UpcomingFalseAsWrittenListsFutureEvent | BookingRoutes.GetBookingsSplitsByDate |
