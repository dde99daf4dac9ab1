/** The `/api/events` routes: the listing and lookup handlers, the
    express-validator chains of create and patch, the create handler (the
    caller becomes the organizer), the patch handler's 400 / 404 / 403 /
    write order with its `event-update` emission, and the capacity report. */
module EventRoutes {
  import opened Wrappers
  import opened Db
  import opened Text
  import opened Http
  import opened Query
  import EventModel
  import BookingModel
  import Realtime

  // ---------------------------------------------------------------------
  // Request bodies and validation
  // ---------------------------------------------------------------------

  /** The `date` field as `isISO8601` sees it: an ISO 8601 string (with the
      instant it denotes) or anything else. */
  datatype DateValue = IsoDate(time: int) | NotIsoDate

  /** The `capacity` field as `isInt` sees it. */
  datatype CapacityValue = IntValue(n: int) | NotAnInt

  /** The JSON body of a create or patch request; None is an absent field.
      `organizerId` is not validated by either chain but is spread into the
      data passed to the model. */
  datatype EventBody = EventBody(
    title: Option<string>, description: Option<string>, date: Option<DateValue>,
    location: Option<string>, category: Option<string>, capacity: Option<CapacityValue>,
    organizerId: Option<nat>)

  const TitleMessage: string := "Title must be at least 3 characters"
  const DescriptionMessage: string := "Description must be at least 10 characters"
  const DateMessage: string := "Valid date is required"
  const LocationMessage: string := "Location must be at least 3 characters"
  const CategoryMessage: string := "Invalid category"
  const CapacityMessage: string := "Capacity must be at least 1"

  /** `body(field)[.optional()].trim().isLength({ min })`, with the length
      measured as `isLength` does. A required field that is absent is read as
      the empty string. */
  function CheckLength(field: string, value: Option<string>, min: nat, optional: bool, msg: string): seq<FieldError> {
    if value.None? && optional then []
    else if ValidatorLength(Trim(if value.None? then "" else value.value)) >= min then []
    else [FieldError(field, msg)]
  }

  function CheckDate(value: Option<DateValue>, optional: bool): seq<FieldError> {
    if value.None? && optional then []
    else if value.Some? && value.value.IsoDate? then []
    else [FieldError("date", DateMessage)]
  }

  function CheckCategory(value: Option<string>, optional: bool): seq<FieldError> {
    if value.None? && optional then []
    else if value.Some? && value.value in CategoryNames then []
    else [FieldError("category", CategoryMessage)]
  }

  function CheckCapacity(value: Option<CapacityValue>, optional: bool): seq<FieldError> {
    if value.None? && optional then []
    else if value.Some? && value.value.IntValue? && value.value.n >= 1 then []
    else [FieldError("capacity", CapacityMessage)]
  }

  /** `validationResult(req).array()`: one entry per failing chain, in the
      order the chains are declared. */
  function Validate(b: EventBody, optional: bool): seq<FieldError> {
    CheckLength("title", b.title, 3, optional, TitleMessage)
    + CheckLength("description", b.description, 10, optional, DescriptionMessage)
    + CheckDate(b.date, optional)
    + CheckLength("location", b.location, 3, optional, LocationMessage)
    + CheckCategory(b.category, optional)
    + CheckCapacity(b.capacity, optional)
  }

  /** The create rules, each on its own field. */
  predicate CreateAccepted(b: EventBody) {
    && b.title.Some? && ValidatorLength(Trim(b.title.value)) >= 3
    && b.description.Some? && ValidatorLength(Trim(b.description.value)) >= 10
    && b.date.Some? && b.date.value.IsoDate?
    && b.location.Some? && ValidatorLength(Trim(b.location.value)) >= 3
    && b.category.Some? && b.category.value in CategoryNames
    && b.capacity.Some? && b.capacity.value.IntValue? && b.capacity.value.n >= 1
  }

  /** The patch rules: the same as for create, on the fields present. */
  predicate PatchAccepted(b: EventBody) {
    && (b.title.Some? ==> ValidatorLength(Trim(b.title.value)) >= 3)
    && (b.description.Some? ==> ValidatorLength(Trim(b.description.value)) >= 10)
    && (b.date.Some? ==> b.date.value.IsoDate?)
    && (b.location.Some? ==> ValidatorLength(Trim(b.location.value)) >= 3)
    && (b.category.Some? ==> b.category.value in CategoryNames)
    && (b.capacity.Some? ==> b.capacity.value.IntValue? && b.capacity.value.n >= 1)
  }

  lemma ValidateCreateIff(b: EventBody)
    ensures Validate(b, false) == [] <==> CreateAccepted(b)
  {
  }

  lemma ValidatePatchIff(b: EventBody)
    ensures Validate(b, true) == [] <==> PatchAccepted(b)
  {
  }

  /** The six chains' outputs, in declaration order. */
  function Parts(b: EventBody, optional: bool): (p: seq<seq<FieldError>>)
    ensures |p| == 6
  {
    [CheckLength("title", b.title, 3, optional, TitleMessage),
     CheckLength("description", b.description, 10, optional, DescriptionMessage),
     CheckDate(b.date, optional),
     CheckLength("location", b.location, 3, optional, LocationMessage),
     CheckCategory(b.category, optional),
     CheckCapacity(b.capacity, optional)]
  }

  lemma InConcat<T>(a: seq<T>, b: seq<T>, c: seq<T>, d: seq<T>, e: seq<T>, f: seq<T>)
    ensures forall x :: x in a + b + c + d + e + f <==> x in a || x in b || x in c || x in d || x in e || x in f
  {
  }

  /** A length chain reports at most its own error. */
  lemma CheckLengthShape(field: string, value: Option<string>, min: nat, optional: bool, msg: string)
    ensures CheckLength(field, value, min, optional, msg) <= [FieldError(field, msg)]
  {
  }

  /** The title error is reported exactly when the title rule fails, whatever the other fields hold. */
  lemma ValidationReportsTitle(b: EventBody, optional: bool)
    ensures FieldError("title", TitleMessage) in Validate(b, optional) <==>
      !(b.title.None? && optional) && ValidatorLength(Trim(if b.title.None? then "" else b.title.value)) < 3
  {
    var parts := Parts(b, optional);
    CheckLengthShape("description", b.description, 10, optional, DescriptionMessage);
    CheckLengthShape("location", b.location, 3, optional, LocationMessage);
    assert Validate(b, optional) == parts[0] + parts[1] + parts[2] + parts[3] + parts[4] + parts[5];
    InConcat(parts[0], parts[1], parts[2], parts[3], parts[4], parts[5]);
  }

  /** The date error is reported exactly when the date rule fails. */
  lemma ValidationReportsDate(b: EventBody, optional: bool)
    ensures FieldError("date", DateMessage) in Validate(b, optional) <==>
      !(b.date.None? && optional) && !(b.date.Some? && b.date.value.IsoDate?)
  {
    var parts := Parts(b, optional);
    assert Validate(b, optional) == parts[0] + parts[1] + parts[2] + parts[3] + parts[4] + parts[5];
    InConcat(parts[0], parts[1], parts[2], parts[3], parts[4], parts[5]);
  }

  /** The capacity error is reported exactly when the capacity rule fails. */
  lemma ValidationReportsCapacity(b: EventBody, optional: bool)
    ensures FieldError("capacity", CapacityMessage) in Validate(b, optional) <==>
      !(b.capacity.None? && optional) && !(b.capacity.Some? && b.capacity.value.IntValue? && b.capacity.value.n >= 1)
  {
    var parts := Parts(b, optional);
    assert Validate(b, optional) == parts[0] + parts[1] + parts[2] + parts[3] + parts[4] + parts[5];
    InConcat(parts[0], parts[1], parts[2], parts[3], parts[4], parts[5]);
  }

  /** The sanitized create body with the caller as organizer:
      `{ ...req.body, organizerId: req.user.id }`; `trim()` has replaced the
      three text fields by their trimmed values. */
  function ToNewEvent(b: EventBody, callerId: nat): (d: EventModel.NewEvent)
    requires CreateAccepted(b)
    ensures d.organizerId == callerId
    ensures d.title == Trim(b.title.value) && ValidatorLength(d.title) >= 3
    ensures d.description == Trim(b.description.value) && ValidatorLength(d.description) >= 10
    ensures d.location == Trim(b.location.value) && ValidatorLength(d.location) >= 3
    ensures CategoryName(d.category) == b.category.value && d.capacity >= 1
  {
    EventModel.NewEvent(Trim(b.title.value), Trim(b.description.value), b.date.value.time,
                        Trim(b.location.value), ParseCategory(b.category.value).value,
                        b.capacity.value.n, callerId)
  }

  /** The sanitized patch body, passed to `Event.update` as it is: absent
      fields stay absent, and an `organizerId` in the body is written too. */
  function ToPatch(b: EventBody): (p: EventModel.EventPatch)
    requires PatchAccepted(b)
    ensures p.title.Some? <==> b.title.Some?
    ensures p.description.Some? <==> b.description.Some?
    ensures p.date.Some? <==> b.date.Some?
    ensures p.location.Some? <==> b.location.Some?
    ensures p.category.Some? <==> b.category.Some?
    ensures p.capacity.Some? <==> b.capacity.Some?
    ensures b.title.Some? ==> p.title.value == Trim(b.title.value) && ValidatorLength(p.title.value) >= 3
    ensures b.description.Some? ==>
      p.description.value == Trim(b.description.value) && ValidatorLength(p.description.value) >= 10
    ensures b.date.Some? ==> p.date.value == b.date.value.time
    ensures b.location.Some? ==> p.location.value == Trim(b.location.value) && ValidatorLength(p.location.value) >= 3
    ensures b.category.Some? ==> CategoryName(p.category.value) == b.category.value
    ensures b.capacity.Some? ==> p.capacity.value == b.capacity.value.n && p.capacity.value >= 1
    ensures p.organizerId == b.organizerId
  {
    EventModel.EventPatch(
      if b.title.Some? then Some(Trim(b.title.value)) else None,
      if b.description.Some? then Some(Trim(b.description.value)) else None,
      if b.date.Some? then Some(b.date.value.time) else None,
      if b.location.Some? then Some(Trim(b.location.value)) else None,
      if b.category.Some? then ParseCategory(b.category.value) else None,
      if b.capacity.Some? then Some(b.capacity.value.n) else None,
      b.organizerId)
  }

  /** What an accepted PATCH does to a row: the id stays, every field the
      body leaves out keeps its value, and every field it sends takes the
      sanitized value (trimmed text, the parsed date, category and capacity). */
  lemma PatchChangesOnlySentFields(e: EventRow, b: EventBody)
    requires PatchAccepted(b)
    ensures var r := EventModel.ApplyPatch(e, ToPatch(b));
      && r.id == e.id
      && (b.title.None? ==> r.title == e.title)
      && (b.title.Some? ==> r.title == Trim(b.title.value))
      && (b.description.None? ==> r.description == e.description)
      && (b.description.Some? ==> r.description == Trim(b.description.value))
      && (b.date.None? ==> r.date == e.date)
      && (b.date.Some? ==> r.date == b.date.value.time)
      && (b.location.None? ==> r.location == e.location)
      && (b.location.Some? ==> r.location == Trim(b.location.value))
      && (b.category.None? ==> r.category == e.category)
      && (b.category.Some? ==> CategoryName(r.category) == b.category.value)
      && (b.capacity.None? ==> r.capacity == e.capacity)
      && (b.capacity.Some? ==> r.capacity == b.capacity.value.n)
      && (b.organizerId.None? ==> r.organizerId == e.organizerId)
      && (b.organizerId.Some? ==> r.organizerId == b.organizerId.value)
  {
  }

  /** validator.js does not count a presentation selector, so a title of two
      letters and U+FE0F is refused although it is three characters long. */
  lemma SelectorTitleRefused(b: EventBody)
    requires b.title == Some("ab\U{FE0F}")
    ensures FieldError("title", TitleMessage) in Validate(b, false)
    ensures FieldError("title", TitleMessage) in Validate(b, true)
  {
    assert Trim("ab\U{FE0F}") == "ab\U{FE0F}";
    LengthMeasures();
    ValidationReportsTitle(b, false);
    ValidationReportsTitle(b, true);
  }

  // ---------------------------------------------------------------------
  // Read handlers
  // ---------------------------------------------------------------------

  /** `GET /api/events`: the model's listing, or 500 when the query is refused. */
  function ListEvents(events: seq<EventRow>, bookings: seq<BookingRow>, f: Filters,
                      toTime: string -> Option<int>): (r: Response<seq<EventView>>)
    ensures r.status == 200 || r == Response(500, Message("Server error while fetching events"))
    ensures r.status == 200 <==> EventModel.FindMany(events, bookings, f, toTime).Success?
    ensures r.status == 200 ==> r.body == Json(EventModel.FindMany(events, bookings, f, toTime).value)
  {
    match EventModel.FindMany(events, bookings, f, toTime)
    case Failure(_) => Response(500, Message("Server error while fetching events"))
    case Success(list) => Response(200, Json(list))
  }

  /** `GET /api/events/:id`: 404 exactly when the event is absent. */
  function GetEvent(events: seq<EventRow>, bookings: seq<BookingRow>, id: nat): (r: Response<EventView>)
    ensures r.status == 404 <==> FindEventRow(events, id).None?
    ensures r.status == 404 ==> r.body == Message("Event not found")
    ensures r.status != 404 ==>
      && r.status == 200 && r.body.Json?
      && Some(r.body.value.event) == FindEventRow(events, id)
      && r.body.value.attendeeCount == BookingModel.CountByEvent(bookings, id)
  {
    match EventModel.FindById(events, bookings, id)
    case None => Response(404, Message("Event not found"))
    case Some(v) => Response(200, Json(v))
  }

  /** The body of `GET /api/events/:id/capacity-test`. */
  datatype CapacityReport = CapacityReport(
    eventId: nat, eventTitle: string, eventCapacity: int,
    modelAttendeeCount: nat, directDBCount: nat, matches: bool, isFull: bool)

  /** The capacity report as the handler intends it: the model's count next to
      a direct count of CONFIRMED rows. The two always agree, and `isFull`
      holds exactly when the confirmed count has reached the capacity. */
  function CapacityTest(events: seq<EventRow>, bookings: seq<BookingRow>, id: nat): (r: Response<CapacityReport>)
    ensures r.status == 404 <==> FindEventRow(events, id).None?
    ensures r.status != 404 ==>
      && r.status == 200 && r.body.Json?
      && r.body.value.matches
      && (r.body.value.isFull <==> BookingModel.CountByEvent(bookings, id) >= FindEventRow(events, id).value.capacity)
  {
    match EventModel.FindById(events, bookings, id)
    case None => Response(404, Message("Event not found"))
    case Some(v) =>
      var direct := BookingModel.CountByEvent(bookings, id);
      Response(200, Json(CapacityReport(v.event.id, v.event.title, v.event.capacity, v.attendeeCount, direct,
                                        v.attendeeCount == direct, v.attendeeCount >= v.event.capacity)))
  }

  // ---------------------------------------------------------------------
  // POST /api/events
  // ---------------------------------------------------------------------

  /** `POST /api/events`: 400 with the validation errors, or 201 with the
      created event, whose organizer is the caller whatever the body says;
      `fault` stands for a failure of the insert (500). */
  method PostEvent(db: Store, callerId: nat, body: EventBody, fault: bool) returns (resp: Response<EventView>)
    requires db.Valid()
    modifies db
    ensures db.Valid()
    ensures db.bookings == old(db.bookings) && db.nextBookingId == old(db.nextBookingId)
    ensures !CreateAccepted(body) ==>
      resp == Response(400, ValidationErrors(Validate(body, false))) && db.events == old(db.events)
    ensures CreateAccepted(body) && fault ==>
      resp == Response(500, Message("Server error while creating event")) && db.events == old(db.events)
    ensures CreateAccepted(body) && !fault ==>
      && var d := ToNewEvent(body, callerId);
      && var e := EventRow(old(db.nextEventId), d.title, d.description, d.date, d.location, d.category,
                           d.capacity, callerId);
      && resp == Response(201, Json(EventView(e, 0)))
      && db.events == old(db.events) + [e]
  {
    var errors := Validate(body, false);
    ValidateCreateIff(body);
    if errors != [] {
      return Response(400, ValidationErrors(errors));
    }
    if fault {
      return Response(500, Message("Server error while creating event"));
    }
    var v := EventModel.Create(db, ToNewEvent(body, callerId));
    resp := Response(201, Json(v));
  }

  // ---------------------------------------------------------------------
  // PATCH /api/events/:id
  // ---------------------------------------------------------------------

  datatype PatchDecision =
    | Reject(response: Response<EventView>)
    | Write(patch: EventModel.EventPatch)

  /** The patch handler's checks, in their order: validation (400), the event
      lookup (404), the organizer check (403); only then the write. */
  function DecidePatch(events: seq<EventRow>, bookings: seq<BookingRow>, id: nat, callerId: nat,
                       body: EventBody): PatchDecision
  {
    var errors := Validate(body, true);
    if errors != [] then Reject(Response(400, ValidationErrors(errors)))
    else
      ValidatePatchIff(body);
      match EventModel.FindById(events, bookings, id)
      case None => Reject(Response(404, Message("Event not found")))
      case Some(v) =>
        if v.event.organizerId != callerId then Reject(Response(403, Message("Not authorized to update this event")))
        else Write(ToPatch(body))
  }

  /** An invalid body is refused before the event is even looked up, a
      missing event before the organizer is checked, and only the organizer
      of an existing event reaches the write. */
  lemma PatchDecisionOrder(events: seq<EventRow>, bookings: seq<BookingRow>, id: nat, callerId: nat, body: EventBody)
    ensures var d := DecidePatch(events, bookings, id, callerId, body);
      && (!PatchAccepted(body) ==> d.Reject? && d.response.status == 400)
      && (PatchAccepted(body) && FindEventRow(events, id).None? ==> d.Reject? && d.response.status == 404)
      && ((PatchAccepted(body) && FindEventRow(events, id).Some? && FindEventRow(events, id).value.organizerId != callerId)
            ==> d.Reject? && d.response.status == 403)
      && (d.Write? <==> PatchAccepted(body) && FindEventRow(events, id).Some?
                        && FindEventRow(events, id).value.organizerId == callerId)
  {
    ValidatePatchIff(body);
  }

  /** A patch may set any capacity of at least 1, below the number of
      confirmed bookings included: here an event with two confirmed bookings
      gets capacity 1. */
  lemma PatchCanUnderCutAttendees()
    ensures var e := EventRow(1, "Meetup", "Monthly developer meetup", 0, "Kigali", Networking, 5, 9);
      var bs := [BookingRow(1, 1, 20, Confirmed, 0), BookingRow(2, 1, 21, Confirmed, 0)];
      var body := EventBody(None, None, None, None, None, Some(IntValue(1)), None);
      && DecidePatch([e], bs, 1, 9, body).Write?
      && var updated := EventModel.ApplyPatch(e, DecidePatch([e], bs, 1, 9, body).patch);
      && updated.capacity < BookingModel.CountByEvent(bs, 1)
  {
    var bs := [BookingRow(1, 1, 20, Confirmed, 0), BookingRow(2, 1, 21, Confirmed, 0)];
    assert bs[1..][1..] == [];
  }

  /** `PATCH /api/events/:id`. A rejected request changes nothing and emits
      nothing; a written one replaces the stored row by the patched row and
      emits `event-update` with it; `fault` stands for a failure of the
      update itself (500, nothing emitted). */
  method PatchEvent(db: Store, io: Realtime.Io, id: nat, callerId: nat, body: EventBody, fault: bool)
    returns (resp: Response<EventView>)
    requires db.Valid()
    modifies db, io
    ensures db.Valid()
    ensures db.bookings == old(db.bookings) && db.nextBookingId == old(db.nextBookingId)
    ensures db.nextEventId == old(db.nextEventId)
    ensures match DecidePatch(old(db.events), old(db.bookings), id, callerId, body)
      case Reject(r) => resp == r && db.events == old(db.events) && io.emitted == old(io.emitted)
      case Write(p) =>
        if fault then
          resp == Response(500, Message("Server error while updating event"))
          && db.events == old(db.events) && io.emitted == old(io.emitted)
        else
          exists k :: 0 <= k < |old(db.events)| && old(db.events)[k].id == id
            && db.events == old(db.events)[k := EventModel.ApplyPatch(old(db.events)[k], p)]
            && var v := EventView(db.events[k], BookingModel.CountByEvent(db.bookings, id));
            && resp == Response(200, Json(v))
            && io.emitted == old(io.emitted) + [Realtime.Emission(Realtime.EventUpdate, Realtime.EventPayload(v))]
  {
    var errors := Validate(body, true);
    ValidatePatchIff(body);
    if errors != [] {
      return Response(400, ValidationErrors(errors));
    }
    var event := EventModel.FindById(db.events, db.bookings, id);
    if event.None? {
      return Response(404, Message("Event not found"));
    }
    if event.value.event.organizerId != callerId {
      return Response(403, Message("Not authorized to update this event"));
    }
    if fault {
      return Response(500, Message("Server error while updating event"));
    }
    var updated := EventModel.Update(db, id, ToPatch(body));
    io.Emit(Realtime.EventUpdate, Realtime.EventPayload(updated.value));
    resp := Response(200, Json(updated.value));
  }
}
