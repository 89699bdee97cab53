/** The venue HTTP handlers: path id parsing, the list query's binding and
    defaults, the PUT checks, and the status each outcome is answered with
    (venue-service/internal/transport/venue_transport.go). JSON decoding
    failures and the "HH:MM" time parser are parameters. */
module VenueHttp {
  import opened Wrappers
  import Strings
  import opened Http
  import opened Venues
  import VenueStore
  import VenueService
  import Seqs

  /** Why a request is answered 400. */
  datatype RequestError =
    | MalformedId
    | ZeroId
      /** gin could not bind the body or the query, or a binding tag failed. */
    | Unbindable(cause: string)
    | PageOutOfRange
    | LimitOutOfRange
    | InvalidVenueType(venueType: string)
    | MissingVenueType
    | MissingOwner
    | NegativePrice
    | MissingDistrict
    | MissingTime
    | BadTime(cause: string)

  datatype Fault = Request(reason: RequestError) | Service(cause: VenueService.ServiceError)

  /** The reply for a service error: 404 for a missing venue, 500 otherwise. */
  function ServiceReply<T>(e: VenueService.ServiceError): (r: Reply<T, Fault>)
    ensures r.Error? && r.error == Service(e)
    ensures r.status == StatusNotFound <==> e == VenueService.VenueNotFound
    ensures r.status != StatusNotFound ==> r.status == StatusInternalServerError
  {
    if e == VenueService.VenueNotFound then Error(StatusNotFound, Service(e))
    else Error(StatusInternalServerError, Service(e))
  }

  // ---------------------------------------------------------------------
  // Path id
  // ---------------------------------------------------------------------

  /** parseID: a decimal uint64, and not 0. */
  function ParseID(raw: string): (r: Result<nat, RequestError>)
    ensures r.Ok? <==> |raw| > 0 && Strings.AllDigits(raw) && 0 < Strings.DecimalValue(raw) < Strings.Pow2(64)
    ensures r.Ok? ==> r.value == Strings.DecimalValue(raw)
    ensures r.Err? ==> (r.error == ZeroId <==> Strings.ParseUint(raw, 64) == Some(0))
    ensures r.Err? ==> r.error == ZeroId || r.error == MalformedId
  {
    match Strings.ParseUint(raw, 64)
    case None => Err(MalformedId)
    case Some(n) => if n == 0 then Err(ZeroId) else Ok(n)
  }

  /** The decimal text of every id in range parses back to it; "0" and
      anything beyond uint64 are refused. */
  lemma ParseIDDecimal(n: nat)
    ensures ParseID(Strings.Decimal(n)) ==
      if n == 0 then Err(ZeroId) else if n < Strings.Pow2(64) then Ok(n) else Err(MalformedId)
  {
    Strings.ParseUintDecimal(n, 64);
  }

  // ---------------------------------------------------------------------
  // GET /venues
  // ---------------------------------------------------------------------

  /** GetVenuesQuery as gin binds it: absent numbers are 0, an absent
      `is_active` is None. */
  datatype ListQuery = ListQuery(
    district: string, venueType: string, hourPrice: int, isActive: Option<bool>,
    ownerId: nat, page: int, limit: int)

  const DefaultPage: int := 1
  const DefaultLimit: int := 10
  const MaxLimit: int := 100

  /** The query's binding tags (an absent page or limit is not checked),
      then the defaults, then the venue type. `decodeErr` is a query value
      gin cannot convert to its field's type. */
  function ListFilter(q: ListQuery, decodeErr: Option<string>): (r: Result<VenueStore.VenueFilter, RequestError>)
    ensures r.Ok? <==>
      decodeErr.None? && q.page >= 0 && 0 <= q.limit <= MaxLimit
      && (q.venueType == "" || IsValidVenueType(q.venueType))
    ensures decodeErr.Some? ==> r == Err(Unbindable(decodeErr.value))
    ensures decodeErr.None? && q.page < 0 ==> r == Err(PageOutOfRange)
    ensures decodeErr.None? && q.page >= 0 && !(0 <= q.limit <= MaxLimit) ==> r == Err(LimitOutOfRange)
    ensures decodeErr.None? && q.page >= 0 && 0 <= q.limit <= MaxLimit && q.venueType != "" && !IsValidVenueType(q.venueType) ==>
      r == Err(InvalidVenueType(q.venueType))
    // The page and limit the repository sees are always positive, the limit at most 100.
    ensures r.Ok? ==> r.value.page >= 1 && 1 <= r.value.limit <= MaxLimit
    ensures r.Ok? ==>
      && r.value.page == (if q.page == 0 then DefaultPage else q.page)
      && r.value.limit == (if q.limit == 0 then DefaultLimit else q.limit)
    ensures r.Ok? ==>
      r.value == VenueStore.VenueFilter(q.district, q.venueType, q.hourPrice, q.isActive, q.ownerId, r.value.page, r.value.limit)
  {
    if decodeErr.Some? then Err(Unbindable(decodeErr.value))
    else if q.page < 0 then Err(PageOutOfRange)
    else if q.limit < 0 || q.limit > MaxLimit then Err(LimitOutOfRange)
    else
      var page := if q.page == 0 then DefaultPage else q.page;
      var limit := if q.limit == 0 then DefaultLimit else q.limit;
      if q.venueType != "" && !IsValidVenueType(q.venueType) then Err(InvalidVenueType(q.venueType))
      else Ok(VenueStore.VenueFilter(q.district, q.venueType, q.hourPrice, q.isActive, q.ownerId, page, limit))
  }

  /** GetList. The service hands the repository's answer through. */
  function GetList(t: VenueStore.Table, q: ListQuery, decodeErr: Option<string>, readErr: Option<string>): (r: Reply<seq<Venue>, Fault>)
    requires VenueStore.TableWellFormed(t)
    ensures r.status == StatusBadRequest <==> ListFilter(q, decodeErr).Err?
    ensures r.status == StatusInternalServerError <==> ListFilter(q, decodeErr).Ok? && readErr.Some?
    ensures r.status == StatusOK <==> r.Json?
    ensures r.status in {StatusOK, StatusBadRequest, StatusInternalServerError}
    // A listing is never longer than 100, is newest first, and holds only
    // live venues that match the query.
    ensures r.Json? ==> |r.value| <= MaxLimit && VenueStore.IdsDescending(r.value)
    ensures r.Json? ==> forall v :: v in r.value ==>
      v in t && !v.deleted && VenueStore.Matches(v, ListFilter(q, decodeErr).value)
    // The answer is the requested page of the newest-first selection.
    ensures r.Json? ==>
      var f := ListFilter(q, decodeErr).value;
      r.value == Seqs.Window(VenueStore.Ordered(t, f), VenueStore.Offset(f), f.limit)
  {
    match ListFilter(q, decodeErr)
    case Err(e) => Error(StatusBadRequest, Request(e))
    case Ok(f) =>
      match VenueStore.GetList(t, f, readErr)
      case Err(e) => Error(StatusInternalServerError, Service(VenueService.Store(e)))
      case Ok(vs) => Json(StatusOK, vs)
  }

  /** A query without page and limit answers the ten newest matching
      venues. */
  lemma DefaultListIsFirstTen(t: VenueStore.Table, q: ListQuery)
    requires VenueStore.TableWellFormed(t)
    requires q.page == 0 && q.limit == 0 && (q.venueType == "" || IsValidVenueType(q.venueType))
    ensures
      var f := VenueStore.VenueFilter(q.district, q.venueType, q.hourPrice, q.isActive, q.ownerId, 1, 10);
      GetList(t, q, None, None) == Json(StatusOK, Seqs.Window(VenueStore.Ordered(t, f), 0, 10))
  {
  }

  // ---------------------------------------------------------------------
  // Single venue: GET, POST, PUT, DELETE
  // ---------------------------------------------------------------------

  /** GetByID. */
  function GetByID(t: VenueStore.Table, rawId: string, readErr: Option<string>): (r: Reply<Venue, Fault>)
    requires VenueStore.TableWellFormed(t)
    ensures ParseID(rawId).Err? ==> r == Error(StatusBadRequest, Request(ParseID(rawId).error))
    ensures r.status == StatusNotFound <==> ParseID(rawId).Ok? && readErr.None? && !VenueStore.Live(t, ParseID(rawId).value)
    ensures r.status == StatusOK <==> ParseID(rawId).Ok? && readErr.None? && VenueStore.Live(t, ParseID(rawId).value)
    ensures r.status in {StatusOK, StatusBadRequest, StatusNotFound, StatusInternalServerError}
    ensures r.status == StatusOK ==> r.Json? && r.value.id == ParseID(rawId).value && !r.value.deleted
    // The answer is the stored row itself.
    ensures r.status == StatusOK ==> 1 <= ParseID(rawId).value <= |t| && r.value == t[ParseID(rawId).value - 1]
  {
    match ParseID(rawId)
    case Err(e) => Error(StatusBadRequest, Request(e))
    case Ok(id) =>
      match VenueService.GetByID(t, id, readErr)
      case Err(e) => ServiceReply(e)
      case Ok(v) => Json(StatusOK, v)
  }

  /** VenueDTO as a request body; the opening hours are "HH:MM" text. */
  datatype VenueBody = VenueBody(
    id: nat, venueType: string, ownerId: nat, isActive: bool, hourPrice: int,
    district: string, startTime: string, endTime: string, weekdays: Weekdays)

  /** FromVenueDTO. `parseTime` is the time-of-day parser it calls, which
      is not part of this model; start is parsed before end. */
  function FromBody(b: VenueBody, parseTime: string -> Result<TimeOfDay, string>): (r: Result<Venue, RequestError>)
    ensures r.Ok? <==> parseTime(b.startTime).Ok? && parseTime(b.endTime).Ok?
    ensures parseTime(b.startTime).Err? ==> r == Err(BadTime(parseTime(b.startTime).error))
    ensures parseTime(b.startTime).Ok? && parseTime(b.endTime).Err? ==> r == Err(BadTime(parseTime(b.endTime).error))
    // The venue carries the body's fields unchanged, its id included.
    ensures r.Ok? ==> r.value.id == b.id && !r.value.deleted
    ensures r.Ok? ==>
      && r.value.venueType == b.venueType && r.value.ownerId == b.ownerId
      && r.value.isActive == b.isActive && r.value.hourPrice == b.hourPrice
      && r.value.district == b.district && r.value.weekdays == b.weekdays
      && r.value.startTime == parseTime(b.startTime).value && r.value.endTime == parseTime(b.endTime).value
  {
    match parseTime(b.startTime)
    case Err(e) => Err(BadTime(e))
    case Ok(start) =>
      match parseTime(b.endTime)
      case Err(e) => Err(BadTime(e))
      case Ok(end) =>
        Ok(Venue(b.id, b.venueType, b.ownerId, b.isActive, b.hourPrice, b.district, start, end, b.weekdays, false))
  }

  /** Create: binding, the venue type, the conversion, then the insert. A
      venue the creation hook or the price constraint refuses is answered
      500, not 400. */
  function Create(
    t: VenueStore.Table, decodeErr: Option<string>, b: VenueBody,
    parseTime: string -> Result<TimeOfDay, string>, writeErr: Option<string>): (r: (Reply<Venue, Fault>, VenueStore.Table))
    requires VenueStore.TableWellFormed(t)
    ensures r.0.status == StatusBadRequest <==>
      decodeErr.Some? || !IsValidVenueType(b.venueType) || FromBody(b, parseTime).Err?
    ensures r.0.status == StatusCreated <==>
      decodeErr.None? && IsValidVenueType(b.venueType) && FromBody(b, parseTime).Ok?
      && VenueValid(FromBody(b, parseTime).value) && VenueStore.PriceAllowed(FromBody(b, parseTime).value)
      && !VenueStore.IdTaken(t, b.id) && writeErr.None?
    ensures r.0.status in {StatusCreated, StatusBadRequest, StatusInternalServerError}
    ensures r.0.status != StatusCreated ==> r.1 == t
    // A created venue gets the next id and is appended to the table, with
    // the column defaults applied; the answer shows the stored row.
    ensures r.0.status == StatusCreated ==>
      && r.0.Json? && r.1 == t + [r.0.value]
      && r.0.value == VenueStore.WithDefaults(FromBody(b, parseTime).value).(id := |t| + 1, deleted := false)
    ensures VenueStore.TableWellFormed(r.1)
  {
    if decodeErr.Some? then (Error(StatusBadRequest, Request(Unbindable(decodeErr.value))), t)
    else if !IsValidVenueType(b.venueType) then (Error(StatusBadRequest, Request(InvalidVenueType(b.venueType))), t)
    else
      match FromBody(b, parseTime)
      case Err(e) => (Error(StatusBadRequest, Request(e)), t)
      case Ok(v) =>
        var (res, after) := VenueStore.Create(t, v, writeErr);
        match res
        case Err(e) => (Error(StatusInternalServerError, Service(VenueService.Store(e))), after)
        case Ok(stored) => (Json(StatusCreated, stored), after)
  }

  /** A body naming the id of a row already in the table, deleted or not,
      collides on the primary key and is answered 500. */
  lemma CreateWithTakenIdIsServerError(
    t: VenueStore.Table, b: VenueBody, parseTime: string -> Result<TimeOfDay, string>)
    requires VenueStore.TableWellFormed(t) && 1 <= b.id <= |t|
    requires IsValidVenueType(b.venueType) && FromBody(b, parseTime).Ok?
    requires VenueValid(FromBody(b, parseTime).value) && b.hourPrice >= 0
    ensures Create(t, None, b, parseTime, None) ==
      (Error(StatusInternalServerError, Service(VenueService.Store(VenueStore.Database(VenueStore.DuplicateKey)))), t)
  {
  }

  /** A venue submitted inactive is answered, and stored, as active. */
  lemma CreateAnswersActive(
    t: VenueStore.Table, b: VenueBody, parseTime: string -> Result<TimeOfDay, string>)
    requires VenueStore.TableWellFormed(t)
    requires Create(t, None, b, parseTime, None).0.status == StatusCreated
    ensures Create(t, None, b, parseTime, None).0.value.isActive
    ensures Create(t, None, b, parseTime, None).1[|t|].isActive
  {
  }

  /** A well-typed venue whose Monday is enabled without hours is refused by
      the creation hook, and the client is told 500. */
  lemma CreateBadScheduleIsServerError(
    t: VenueStore.Table, b: VenueBody, parseTime: string -> Result<TimeOfDay, string>)
    requires VenueStore.TableWellFormed(t)
    requires IsValidVenueType(b.venueType) && parseTime(b.startTime).Ok? && parseTime(b.endTime).Ok?
    requires b.weekdays.monday == DaySchedule(true, None, None)
    ensures Create(t, None, b, parseTime, None) ==
      (Error(StatusInternalServerError, Service(VenueService.Store(VenueStore.HookRejected(MissingHours(Monday))))), t)
  {
    var v := FromBody(b, parseTime).value;
    assert !DayWellFormed(Day(v.weekdays, Monday));
    assert CheckDay(Monday, Day(v.weekdays, Monday)) == Some(MissingHours(Monday));
  }

  /** The PUT checks after binding, in order: type present, type valid,
      owner present, price not negative, district present. */
  function CheckPut(b: VenueBody): (e: Option<RequestError>)
    ensures e.None? <==> IsValidVenueType(b.venueType) && b.ownerId != 0 && b.hourPrice >= 0 && b.district != ""
    ensures b.venueType == "" ==> e == Some(MissingVenueType)
    ensures b.venueType != "" && !IsValidVenueType(b.venueType) ==> e == Some(InvalidVenueType(b.venueType))
    ensures IsValidVenueType(b.venueType) && b.ownerId == 0 ==> e == Some(MissingOwner)
    ensures IsValidVenueType(b.venueType) && b.ownerId != 0 && b.hourPrice < 0 ==> e == Some(NegativePrice)
    ensures IsValidVenueType(b.venueType) && b.ownerId != 0 && b.hourPrice >= 0 && b.district == "" ==>
      e == Some(MissingDistrict)
  {
    if b.venueType == "" then Some(MissingVenueType)
    else if !IsValidVenueType(b.venueType) then Some(InvalidVenueType(b.venueType))
    else if b.ownerId == 0 then Some(MissingOwner)
    else if b.hourPrice < 0 then Some(NegativePrice)
    else if b.district == "" then Some(MissingDistrict)
    else None
  }

  /** A free venue passes the PUT checks: price 0 is allowed. */
  lemma FreeVenueAccepted(b: VenueBody)
    requires IsValidVenueType(b.venueType) && b.ownerId != 0 && b.district != ""
    ensures CheckPut(b.(hourPrice := 0)).None?
    ensures CheckPut(b.(hourPrice := -1)) == Some(NegativePrice)
  {
  }

  /** Why a PUT is refused before the service is called, if it is. */
  function PutRefusal(rawId: string, decodeErr: Option<string>, b: VenueBody,
                      parseTime: string -> Result<TimeOfDay, string>): (e: Option<RequestError>)
    ensures e.None? <==>
      ParseID(rawId).Ok? && decodeErr.None? && CheckPut(b).None? && FromBody(b, parseTime).Ok?
  {
    if ParseID(rawId).Err? then Some(ParseID(rawId).error)
    else if decodeErr.Some? then Some(Unbindable(decodeErr.value))
    else if CheckPut(b).Some? then CheckPut(b)
    else if FromBody(b, parseTime).Err? then Some(FromBody(b, parseTime).error)
    else None
  }

  /** Update: the request checks, the service update, then a re-read of
      the venue; a failed re-read after a successful update answers 204. */
  function Update(
    t: VenueStore.Table, rawId: string, decodeErr: Option<string>, b: VenueBody,
    parseTime: string -> Result<TimeOfDay, string>, readErr: Option<string>,
    writeErr: Option<string>, rereadErr: Option<string>): (r: (Reply<Venue, Fault>, VenueStore.Table))
    requires VenueStore.TableWellFormed(t)
    ensures r.0.status == StatusBadRequest <==> PutRefusal(rawId, decodeErr, b, parseTime).Some?
    ensures r.0.status == StatusNotFound <==>
      PutRefusal(rawId, decodeErr, b, parseTime).None? && readErr.None? && !VenueStore.Live(t, ParseID(rawId).value)
    ensures r.0.status in {StatusOK, StatusNoContent, StatusBadRequest, StatusNotFound, StatusInternalServerError}
    ensures r.0.status in {StatusBadRequest, StatusNotFound, StatusInternalServerError} ==> r.1 == t
    ensures VenueStore.TableWellFormed(r.1) && |r.1| == |t|
    // The venue was stored whenever the answer is 200 or 204; a 204 means
    // only that the re-read failed.
    ensures r.0.status in {StatusOK, StatusNoContent} ==>
      var v := FromBody(b, parseTime).value;
      var id := ParseID(rawId).value;
      VenueStore.Live(t, id) && r.1 == t[id - 1 := VenueStore.WriteColumns(t[id - 1], v)]
    ensures r.0.status == StatusNoContent ==> rereadErr.Some?
    ensures r.0.status == StatusOK ==> r.0.Json? && r.0.value == r.1[ParseID(rawId).value - 1]
  {
    match PutRefusal(rawId, decodeErr, b, parseTime)
    case Some(e) => (Error(StatusBadRequest, Request(e)), t)
    case None =>
      var id := ParseID(rawId).value;
      var v := FromBody(b, parseTime).value;
      var (err, after) := VenueService.Update(t, id, v, readErr, writeErr);
      if err.Some? then (ServiceReply(err.value), after)
      else
        assert VenueStore.Live(after, id);
        assert after == t[id - 1 := VenueStore.WriteColumns(t[id - 1], v)];
        match VenueService.GetByID(after, id, rereadErr)
        case Err(_) => (Empty(StatusNoContent), after)
        case Ok(stored) => (Json(StatusOK, stored), after)
  }

  /** A PUT that is answered 200 returns the body's fields as stored, under
      the path's id, with the venue's previous opening hours. */
  lemma UpdateAnswersRequestedFields(
    t: VenueStore.Table, rawId: string, b: VenueBody, parseTime: string -> Result<TimeOfDay, string>)
    requires VenueStore.TableWellFormed(t)
    requires Update(t, rawId, None, b, parseTime, None, None, None).0.status == StatusOK
    ensures
      var v := Update(t, rawId, None, b, parseTime, None, None, None).0.value;
      var id := ParseID(rawId).value;
      && v.id == id && v.venueType == b.venueType && v.ownerId == b.ownerId && v.isActive == b.isActive
      && v.hourPrice == b.hourPrice && v.district == b.district && v.weekdays == b.weekdays
      && v.startTime == t[id - 1].startTime && v.endTime == t[id - 1].endTime
  {
  }

  /** Delete. */
  const Deactivated: string := "Площадка деактивирована"

  function Delete(t: VenueStore.Table, rawId: string, readErr: Option<string>, writeErr: Option<string>): (r: (Reply<string, Fault>, VenueStore.Table))
    requires VenueStore.TableWellFormed(t)
    ensures ParseID(rawId).Err? ==> r == (Error(StatusBadRequest, Request(ParseID(rawId).error)), t)
    ensures r.0.status == StatusNotFound <==> ParseID(rawId).Ok? && readErr.None? && !VenueStore.Live(t, ParseID(rawId).value)
    ensures r.0.status == StatusOK <==>
      ParseID(rawId).Ok? && readErr.None? && writeErr.None? && VenueStore.Live(t, ParseID(rawId).value)
    ensures r.0.status in {StatusOK, StatusBadRequest, StatusNotFound, StatusInternalServerError}
    ensures r.0.status != StatusOK ==> r.1 == t
    ensures r.0.status == StatusOK ==> r.0 == Json(StatusOK, Deactivated) && !VenueStore.Live(r.1, ParseID(rawId).value)
  {
    match ParseID(rawId)
    case Err(e) => (Error(StatusBadRequest, Request(e)), t)
    case Ok(id) =>
      var (err, after) := VenueService.Delete(t, id, readErr, writeErr);
      if err.Some? then (ServiceReply(err.value), after) else (Json(StatusOK, Deactivated), after)
  }

  // ---------------------------------------------------------------------
  // Schedule
  // ---------------------------------------------------------------------

  /** ScheduleDTO: the venue-level opening hours. */
  datatype Schedule = Schedule(startTime: TimeOfDay, endTime: TimeOfDay)

  function GetSchedule(t: VenueStore.Table, rawId: string, readErr: Option<string>): (r: Reply<Schedule, Fault>)
    requires VenueStore.TableWellFormed(t)
    ensures ParseID(rawId).Err? ==> r == Error(StatusBadRequest, Request(ParseID(rawId).error))
    ensures r.status == StatusNotFound <==> ParseID(rawId).Ok? && readErr.None? && !VenueStore.Live(t, ParseID(rawId).value)
    ensures r.status == StatusOK <==> ParseID(rawId).Ok? && readErr.None? && VenueStore.Live(t, ParseID(rawId).value)
    ensures r.status == StatusOK ==>
      r.Json? && r.value == Schedule(t[ParseID(rawId).value - 1].startTime, t[ParseID(rawId).value - 1].endTime)
  {
    match ParseID(rawId)
    case Err(e) => Error(StatusBadRequest, Request(e))
    case Ok(id) =>
      match VenueService.GetSchedule(t, id, readErr)
      case Err(e) => ServiceReply(e)
      case Ok(v) => Json(StatusOK, Schedule(v.startTime, v.endTime))
  }

  /** ScheduleUpdateDTO: both times are required. */
  datatype ScheduleBody = ScheduleBody(startTime: string, endTime: string)

  /** UpdateSchedule: id, binding, the two times, the service call, then a
      re-read answered 200, or 204 if the re-read fails. */
  function UpdateSchedule(
    t: VenueStore.Table, rawId: string, decodeErr: Option<string>, b: ScheduleBody,
    parseTime: string -> Result<TimeOfDay, string>, readErr: Option<string>,
    writeErr: Option<string>, rereadErr: Option<string>): (r: (Reply<Schedule, Fault>, VenueStore.Table))
    requires VenueStore.TableWellFormed(t)
    ensures r.0.status == StatusBadRequest <==>
      ParseID(rawId).Err? || decodeErr.Some? || b.startTime == "" || b.endTime == ""
      || parseTime(b.startTime).Err? || parseTime(b.endTime).Err?
    ensures r.0.status in {StatusOK, StatusNoContent, StatusBadRequest, StatusNotFound, StatusInternalServerError}
    // Nothing the request sends reaches the table.
    ensures r.1 == t
    // A successful answer reports the hours the venue had before the request.
    ensures r.0.status == StatusOK ==> ParseID(rawId).Ok? && VenueStore.Live(t, ParseID(rawId).value)
    ensures r.0.status == StatusOK ==>
      r.0.Json? && r.0.value == Schedule(t[ParseID(rawId).value - 1].startTime, t[ParseID(rawId).value - 1].endTime)
  {
    match ParseID(rawId)
    case Err(e) => (Error(StatusBadRequest, Request(e)), t)
    case Ok(id) =>
      if decodeErr.Some? then (Error(StatusBadRequest, Request(Unbindable(decodeErr.value))), t)
      else if b.startTime == "" || b.endTime == "" then (Error(StatusBadRequest, Request(MissingTime)), t)
      else
        match parseTime(b.startTime)
        case Err(e) => (Error(StatusBadRequest, Request(BadTime(e))), t)
        case Ok(start) =>
          match parseTime(b.endTime)
          case Err(e) => (Error(StatusBadRequest, Request(BadTime(e))), t)
          case Ok(end) =>
            var s := VenueService.ScheduleUpdate(start, end);
            VenueService.UpdateScheduleWritesNothing(t, id, s, readErr, writeErr);
            var (err, after) := VenueService.UpdateSchedule(t, id, s, readErr, writeErr);
            if err.Some? then (ServiceReply(err.value), after)
            else
              match VenueService.GetSchedule(after, id, rereadErr)
              case Err(_) => (Empty(StatusNoContent), after)
              case Ok(v) => (Json(StatusOK, Schedule(v.startTime, v.endTime)), after)
  }

  // ---------------------------------------------------------------------
  // Owner listing and the venue type list
  // ---------------------------------------------------------------------

  /** GetByOwnerID: the owner id is parsed like a venue id. */
  function GetByOwnerID(t: VenueStore.Table, rawId: string, readErr: Option<string>): (r: Reply<seq<Venue>, Fault>)
    requires VenueStore.TableWellFormed(t)
    ensures ParseID(rawId).Err? ==> r == Error(StatusBadRequest, Request(ParseID(rawId).error))
    ensures r.status == StatusInternalServerError <==> ParseID(rawId).Ok? && readErr.Some?
    ensures r.status == StatusOK <==> ParseID(rawId).Ok? && readErr.None?
    ensures r.status == StatusOK ==> r.Json? && VenueStore.IdsDescending(r.value)
    ensures r.status == StatusOK ==>
      forall v :: v in r.value <==> v in t && !v.deleted && v.ownerId == ParseID(rawId).value
  {
    match ParseID(rawId)
    case Err(e) => Error(StatusBadRequest, Request(e))
    case Ok(owner) =>
      match VenueStore.GetByOwnerID(t, owner, readErr)
      case Err(e) => Error(StatusInternalServerError, Service(VenueService.Store(e)))
      case Ok(vs) => Json(StatusOK, vs)
  }

  /** GetVenueTypes: the five types, in the order the handler lists them. */
  function VenueTypeValues(): (r: seq<string>)
    ensures |r| == 5
    ensures forall t :: t in r <==> IsValidVenueType(t)
    ensures forall i, j :: 0 <= i < j < |r| ==> r[i] != r[j]
  {
    [VenueFootball, VenueBasketball, VenueTennis, VenueGym, VenueSwimming]
  }
}
