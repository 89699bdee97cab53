/** The reservation service's booking lifecycle: create, cancel and partial
    update of a reservation, with the booking events each step hands to the
    event publisher. The booking store, the clock, the event publisher and
    the UUID generator are collaborators: their answers are parameters. */
module Reservations {
  import opened Wrappers

  /** An instant, counted in nanoseconds. `ZeroTime` plays the part of Go's
      zero `time.Time`. */
  type Time = int

  const ZeroTime: Time := 0

  /** The bounds of Go's `time.Duration`, an int64 count of nanoseconds
      (about 292 years either way). */
  const MaxDuration: int := 0x7fff_ffff_ffff_ffff
  const MinDuration: int := -0x8000_0000_0000_0000

  /** `endAt.Sub(startAt)`: the elapsed time, saturated at the bounds of a
      Duration rather than wrapped. */
  function Elapsed(startAt: Time, endAt: Time): (d: int)
    ensures MinDuration <= d <= MaxDuration
    ensures MinDuration <= endAt - startAt <= MaxDuration ==> d == endAt - startAt
    ensures endAt - startAt > MaxDuration ==> d == MaxDuration
    ensures endAt - startAt < MinDuration ==> d == MinDuration
    ensures d > 0 <==> startAt < endAt
  {
    var exact := endAt - startAt;
    if exact > MaxDuration then MaxDuration
    else if exact < MinDuration then MinDuration
    else exact
  }

  // ---------------------------------------------------------------------
  // Status: a free-form string in the source, with four named values
  // ---------------------------------------------------------------------

  datatype Status = Pending | Confirmed | Cancelled | Completed | Other(text: string)

  const KnownStatusTexts: set<string> := {"pending", "confirmed", "cancelled", "completed"}

  /** The text stored in the `status` column. */
  function StatusText(s: Status): string
  {
    match s
    case Pending => "pending"
    case Confirmed => "confirmed"
    case Cancelled => "cancelled"
    case Completed => "completed"
    case Other(t) => t
  }

  /** A status value never spells a named status as `Other`. */
  predicate CanonicalStatus(s: Status)
  {
    s.Other? ==> s.text !in KnownStatusTexts
  }

  /** models.Status(text): the status a text denotes. Every text is a
      status; the four named ones map to their constructors. */
  function ParseStatus(t: string): (s: Status)
    ensures StatusText(s) == t
    ensures CanonicalStatus(s)
  {
    if t == "pending" then Pending
    else if t == "confirmed" then Confirmed
    else if t == "cancelled" then Cancelled
    else if t == "completed" then Completed
    else Other(t)
  }

  /** Go compares statuses as strings: two statuses are the same when their
      texts are. */
  predicate SameStatus(s: Status, named: Status)
  {
    StatusText(s) == StatusText(named)
  }

  /** On canonical statuses the textual comparison is equality; a text that
      spells a named status as `Other` compares equal to that status. */
  lemma SameStatusIsTextual(s: Status, named: Status)
    requires !named.Other?
    ensures CanonicalStatus(s) ==> (SameStatus(s, named) <==> s == named)
    ensures SameStatus(Other(StatusText(named)), named)
  {
  }

  /** Reading back a stored status text gives the same status. */
  lemma ParseStatusText(s: Status)
    requires CanonicalStatus(s)
    ensures ParseStatus(StatusText(s)) == s
  {
  }

  // ---------------------------------------------------------------------
  // Records
  // ---------------------------------------------------------------------

  const RoleClient: string := "Client"
  const RoleAdmin: string := "Admin"

  /** The caller's JWT claims. */
  datatype Claims = Claims(userId: nat, role: string)

  /** dto.ReservationCreate. */
  datatype CreateRequest = CreateRequest(
    venueId: nat, clientId: nat, ownerId: nat,
    startAt: Time, endAt: Time, price: int, status: string)

  /** dto.ReservationUpdate: every field optional (a nil pointer is None). */
  datatype UpdateRequest = UpdateRequest(
    venueId: Option<nat>, clientId: Option<nat>, ownerId: Option<nat>,
    startAt: Option<Time>, endAt: Option<Time>, price: Option<int>)

  /** models.ReservationDetails. */
  datatype Reservation = Reservation(
    id: nat, venueId: nat, clientId: nat, ownerId: nat,
    startAt: Time, endAt: Time, price: int, duration: int,
    reasonForCancel: string, status: Status)

  /** The payload of a `booking.created` message. */
  datatype BookingCreatedEvent = BookingCreatedEvent(
    eventId: string, createdAt: Time, bookingId: nat, venueId: nat,
    clientId: nat, ownerId: nat, startAt: Time, endAt: Time, price: int,
    status: Status)

  /** The payload of a `booking.cancelled` message. */
  datatype BookingCancelledEvent = BookingCancelledEvent(
    eventId: string, createdAt: Time, bookingId: nat, reason: string,
    status: Status)

  datatype BookingError =
    | OwnerIdInvalid
    | ClientIdInvalid
    | StartAtEmpty
    | EndAtEmpty
    | StartNotBeforeEnd
    | StartInPast
    | PriceNotPositive
    | StatusEmpty
    | RoleNotAllowed
    | CannotCancel
    | OnlyPendingUpdatable(current: Status)
      /** An error from the booking store, passed through unchanged. */
    | Repository(cause: string)
      /** The booking was stored but its event could not be published. */
    | PublishFailed(bookingId: nat, cause: string)

  /** Go's `(*ReservationDetails, error)` pair. */
  datatype Answer = Answer(value: Option<Reservation>, err: Option<BookingError>)

  /** The derived duration agrees with the interval. */
  predicate DurationConsistent(r: Reservation)
  {
    r.duration == Elapsed(r.startAt, r.endAt)
  }

  /** The event describes the reservation it announces. */
  predicate AnnouncesCreation(ev: BookingCreatedEvent, r: Reservation)
  {
    && ev.bookingId == r.id && ev.venueId == r.venueId && ev.clientId == r.clientId
    && ev.ownerId == r.ownerId && ev.startAt == r.startAt && ev.endAt == r.endAt
    && ev.price == r.price && ev.status == r.status
  }

  // ---------------------------------------------------------------------
  // CreateReservation
  // ---------------------------------------------------------------------

  /** Roles that may book: Client and Admin. */
  predicate MayBook(role: string)
  {
    role == RoleClient || role == RoleAdmin
  }

  /** Everything CreateReservation demands of a request. */
  predicate CreateAcceptable(req: CreateRequest, claims: Claims, now: Time)
  {
    && req.ownerId > 0
    && req.startAt != ZeroTime && req.endAt != ZeroTime
    && req.startAt < req.endAt
    && !(req.startAt < now)
    && req.price > 0
    && req.status != ""
    && MayBook(claims.role)
  }

  /** The checks of CreateReservation in source order; the first failing
      check decides the error. */
  function ValidateCreate(req: CreateRequest, claims: Claims, now: Time): (e: Option<BookingError>)
    ensures e.None? <==> CreateAcceptable(req, claims, now)
    ensures e == Some(OwnerIdInvalid) <==> req.ownerId == 0
    ensures e == Some(StartAtEmpty) <==> req.ownerId > 0 && req.startAt == ZeroTime
    ensures e == Some(EndAtEmpty) <==>
      req.ownerId > 0 && req.startAt != ZeroTime && req.endAt == ZeroTime
    ensures e == Some(StartNotBeforeEnd) <==>
      req.ownerId > 0 && req.startAt != ZeroTime && req.endAt != ZeroTime
      && req.endAt <= req.startAt
    ensures e == Some(StartInPast) <==>
      req.ownerId > 0 && req.startAt != ZeroTime && req.endAt != ZeroTime
      && req.startAt < req.endAt && req.startAt < now
    ensures e == Some(PriceNotPositive) <==>
      req.ownerId > 0 && req.startAt != ZeroTime && req.endAt != ZeroTime
      && req.startAt < req.endAt && now <= req.startAt && req.price <= 0
    ensures e == Some(StatusEmpty) <==>
      req.ownerId > 0 && req.startAt != ZeroTime && req.endAt != ZeroTime
      && req.startAt < req.endAt && now <= req.startAt && req.price > 0 && req.status == ""
    ensures e == Some(RoleNotAllowed) <==>
      req.ownerId > 0 && req.startAt != ZeroTime && req.endAt != ZeroTime
      && req.startAt < req.endAt && now <= req.startAt && req.price > 0 && req.status != ""
      && !MayBook(claims.role)
  {
    if req.ownerId <= 0 then Some(OwnerIdInvalid)
    else if req.startAt == ZeroTime then Some(StartAtEmpty)
    else if req.endAt == ZeroTime then Some(EndAtEmpty)
    else if !(req.startAt < req.endAt) then Some(StartNotBeforeEnd)
    else if req.startAt < now then Some(StartInPast)
    else if req.price <= 0 then Some(PriceNotPositive)
    else if req.status == "" then Some(StatusEmpty)
    else if !MayBook(claims.role) then Some(RoleNotAllowed)
    else None
  }

  /** What CreateReservation leaves behind: the Go return pair, the row the
      store accepted (if any) and the event handed to the publisher (if any). */
  datatype CreateEffect = CreateEffect(
    answer: Answer, stored: Option<Reservation>, published: Option<BookingCreatedEvent>)

  /** bookingService.CreateReservation. `newId` is the id the store assigns,
      `storeErr` its failure, `publishErr` the publisher's failure. */
  function CreateReservation(
    req: CreateRequest, claims: Claims, now: Time, newId: nat,
    storeErr: Option<string>, eventId: string, publishErr: Option<string>): (e: CreateEffect)
    // Validation failures and store failures leave nothing behind.
    ensures e.stored.Some? <==> ValidateCreate(req, claims, now).None? && storeErr.None?
    ensures ValidateCreate(req, claims, now).Some? ==>
      e.answer == Answer(None, ValidateCreate(req, claims, now))
    ensures ValidateCreate(req, claims, now).None? && storeErr.Some? ==>
      e.answer == Answer(None, Some(Repository(storeErr.value)))
    // No event is published for a reservation that was not stored.
    ensures e.published.Some? <==> e.stored.Some?
    // The stored reservation: the caller's id as client, the requested status.
    ensures e.stored.Some? ==>
      var r := e.stored.value;
      && r.id == newId && r.clientId == claims.userId
      && r.venueId == req.venueId && r.ownerId == req.ownerId
      && r.startAt == req.startAt && r.endAt == req.endAt && r.price == req.price
      && StatusText(r.status) == req.status && r.reasonForCancel == ""
      && DurationConsistent(r) && r.duration > 0
      && AnnouncesCreation(e.published.value, r)
      && e.published.value.eventId == eventId && e.published.value.createdAt == now
    // A publish failure is reported beside the stored reservation.
    ensures e.stored.Some? ==> e.answer.value == e.stored
    ensures e.stored.Some? ==>
      e.answer.err == (if publishErr.None? then None else Some(PublishFailed(newId, publishErr.value)))
  {
    var invalid := ValidateCreate(req, claims, now);
    if invalid.Some? then CreateEffect(Answer(None, invalid), None, None)
    else
      var r := Reservation(newId, req.venueId, claims.userId, req.ownerId,
                           req.startAt, req.endAt, req.price, Elapsed(req.startAt, req.endAt),
                           "", ParseStatus(req.status));
      if storeErr.Some? then CreateEffect(Answer(None, Some(Repository(storeErr.value))), None, None)
      else
        var ev := BookingCreatedEvent(eventId, now, r.id, r.venueId, r.clientId, r.ownerId,
                                      r.startAt, r.endAt, r.price, r.status);
        var err := if publishErr.None? then None else Some(PublishFailed(r.id, publishErr.value));
        CreateEffect(Answer(Some(r), err), Some(r), Some(ev))
  }

  /** A reservation longer than a Duration can hold is still accepted, and
      its duration is stored saturated rather than exact. */
  lemma LongReservationSaturates(
    req: CreateRequest, claims: Claims, now: Time, newId: nat, eventId: string, publishErr: Option<string>)
    requires CreateAcceptable(req, claims, now) && req.endAt - req.startAt > MaxDuration
    ensures var e := CreateReservation(req, claims, now, newId, None, eventId, publishErr);
      && e.stored.Some?
      && e.stored.value.duration == MaxDuration
      && e.stored.value.duration < e.stored.value.endAt - e.stored.value.startAt
  {
  }

  /** The client recorded on a reservation is the caller, whatever client id
      the request carries. */
  lemma CreateIgnoresRequestedClient(
    req: CreateRequest, claims: Claims, now: Time, newId: nat,
    storeErr: Option<string>, eventId: string, publishErr: Option<string>, other: nat)
    ensures CreateReservation(req, claims, now, newId, storeErr, eventId, publishErr)
         == CreateReservation(req.(clientId := other), claims, now, newId, storeErr, eventId, publishErr)
  {
  }

  // ---------------------------------------------------------------------
  // ReservationCancel
  // ---------------------------------------------------------------------

  /** Cancelled and Completed are terminal; every other status text may be
      cancelled. */
  predicate Cancellable(s: Status)
  {
    !SameStatus(s, Cancelled) && !SameStatus(s, Completed)
  }

  datatype CancelEffect = CancelEffect(
    answer: Answer, saved: Option<Reservation>, published: Option<BookingCancelledEvent>)

  /** bookingService.ReservationCancel. `lookup` is the store's answer for
      the id; `saveErr` and `publishErr` are the store's and the publisher's
      failures. */
  function ReservationCancel(
    lookup: Result<Reservation, string>, reason: string, saveErr: Option<string>,
    eventId: string, now: Time, publishErr: Option<string>): (e: CancelEffect)
    ensures lookup.Err? ==>
      e == CancelEffect(Answer(None, Some(Repository(lookup.error))), None, None)
    ensures lookup.Ok? && !Cancellable(lookup.value.status) ==>
      e == CancelEffect(Answer(None, Some(CannotCancel)), None, None)
    ensures lookup.Ok? && Cancellable(lookup.value.status) && saveErr.Some? ==>
      e == CancelEffect(Answer(None, Some(Repository(saveErr.value))), None, None)
    ensures e.saved.Some? <==> lookup.Ok? && Cancellable(lookup.value.status) && saveErr.None?
    // Only status and reason change; the event follows the save.
    ensures e.saved.Some? ==>
      && e.saved.value == lookup.value.(status := Cancelled, reasonForCancel := reason)
      && e.answer == Answer(e.saved, None)
      && e.published == Some(BookingCancelledEvent(eventId, now, lookup.value.id, reason, Cancelled))
    ensures e.published.Some? ==> e.saved.Some?
  {
    if lookup.Err? then CancelEffect(Answer(None, Some(Repository(lookup.error))), None, None)
    else
      var r := lookup.value;
      if !Cancellable(r.status) then CancelEffect(Answer(None, Some(CannotCancel)), None, None)
      else
        var cancelled := r.(status := Cancelled, reasonForCancel := reason);
        if saveErr.Some? then CancelEffect(Answer(None, Some(Repository(saveErr.value))), None, None)
        else
          // A failed publish is only logged.
          CancelEffect(Answer(Some(cancelled), None), Some(cancelled),
                       Some(BookingCancelledEvent(eventId, now, r.id, reason, Cancelled)))
  }

  /** A publish failure never changes what cancellation returns or saves. */
  lemma CancelIgnoresPublishFailure(
    lookup: Result<Reservation, string>, reason: string, saveErr: Option<string>,
    eventId: string, now: Time, p1: Option<string>, p2: Option<string>)
    ensures ReservationCancel(lookup, reason, saveErr, eventId, now, p1)
         == ReservationCancel(lookup, reason, saveErr, eventId, now, p2)
  {
  }

  /** Cancelling the reservation a successful cancellation saved is refused:
      cancellation happens at most once. */
  lemma CancelOnce(
    r: Reservation, reason: string, reason2: string, eventId: string, now: Time,
    publishErr: Option<string>, saveErr2: Option<string>, publishErr2: Option<string>)
    requires Cancellable(r.status)
    ensures
      var first := ReservationCancel(Ok(r), reason, None, eventId, now, publishErr);
      && first.saved.Some?
      && ReservationCancel(Ok(first.saved.value), reason2, saveErr2, eventId, now, publishErr2).answer
         == Answer(None, Some(CannotCancel))
  {
  }

  // ---------------------------------------------------------------------
  // ReservationUpdate
  // ---------------------------------------------------------------------

  /** The interval the reservation would have after the update: each end is
      the supplied value or the existing one. */
  function FinalStart(existing: Reservation, req: UpdateRequest): Time
  {
    req.startAt.GetOr(existing.startAt)
  }

  function FinalEnd(existing: Reservation, req: UpdateRequest): Time
  {
    req.endAt.GetOr(existing.endAt)
  }

  /** Everything ReservationUpdate demands before it writes. */
  predicate UpdateAcceptable(existing: Reservation, req: UpdateRequest, now: Time)
  {
    && (req.clientId.Some? ==> req.clientId.value > 0)
    && (req.ownerId.Some? ==> req.ownerId.value > 0)
    && (req.startAt.Some? ==> req.startAt.value != ZeroTime)
    && (req.endAt.Some? ==> req.endAt.value != ZeroTime)
    && FinalStart(existing, req) < FinalEnd(existing, req)
    && now <= FinalStart(existing, req)
    && (req.price.Some? ==> req.price.value > 0)
    && SameStatus(existing.status, Pending)
  }

  /** The field checks, then the status check, in source order. */
  function ValidateUpdate(existing: Reservation, req: UpdateRequest, now: Time): (e: Option<BookingError>)
    ensures e.None? <==> UpdateAcceptable(existing, req, now)
    ensures e == Some(ClientIdInvalid) <==> req.clientId == Some(0)
    ensures e.Some? && e.value.OnlyPendingUpdatable? ==>
      !SameStatus(existing.status, Pending) && e.value.current == existing.status
    // The status check comes last: it is reported only when every field is fine.
    ensures e.Some? && e.value.OnlyPendingUpdatable? <==>
      !SameStatus(existing.status, Pending) && UpdateAcceptable(existing.(status := Pending), req, now)
    ensures e == Some(StartInPast) ==>
      FinalStart(existing, req) < FinalEnd(existing, req) && FinalStart(existing, req) < now
  {
    var start := FinalStart(existing, req);
    var end := FinalEnd(existing, req);
    if req.clientId.Some? && req.clientId.value <= 0 then Some(ClientIdInvalid)
    else if req.ownerId.Some? && req.ownerId.value <= 0 then Some(OwnerIdInvalid)
    else if req.startAt.Some? && req.startAt.value == ZeroTime then Some(StartAtEmpty)
    else if req.endAt.Some? && req.endAt.value == ZeroTime then Some(EndAtEmpty)
    else if !(start < end) then Some(StartNotBeforeEnd)
    else if start < now then Some(StartInPast)
    else if req.price.Some? && req.price.value <= 0 then Some(PriceNotPositive)
    else if !SameStatus(existing.status, Pending) then Some(OnlyPendingUpdatable(existing.status))
    else None
  }

  /** Copies the supplied fields over the existing reservation. */
  function Merge(existing: Reservation, req: UpdateRequest): (m: Reservation)
    ensures m.venueId == req.venueId.GetOr(existing.venueId)
    ensures m.clientId == req.clientId.GetOr(existing.clientId)
    ensures m.ownerId == req.ownerId.GetOr(existing.ownerId)
    ensures m.startAt == FinalStart(existing, req) && m.endAt == FinalEnd(existing, req)
    ensures m.price == req.price.GetOr(existing.price)
    // Never touched by an update.
    ensures m.id == existing.id && m.status == existing.status
    ensures m.reasonForCancel == existing.reasonForCancel && m.duration == existing.duration
  {
    existing.(
      venueId := req.venueId.GetOr(existing.venueId),
      clientId := req.clientId.GetOr(existing.clientId),
      ownerId := req.ownerId.GetOr(existing.ownerId),
      startAt := FinalStart(existing, req),
      endAt := FinalEnd(existing, req),
      price := req.price.GetOr(existing.price))
  }

  /** Applying the same partial update twice is the same as applying it once,
      and an update that supplies nothing changes nothing. */
  lemma MergeIdempotent(existing: Reservation, req: UpdateRequest)
    ensures Merge(Merge(existing, req), req) == Merge(existing, req)
    ensures Merge(existing, UpdateRequest(None, None, None, None, None, None)) == existing
  {
  }

  datatype UpdateEffect = UpdateEffect(answer: Answer, saved: Option<Reservation>)

  /** bookingService.ReservationUpdate as written: the merged row is saved
      first and its duration is recomputed afterwards, on the returned copy
      only. */
  function ReservationUpdate(
    lookup: Result<Reservation, string>, req: UpdateRequest, now: Time,
    saveErr: Option<string>): (e: UpdateEffect)
    ensures lookup.Err? ==> e == UpdateEffect(Answer(None, Some(Repository(lookup.error))), None)
    ensures lookup.Ok? && ValidateUpdate(lookup.value, req, now).Some? ==>
      e == UpdateEffect(Answer(None, ValidateUpdate(lookup.value, req, now)), None)
    ensures e.saved.Some? <==>
      lookup.Ok? && UpdateAcceptable(lookup.value, req, now) && saveErr.None?
    ensures e.saved.Some? ==>
      && e.saved.value == Merge(lookup.value, req)
      && e.answer.err.None? && e.answer.value.Some?
      && e.answer.value.value == e.saved.value.(duration := Elapsed(e.saved.value.startAt, e.saved.value.endAt))
      && DurationConsistent(e.answer.value.value)
  {
    if lookup.Err? then UpdateEffect(Answer(None, Some(Repository(lookup.error))), None)
    else
      var existing := lookup.value;
      var invalid := ValidateUpdate(existing, req, now);
      if invalid.Some? then UpdateEffect(Answer(None, invalid), None)
      else
        var merged := Merge(existing, req);
        if saveErr.Some? then UpdateEffect(Answer(None, Some(Repository(saveErr.value))), None)
        else
          var returned := merged.(duration := Elapsed(merged.startAt, merged.endAt));
          UpdateEffect(Answer(Some(returned), None), Some(merged))
  }

  /** The merged start must not lie in the past even when the update only
      changes the price. */
  lemma PriceOnlyUpdateOfPastBooking(existing: Reservation, price: int, now: Time)
    requires existing.startAt < existing.endAt && existing.startAt < now
    ensures ValidateUpdate(existing, UpdateRequest(None, None, None, None, None, Some(price)), now)
         == Some(StartInPast)
  {
  }

  /** A reservation that is no longer Pending reports a bad field before
      its status. */
  lemma FieldErrorsBeforeStatus(existing: Reservation, req: UpdateRequest, now: Time)
    requires !SameStatus(existing.status, Pending) && req.ownerId == Some(0) && req.clientId != Some(0)
    ensures ValidateUpdate(existing, req, now) == Some(OwnerIdInvalid)
  {
  }

  /** A row that was consistent before the update is stored with its old
      duration when the interval changes: the saved row and the returned
      reservation disagree. Example: [100, 200) moved to end at 300. */
  lemma UpdateStoresStaleDuration()
    ensures
      var existing := Reservation(1, 1, 1, 1, 100, 200, 10, 100, "", Pending);
      var e := ReservationUpdate(Ok(existing), UpdateRequest(None, None, None, None, Some(300), None), 0, None);
      && DurationConsistent(existing)
      && e.saved.Some? && e.answer.value.Some?
      && !DurationConsistent(e.saved.value)
      && e.saved.value.duration == 100 && e.answer.value.value.duration == 200
  {
  }

  /** ReservationUpdate with the duration recomputed before the save, so the
      stored row and the returned reservation are the same. */
  function ReservationUpdateConsistent(
    lookup: Result<Reservation, string>, req: UpdateRequest, now: Time,
    saveErr: Option<string>): (e: UpdateEffect)
    ensures e.saved.Some? <==>
      lookup.Ok? && UpdateAcceptable(lookup.value, req, now) && saveErr.None?
    ensures e.saved.None? ==> e.answer.value.None? && e.answer.err.Some?
    ensures e.saved.Some? ==>
      && e.answer == Answer(e.saved, None)
      && DurationConsistent(e.saved.value) && e.saved.value.duration > 0
      && e.saved.value == Merge(lookup.value, req).(duration := e.saved.value.duration)
  {
    var asWritten := ReservationUpdate(lookup, req, now, saveErr);
    if asWritten.saved.None? then asWritten
    else UpdateEffect(asWritten.answer, asWritten.answer.value)
  }

  /** With the corrected update, every reservation the service stores keeps
      its duration consistent with its interval. */
  lemma {:induction false} UpdatesKeepDurationConsistent(r: Reservation, reqs: seq<UpdateRequest>, now: Time)
    requires DurationConsistent(r)
    ensures DurationConsistent(ApplyUpdates(r, reqs, now))
    decreases |reqs|
  {
    if |reqs| > 0 {
      var e := ReservationUpdateConsistent(Ok(r), reqs[0], now, None);
      var next := if e.saved.Some? then e.saved.value else r;
      assert DurationConsistent(next);
      UpdatesKeepDurationConsistent(next, reqs[1..], now);
    }
  }

  /** The stored row after a series of corrected updates (refused updates
      leave it as it was). */
  function ApplyUpdates(r: Reservation, reqs: seq<UpdateRequest>, now: Time): Reservation
    decreases |reqs|
  {
    if |reqs| == 0 then r
    else
      var e := ReservationUpdateConsistent(Ok(r), reqs[0], now, None);
      ApplyUpdates(if e.saved.Some? then e.saved.value else r, reqs[1..], now)
  }
}
