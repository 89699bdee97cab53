/** The venue service over the venue repository: lookups with the
    not-found mapping, full update, delete, and the schedule read and write
    (venue-service/internal/services/venue_service.go). */
module VenueService {
  import opened Wrappers
  import opened Venues
  import VenueStore

  datatype ServiceError =
    | VenueNotFound
      /** Any other repository error, passed through. */
    | Store(cause: VenueStore.StoreError)

  /** The mapping every service method applies to a repository error. */
  function FromStore(e: VenueStore.StoreError): (r: ServiceError)
    ensures r == VenueNotFound <==> e == VenueStore.RecordNotFound
    ensures r != VenueNotFound ==> r == Store(e)
  {
    if e == VenueStore.RecordNotFound then VenueNotFound else Store(e)
  }

  /** venueService.GetByID. */
  function GetByID(t: VenueStore.Table, id: nat, readErr: Option<string>): (r: Result<Venue, ServiceError>)
    ensures r.Ok? <==> readErr.None? && VenueStore.Live(t, id)
    ensures readErr.None? && !VenueStore.Live(t, id) ==> r == Err(VenueNotFound)
    ensures readErr.Some? ==> r == Err(Store(VenueStore.Database(readErr.value)))
    ensures r.Ok? ==> r.value == t[id - 1]
  {
    match VenueStore.GetByID(t, id, readErr)
    case Err(e) => Err(FromStore(e))
    case Ok(v) => Ok(v)
  }

  /** venueService.GetSchedule: the same lookup, answering with the whole
      venue. */
  function GetSchedule(t: VenueStore.Table, id: nat, readErr: Option<string>): (r: Result<Venue, ServiceError>)
    ensures r.Ok? <==> readErr.None? && VenueStore.Live(t, id)
    ensures readErr.None? && !VenueStore.Live(t, id) ==> r == Err(VenueNotFound)
    ensures r.Ok? ==> r.value == t[id - 1]
  {
    GetByID(t, id, readErr)
  }

  /** The fields venueService.Update copies from the request venue onto the
      stored one; the id and the soft-delete mark stay. */
  function CopyFields(existing: Venue, v: Venue): (r: Venue)
    ensures r.id == existing.id && r.deleted == existing.deleted
    ensures r.(id := v.id, deleted := v.deleted) == v
  {
    existing.(venueType := v.venueType, ownerId := v.ownerId, isActive := v.isActive,
              hourPrice := v.hourPrice, district := v.district,
              startTime := v.startTime, endTime := v.endTime, weekdays := v.weekdays)
  }

  /** venueService.Update: lookup, copy, repository update. */
  function Update(
    t: VenueStore.Table, id: nat, v: Venue, readErr: Option<string>,
    writeErr: Option<string>): (r: (Option<ServiceError>, VenueStore.Table))
    requires VenueStore.TableWellFormed(t)
    // A missing venue reports VenueNotFound and writes nothing.
    ensures readErr.None? && !VenueStore.Live(t, id) ==> r == (Some(VenueNotFound), t)
    ensures readErr.Some? ==> r.1 == t && r.0.Some?
    ensures r.0.None? <==>
      readErr.None? && VenueStore.Live(t, id) && VenueValid(v) && VenueStore.PriceAllowed(v) && writeErr.None?
    // An invalid venue is rejected by the update hook, nothing written.
    ensures readErr.None? && VenueStore.Live(t, id) && !VenueValid(v) ==>
      r == (Some(Store(VenueStore.HookRejected(ValidateVenue(v).value))), t)
    ensures r.0.Some? ==> r.1 == t
    ensures VenueStore.TableWellFormed(r.1) && |r.1| == |t|
    ensures forall i :: 0 <= i < |t| && i != id - 1 ==> r.1[i] == t[i]
    ensures r.0.None? ==> r.1[id - 1] == VenueStore.WriteColumns(t[id - 1], v)
  {
    match VenueStore.GetByID(t, id, readErr)
    case Err(e) => (Some(FromStore(e)), t)
    case Ok(existing) =>
      var merged := CopyFields(existing, v);
      assert ValidateVenue(merged) == ValidateVenue(v) by {
        ValidationIgnoresOtherFields(merged, v);
      }
      var (err, after) := VenueStore.Update(t, merged, writeErr);
      (if err.None? then None else Some(FromStore(err.value)), after)
  }

  /** A successful update stores every column the request supplies; the
      venue-level opening hours are the exception: they are not among the
      written columns. */
  lemma UpdateStoresRequestColumns(t: VenueStore.Table, id: nat, v: Venue)
    requires VenueStore.TableWellFormed(t) && VenueStore.Live(t, id) && VenueValid(v) && VenueStore.PriceAllowed(v)
    ensures
      var r := Update(t, id, v, None, None);
      var stored := r.1[id - 1];
      && r.0.None?
      && stored.venueType == v.venueType && stored.ownerId == v.ownerId
      && stored.isActive == v.isActive && stored.hourPrice == v.hourPrice
      && stored.district == v.district && stored.weekdays == v.weekdays
      && stored.id == id
      && stored.startTime == t[id - 1].startTime && stored.endTime == t[id - 1].endTime
  {
  }

  /** venueService.Delete: lookup first; a missing venue is VenueNotFound and
      no delete is issued. */
  function Delete(t: VenueStore.Table, id: nat, readErr: Option<string>, writeErr: Option<string>): (r: (Option<ServiceError>, VenueStore.Table))
    requires VenueStore.TableWellFormed(t)
    ensures readErr.None? && !VenueStore.Live(t, id) ==> r == (Some(VenueNotFound), t)
    ensures r.0.None? <==> readErr.None? && writeErr.None? && VenueStore.Live(t, id)
    ensures r.0.Some? ==> r.1 == t
    ensures r.0.None? ==> r.1 == t[id - 1 := t[id - 1].(deleted := true)]
  {
    match VenueStore.GetByID(t, id, readErr)
    case Err(e) => (Some(FromStore(e)), t)
    case Ok(_) =>
      var (err, after) := VenueStore.Delete(t, id, writeErr);
      (if err.None? then None else Some(FromStore(err.value)), after)
  }

  /** The body of venueService.UpdateSchedule. */
  datatype ScheduleUpdate = ScheduleUpdate(startTime: TimeOfDay, endTime: TimeOfDay)

  /** venueService.UpdateSchedule: only the venue-level start and end time
      of the looked-up venue change before the repository update. */
  function UpdateSchedule(
    t: VenueStore.Table, id: nat, s: ScheduleUpdate, readErr: Option<string>,
    writeErr: Option<string>): (r: (Option<ServiceError>, VenueStore.Table))
    requires VenueStore.TableWellFormed(t)
    ensures readErr.None? && !VenueStore.Live(t, id) ==> r == (Some(VenueNotFound), t)
    ensures r.0.None? <==>
      readErr.None? && VenueStore.Live(t, id) && VenueValid(t[id - 1]) && VenueStore.PriceAllowed(t[id - 1])
      && writeErr.None?
  {
    match VenueStore.GetByID(t, id, readErr)
    case Err(e) => (Some(FromStore(e)), t)
    case Ok(venue) =>
      var changed := venue.(startTime := s.startTime, endTime := s.endTime);
      var (err, after) := VenueStore.Update(t, changed, writeErr);
      (if err.None? then None else Some(FromStore(err.value)), after)
  }

  /** UpdateSchedule changes nothing in the table, successful or not: the
      two fields it sets are not among the columns the repository writes. */
  lemma UpdateScheduleWritesNothing(
    t: VenueStore.Table, id: nat, s: ScheduleUpdate, readErr: Option<string>, writeErr: Option<string>)
    requires VenueStore.TableWellFormed(t)
    ensures UpdateSchedule(t, id, s, readErr, writeErr).1 == t
  {
    if readErr.None? && VenueStore.Live(t, id) {
      var changed := t[id - 1].(startTime := s.startTime, endTime := s.endTime);
      assert VenueStore.WriteColumns(t[id - 1], changed) == t[id - 1];
    }
  }
}
