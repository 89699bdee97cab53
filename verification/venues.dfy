/** The venue record and the validation hook that guards every insert and
    update of a venue (venue-service/internal/models/venue.go). */
module Venues {
  import opened Wrappers

  /** A clock time of day. */
  type TimeOfDay = int

  const VenueFootball: string := "football"
  const VenueBasketball: string := "basketball"
  const VenueTennis: string := "tennis"
  const VenueGym: string := "gym"
  const VenueSwimming: string := "swimming"

  const VenueTypes: set<string> := {VenueFootball, VenueBasketball, VenueTennis, VenueGym, VenueSwimming}

  /** VenueType.IsValid. */
  predicate IsValidVenueType(t: string)
  {
    t == VenueFootball || t == VenueBasketball || t == VenueTennis || t == VenueGym || t == VenueSwimming
  }

  /** The valid venue types are exactly the five named ones, so in
      particular the empty type and capitalised spellings are invalid. */
  lemma VenueTypesExactly(t: string)
    ensures IsValidVenueType(t) <==> t in VenueTypes
    ensures !IsValidVenueType("") && !IsValidVenueType("Football")
  {
  }

  datatype Weekday = Monday | Tuesday | Wednesday | Thursday | Friday | Saturday | Sunday

  /** The order in which days are validated. */
  const WeekOrder: seq<Weekday> := [Monday, Tuesday, Wednesday, Thursday, Friday, Saturday, Sunday]

  /** The position of a day in `WeekOrder`. */
  function DayIndex(d: Weekday): (i: nat)
    ensures i < 7 && WeekOrder[i] == d
  {
    match d
    case Monday => 0
    case Tuesday => 1
    case Wednesday => 2
    case Thursday => 3
    case Friday => 4
    case Saturday => 5
    case Sunday => 6
  }

  /** One day's opening hours: nil times are None. */
  datatype DaySchedule = DaySchedule(enabled: bool, startTime: Option<TimeOfDay>, endTime: Option<TimeOfDay>)

  datatype Weekdays = Weekdays(
    monday: DaySchedule, tuesday: DaySchedule, wednesday: DaySchedule, thursday: DaySchedule,
    friday: DaySchedule, saturday: DaySchedule, sunday: DaySchedule)

  function Day(w: Weekdays, d: Weekday): DaySchedule
  {
    match d
    case Monday => w.monday
    case Tuesday => w.tuesday
    case Wednesday => w.wednesday
    case Thursday => w.thursday
    case Friday => w.friday
    case Saturday => w.saturday
    case Sunday => w.sunday
  }

  /** models.Venue. `startTime`/`endTime` are the venue-level opening hours
      the venue service reads and writes; `deleted` is GORM's soft-delete
      mark. */
  datatype Venue = Venue(
    id: nat, venueType: string, ownerId: nat, isActive: bool, hourPrice: int,
    district: string, startTime: TimeOfDay, endTime: TimeOfDay, weekdays: Weekdays,
    deleted: bool)

  /** What validateVenue can report. */
  datatype ValidationError =
    | InvalidType(venueType: string)
    | MissingHours(day: Weekday)
    | StartNotBeforeEnd(day: Weekday)
    | HoursOnDisabledDay(day: Weekday)

  /** A day's schedule rule, stated on its own: an enabled day has both
      times with start strictly before end; a disabled day has neither. */
  predicate DayWellFormed(s: DaySchedule)
  {
    if s.enabled then s.startTime.Some? && s.endTime.Some? && s.startTime.value < s.endTime.value
    else s.startTime.None? && s.endTime.None?
  }

  predicate VenueValid(v: Venue)
  {
    IsValidVenueType(v.venueType) && forall d: Weekday :: DayWellFormed(Day(v.weekdays, d))
  }

  /** The error one day's schedule produces, if any. */
  function CheckDay(d: Weekday, s: DaySchedule): (e: Option<ValidationError>)
    ensures e.None? <==> DayWellFormed(s)
    ensures e.Some? ==> !e.value.InvalidType? && e.value.day == d
    ensures e.Some? && e.value.MissingHours? <==> s.enabled && (s.startTime.None? || s.endTime.None?)
    ensures e.Some? && e.value.StartNotBeforeEnd? <==>
      s.enabled && s.startTime.Some? && s.endTime.Some? && s.startTime.value >= s.endTime.value
    ensures e.Some? && e.value.HoursOnDisabledDay? <==>
      !s.enabled && (s.startTime.Some? || s.endTime.Some?)
  {
    if s.enabled then
      if s.startTime.None? || s.endTime.None? then Some(MissingHours(d))
      else if !(s.startTime.value < s.endTime.value) then Some(StartNotBeforeEnd(d))
      else None
    else if s.startTime.Some? || s.endTime.Some? then Some(HoursOnDisabledDay(d))
    else None
  }

  /** The first error among the days `days[k..]`, in order. */
  function CheckDaysFrom(w: Weekdays, days: seq<Weekday>, k: nat): (e: Option<ValidationError>)
    requires k <= |days|
    ensures e.None? <==> forall i :: k <= i < |days| ==> DayWellFormed(Day(w, days[i]))
    ensures e.Some? ==> exists i :: (k <= i < |days| && e == CheckDay(days[i], Day(w, days[i]))
      && forall j :: k <= j < i ==> DayWellFormed(Day(w, days[j])))
    decreases |days| - k
  {
    if k == |days| then None
    else
      var here := CheckDay(days[k], Day(w, days[k]));
      if here.Some? then here else CheckDaysFrom(w, days, k + 1)
  }

  /** validateVenue: the type first, then the days from Monday to Sunday;
      the first violation is reported. */
  function ValidateVenue(v: Venue): (e: Option<ValidationError>)
    ensures e.None? <==> VenueValid(v)
    ensures !IsValidVenueType(v.venueType) ==> e == Some(InvalidType(v.venueType))
    // A day error names the first bad day of the week, and says what is wrong with it.
    ensures IsValidVenueType(v.venueType) && e.Some? ==>
      exists i :: 0 <= i < 7 && e == CheckDay(WeekOrder[i], Day(v.weekdays, WeekOrder[i]))
        && !DayWellFormed(Day(v.weekdays, WeekOrder[i]))
        && forall j :: 0 <= j < i ==> DayWellFormed(Day(v.weekdays, WeekOrder[j]))
  {
    if !IsValidVenueType(v.venueType) then Some(InvalidType(v.venueType))
    else
      var e := CheckDaysFrom(v.weekdays, WeekOrder, 0);
      forall d: Weekday ensures WeekOrder[DayIndex(d)] == d { }
      e
  }

  /** The error reported for a venue depends only on its type and schedule. */
  lemma ValidationIgnoresOtherFields(v: Venue, u: Venue)
    requires v.venueType == u.venueType && v.weekdays == u.weekdays
    ensures ValidateVenue(v) == ValidateVenue(u)
  {
  }

  /** An enabled Monday without hours is reported even when Sunday is also
      wrong: the first violating day wins. */
  lemma MondayReportedBeforeSunday(v: Venue)
    requires IsValidVenueType(v.venueType)
    requires v.weekdays.monday == DaySchedule(true, None, Some(10))
    requires v.weekdays.sunday == DaySchedule(false, Some(1), None)
    ensures ValidateVenue(v) == Some(MissingHours(Monday))
  {
  }

  /** BeforeCreate and BeforeUpdate: the same validation. */
  function BeforeCreate(v: Venue): (e: Option<ValidationError>)
    ensures e.None? <==> VenueValid(v)
  {
    ValidateVenue(v)
  }

  function BeforeUpdate(v: Venue): (e: Option<ValidationError>)
    ensures e.None? <==> VenueValid(v)
  {
    ValidateVenue(v)
  }

  lemma HooksAgree(v: Venue)
    ensures BeforeCreate(v) == BeforeUpdate(v)
  {
  }
}
