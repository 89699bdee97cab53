/** The venue repository over the `venues` table: lookup, filtered and
    paginated listing, the owner listing, insert, the column-map update and
    soft delete (venue-service/internal/repository/venue_repository.go).
    Row i of the table has id i+1, as autoincrement assigns them; deleted
    rows stay in the table with their soft-delete mark. */
module VenueStore {
  import opened Wrappers
  import opened Venues
  import Seqs
  import Strings

  type Table = seq<Venue>

  predicate TableWellFormed(t: Table)
  {
    forall i :: 0 <= i < |t| ==> t[i].id == i + 1
  }

  datatype StoreError =
    | RecordNotFound
    | HookRejected(reason: ValidationError)
      /** The table's `hour_price >= 0` check constraint refused the row. */
    | NegativePriceRefused
    | Database(cause: string)

  /** A live (not soft-deleted) row with this id. */
  predicate Live(t: Table, id: nat)
  {
    1 <= id <= |t| && !t[id - 1].deleted
  }

  /** venueRepository.GetByID: `First` by primary key, skipping deleted rows. */
  function GetByID(t: Table, id: nat, readErr: Option<string>): (r: Result<Venue, StoreError>)
    ensures readErr.Some? ==> r == Err(Database(readErr.value))
    ensures readErr.None? ==> (r.Ok? <==> Live(t, id)) && (r.Err? ==> r.error == RecordNotFound)
    ensures r.Ok? ==> r.value == t[id - 1] && !r.value.deleted
  {
    if readErr.Some? then Err(Database(readErr.value))
    else if Live(t, id) then Ok(t[id - 1])
    else Err(RecordNotFound)
  }

  // ---------------------------------------------------------------------
  // GetList
  // ---------------------------------------------------------------------

  /** repository.VenueFilter; an absent `is_active` is None. */
  datatype VenueFilter = VenueFilter(
    district: string, venueType: string, hourPrice: int, isActive: Option<bool>,
    ownerId: nat, page: int, limit: int)

  /** Each condition applies only when its filter field is set. */
  predicate Matches(v: Venue, f: VenueFilter)
  {
    && (f.district != "" ==> v.district == f.district)
    && (f.venueType != "" ==> v.venueType == f.venueType)
    && (f.hourPrice > 0 ==> v.hourPrice == f.hourPrice)
    && (f.isActive.Some? ==> v.isActive == f.isActive.value)
    && (f.ownerId > 0 ==> v.ownerId == f.ownerId)
  }

  predicate IdsDescending(vs: seq<Venue>)
  {
    forall i, j :: 0 <= i < j < |vs| ==> vs[i].id > vs[j].id
  }

  /** Which rows a query selects: the list query's filter, or the owner
      listing's single owner condition. */
  datatype Selector = ByFilter(filter: VenueFilter) | ByOwner(ownerId: nat)

  predicate Selects(s: Selector, v: Venue)
  {
    match s
    case ByFilter(f) => Matches(v, f)
    case ByOwner(o) => v.ownerId == o
  }

  /** The live rows that `s` selects among `t[..n]`, newest (highest id)
      first. */
  function NewestFirst(t: Table, n: nat, s: Selector): (r: seq<Venue>)
    requires n <= |t| && TableWellFormed(t)
    ensures IdsDescending(r)
    ensures forall k :: 0 <= k < |r| ==> 1 <= r[k].id <= n
  {
    if n == 0 then []
    else
      var v := t[n - 1];
      var rest := NewestFirst(t, n - 1, s);
      if !v.deleted && Selects(s, v) then [v] + rest else rest
  }

  /** NewestFirst lists exactly the live selected rows. */
  lemma {:induction false} NewestFirstMembers(t: Table, n: nat, s: Selector)
    requires n <= |t| && TableWellFormed(t)
    ensures forall v :: v in NewestFirst(t, n, s) <==> v in t[..n] && !v.deleted && Selects(s, v)
  {
    if n > 0 {
      var v := t[n - 1];
      var rest := NewestFirst(t, n - 1, s);
      NewestFirstMembers(t, n - 1, s);
      assert t[..n] == t[..n - 1] + [v];
      var r := NewestFirst(t, n, s);
      assert r == if !v.deleted && Selects(s, v) then [v] + rest else rest;
      forall x
        ensures x in r <==> x in t[..n] && !x.deleted && Selects(s, x)
      {
        assert x in t[..n] <==> x in t[..n - 1] || x == v;
      }
    }
  }

  /** Two selectors that agree on every row list the same rows. */
  lemma {:induction false} SameSelection(t: Table, n: nat, s1: Selector, s2: Selector)
    requires n <= |t| && TableWellFormed(t)
    requires forall i :: 0 <= i < n ==> Selects(s1, t[i]) == Selects(s2, t[i])
    ensures NewestFirst(t, n, s1) == NewestFirst(t, n, s2)
  {
    if n > 0 {
      SameSelection(t, n - 1, s1, s2);
    }
  }

  /** The rows the query selects before pagination, in `id DESC` order. */
  function Ordered(t: Table, f: VenueFilter): (r: seq<Venue>)
    requires TableWellFormed(t)
    ensures IdsDescending(r)
    ensures forall v :: v in r <==> v in t && !v.deleted && Matches(v, f)
  {
    NewestFirstMembers(t, |t|, ByFilter(f));
    assert t[..|t|] == t;
    NewestFirst(t, |t|, ByFilter(f))
  }

  /** The offset the query applies: `(Page-1)*Limit` in Go's int64
      arithmetic, only when both Limit and Page are positive. GORM writes no
      OFFSET for a value that is not positive, so a product that wraps
      below zero starts at the first row. */
  function Offset(f: VenueFilter): (r: nat)
    ensures f.limit <= 0 || f.page <= 0 ==> r == 0
    ensures f.limit > 0 && f.page > 0 && Strings.InInt64((f.page - 1) * f.limit) ==> r == (f.page - 1) * f.limit
    ensures r <= Strings.MaxInt64
  {
    if f.limit > 0 && f.page > 0 then
      var o := Strings.WrapInt64((f.page - 1) * f.limit);
      if o > 0 then o else 0
    else 0
  }

  /** venueRepository.GetList. */
  function GetList(t: Table, f: VenueFilter, readErr: Option<string>): (r: Result<seq<Venue>, StoreError>)
    requires TableWellFormed(t)
    ensures readErr.Some? <==> r.Err?
    ensures r.Ok? ==> IdsDescending(r.value)
    ensures r.Ok? ==> forall v :: v in r.value ==> v in t && !v.deleted && Matches(v, f)
    // Without a positive limit the whole ordered selection comes back; with
    // one, the page of the ordered selection.
    ensures r.Ok? && f.limit <= 0 ==> r.value == Ordered(t, f)
    ensures r.Ok? && f.limit > 0 ==>
      |r.value| <= f.limit && r.value == Seqs.Window(Ordered(t, f), Offset(f), f.limit)
  {
    if readErr.Some? then Err(Database(readErr.value))
    else
      var all := Ordered(t, f);
      if f.limit > 0 then Ok(Seqs.Window(all, Offset(f), f.limit)) else Ok(all)
  }

  /** Consecutive pages neither overlap nor skip rows: page p followed by
      page p+1 is the window of twice the size starting at page p. */
  lemma PagesAreConsecutive(t: Table, f: VenueFilter)
    requires TableWellFormed(t) && f.limit > 0 && f.page > 0 && Strings.InInt64(f.page * f.limit)
    ensures GetList(t, f, None).value + GetList(t, f.(page := f.page + 1), None).value
         == Seqs.Window(Ordered(t, f), Offset(f), 2 * f.limit)
  {
    var g := f.(page := f.page + 1);
    var all := Ordered(t, f);
    PageIgnoredBySelection(t, f, f.page + 1);
    NextPageOffset(f);
    ListedPage(t, f);
    ListedPage(t, g);
    Seqs.WindowsAdjacent(all, Offset(f), f.limit);
  }

  /** With a positive limit the listing is one window of the selection. */
  lemma ListedPage(t: Table, f: VenueFilter)
    requires TableWellFormed(t) && f.limit > 0
    ensures GetList(t, f, None) == Ok(Seqs.Window(Ordered(t, f), Offset(f), f.limit))
  {
  }

  /** The page takes no part in which venues are selected. */
  lemma PageIgnoredBySelection(t: Table, f: VenueFilter, page: int)
    requires TableWellFormed(t)
    ensures Ordered(t, f.(page := page)) == Ordered(t, f)
  {
    SameSelection(t, |t|, ByFilter(f), ByFilter(f.(page := page)));
  }

  /** Far enough out the offset wraps: page 2^62 + 1 of size 2 asks for
      offset 2^63, which int64 turns negative, and the first page comes
      back instead. */
  lemma HugePageRepeatsFirstPage(t: Table, f: VenueFilter)
    requires TableWellFormed(t) && f.limit == 2 && f.page == 0x4000_0000_0000_0001
    ensures GetList(t, f, None) == GetList(t, f.(page := 1), None)
  {
    assert (f.page - 1) * f.limit == 0x8000_0000_0000_0000;
    assert Strings.WrapInt64(0x8000_0000_0000_0000) == Strings.MinInt64;
    PageIgnoredBySelection(t, f, 1);
  }

  /** The next page starts one limit further on. */
  lemma NextPageOffset(f: VenueFilter)
    requires f.limit > 0 && f.page > 0 && Strings.InInt64(f.page * f.limit)
    ensures Offset(f.(page := f.page + 1)) == Offset(f) + f.limit
  {
    var before := (f.page - 1) * f.limit;
    var after := f.page * f.limit;
    assert after == before + f.limit;
    assert 0 <= before by { NonNegativeProduct(f.page - 1, f.limit); }
    assert Offset(f) == before;
    assert (f.page + 1 - 1) * f.limit == after;
  }

  lemma NonNegativeProduct(a: int, b: int)
    requires 0 <= a && 0 <= b
    ensures 0 <= a * b
  {
  }

  /** venueRepository.GetByOwnerID: that owner's live venues, newest first,
      unpaginated. The owner condition applies even to owner 0. */
  function GetByOwnerID(t: Table, ownerId: nat, readErr: Option<string>): (r: Result<seq<Venue>, StoreError>)
    requires TableWellFormed(t)
    ensures readErr.Some? <==> r.Err?
    ensures r.Ok? ==> IdsDescending(r.value)
    ensures r.Ok? ==> forall v :: v in r.value <==> v in t && !v.deleted && v.ownerId == ownerId
  {
    if readErr.Some? then Err(Database(readErr.value))
    else
      NewestFirstMembers(t, |t|, ByOwner(ownerId));
      assert t[..|t|] == t;
      Ok(NewestFirst(t, |t|, ByOwner(ownerId)))
  }

  /** For a positive owner, the owner listing is the unpaginated list with
      only the owner filter set. */
  lemma OwnerListingIsFilteredList(t: Table, ownerId: nat, page: int, limit: int)
    requires TableWellFormed(t) && ownerId > 0 && limit <= 0
    ensures GetByOwnerID(t, ownerId, None) == GetList(t, VenueFilter("", "", 0, None, ownerId, page, limit), None)
  {
    SameSelection(t, |t|, ByOwner(ownerId), ByFilter(VenueFilter("", "", 0, None, ownerId, page, limit)));
  }

  // ---------------------------------------------------------------------
  // Writes
  // ---------------------------------------------------------------------

  /** The table's check constraint on a row's price. */
  predicate PriceAllowed(v: Venue)
  {
    v.hourPrice >= 0
  }

  /** GORM's insert-time defaults. `is_active` and every day's `enabled`
      carry `default:true`; a false value is the zero value, so the insert
      writes the default instead and copies it back into the struct. This
      happens after the creation hook has looked at the venue. */
  function WithDefaults(v: Venue): (r: Venue)
    ensures r.isActive
    ensures forall d :: Day(r.weekdays, d).enabled
    ensures forall d :: Day(r.weekdays, d).startTime == Day(v.weekdays, d).startTime
                     && Day(r.weekdays, d).endTime == Day(v.weekdays, d).endTime
    ensures r.id == v.id && r.venueType == v.venueType && r.ownerId == v.ownerId
    ensures r.hourPrice == v.hourPrice && r.district == v.district
    ensures r.startTime == v.startTime && r.endTime == v.endTime && r.deleted == v.deleted
  {
    var w := v.weekdays;
    v.(isActive := true, weekdays := Weekdays(
      EnabledDay(w.monday), EnabledDay(w.tuesday), EnabledDay(w.wednesday), EnabledDay(w.thursday),
      EnabledDay(w.friday), EnabledDay(w.saturday), EnabledDay(w.sunday)))
  }

  function EnabledDay(s: DaySchedule): DaySchedule
  {
    s.(enabled := true)
  }

  /** The defaults change nothing exactly when the venue is active and every
      day is enabled. */
  lemma DefaultsFixedPoints(v: Venue)
    ensures WithDefaults(v) == v <==> v.isActive && forall d :: Day(v.weekdays, d).enabled
    ensures WithDefaults(WithDefaults(v)) == WithDefaults(v)
  {
    if v.isActive && forall d :: Day(v.weekdays, d).enabled {
      assert Day(v.weekdays, Monday).enabled && Day(v.weekdays, Tuesday).enabled;
      assert Day(v.weekdays, Wednesday).enabled && Day(v.weekdays, Thursday).enabled;
      assert Day(v.weekdays, Friday).enabled && Day(v.weekdays, Saturday).enabled;
      assert Day(v.weekdays, Sunday).enabled;
    }
  }

  /** A primary key already present in the table, soft-deleted rows
      included; 0 asks the database for the next id. */
  predicate IdTaken(t: Table, id: nat)
  {
    1 <= id <= |t|
  }

  /** The database's refusal of an insert whose primary key is in use. */
  const DuplicateKey: string := "duplicate key value violates unique constraint \"venues_pkey\""

  /** venueRepository.Create: the BeforeCreate hook, then the insert, which
      the price check constraint or an id already in use can refuse. The
      stored venue, which is also what the caller gets back, carries the
      column defaults. */
  function Create(t: Table, v: Venue, writeErr: Option<string>): (r: (Result<Venue, StoreError>, Table))
    requires TableWellFormed(t)
    ensures r.0.Ok? <==> VenueValid(v) && PriceAllowed(v) && !IdTaken(t, v.id) && writeErr.None?
    ensures !VenueValid(v) ==> r.0 == Err(HookRejected(ValidateVenue(v).value))
    ensures VenueValid(v) && !PriceAllowed(v) ==> r.0 == Err(NegativePriceRefused)
    ensures VenueValid(v) && PriceAllowed(v) && IdTaken(t, v.id) ==> r.0 == Err(Database(DuplicateKey))
    ensures r.0.Err? ==> r.1 == t
    ensures r.0.Ok? ==> r.0.value == WithDefaults(v).(id := |t| + 1, deleted := false) && r.1 == t + [r.0.value]
    ensures TableWellFormed(r.1)
  {
    match BeforeCreate(v)
    case Some(e) => (Err(HookRejected(e)), t)
    case None =>
      if !PriceAllowed(v) then (Err(NegativePriceRefused), t)
      else if IdTaken(t, v.id) then (Err(Database(DuplicateKey)), t)
      else if writeErr.Some? then (Err(Database(writeErr.value)), t)
      else
        var stored := WithDefaults(v).(id := |t| + 1, deleted := false);
        (Ok(stored), t + [stored])
  }

  /** As written, a venue created inactive is stored and answered active,
      and a valid venue with a closed day is stored with that day open but
      without hours, which the validation forbids. */
  lemma CreateStoresDefaults(t: Table, v: Venue, d: Weekday)
    requires TableWellFormed(t) && Create(t, v, None).0.Ok?
    ensures Create(t, v, None).0.value.isActive
    ensures !Day(v.weekdays, d).enabled ==> !VenueValid(Create(t, v, None).0.value)
  {
    var stored := Create(t, v, None).0.value;
    if !Day(v.weekdays, d).enabled {
      assert VenueValid(v);
      assert DayWellFormed(Day(v.weekdays, d));
      assert !DayWellFormed(Day(stored.weekdays, d));
    }
  }

  /** The insert as evidently intended: the columns take the submitted
      values, so the stored venue is the one the hook approved. */
  function CreateAsSubmitted(t: Table, v: Venue, writeErr: Option<string>): (r: (Result<Venue, StoreError>, Table))
    requires TableWellFormed(t)
    ensures r.0.Ok? <==> VenueValid(v) && PriceAllowed(v) && !IdTaken(t, v.id) && writeErr.None?
    ensures r.0.Err? ==> r.1 == t
    ensures r.0.Ok? ==> r.1 == t + [r.0.value] && r.0.value.id == |t| + 1
    ensures TableWellFormed(r.1)
  {
    match BeforeCreate(v)
    case Some(e) => (Err(HookRejected(e)), t)
    case None =>
      if !PriceAllowed(v) then (Err(NegativePriceRefused), t)
      else if IdTaken(t, v.id) then (Err(Database(DuplicateKey)), t)
      else if writeErr.Some? then (Err(Database(writeErr.value)), t)
      else
        var stored := v.(id := |t| + 1, deleted := false);
        (Ok(stored), t + [stored])
  }

  /** The intended insert stores a venue that passes the validation, with
      the active flag and every day's schedule as submitted. */
  lemma SubmittedVenueStoredValid(t: Table, v: Venue)
    requires TableWellFormed(t) && CreateAsSubmitted(t, v, None).0.Ok?
    ensures var stored := CreateAsSubmitted(t, v, None).0.value;
      && VenueValid(stored)
      && stored.isActive == v.isActive
      && stored.weekdays == v.weekdays
  {
    var stored := CreateAsSubmitted(t, v, None).0.value;
    ValidationIgnoresOtherFields(v, stored);
  }

  /** The columns the update's column map writes: type, owner, active flag,
      price, district and the seven days' schedules. The venue-level
      start/end times and the id are not among them. */
  function WriteColumns(row: Venue, v: Venue): (r: Venue)
    ensures r.venueType == v.venueType && r.ownerId == v.ownerId && r.isActive == v.isActive
    ensures r.hourPrice == v.hourPrice && r.district == v.district && r.weekdays == v.weekdays
    ensures r.id == row.id && r.deleted == row.deleted
    ensures r.startTime == row.startTime && r.endTime == row.endTime
  {
    row.(venueType := v.venueType, ownerId := v.ownerId, isActive := v.isActive,
         hourPrice := v.hourPrice, district := v.district, weekdays := v.weekdays)
  }

  /** venueRepository.Update: the BeforeUpdate hook on the given venue, then
      every listed column of the live row with the venue's id, zero and empty
      values included. No matching row is not an error, so the price check
      applies only when a row is written. */
  function Update(t: Table, v: Venue, writeErr: Option<string>): (r: (Option<StoreError>, Table))
    requires TableWellFormed(t)
    ensures !VenueValid(v) ==> r == (Some(HookRejected(ValidateVenue(v).value)), t)
    ensures VenueValid(v) && writeErr.Some? ==> r == (Some(Database(writeErr.value)), t)
    ensures VenueValid(v) && writeErr.None? && Live(t, v.id) && !PriceAllowed(v) ==> r == (Some(NegativePriceRefused), t)
    ensures r.0.None? <==> VenueValid(v) && writeErr.None? && (Live(t, v.id) ==> PriceAllowed(v))
    ensures |r.1| == |t| && TableWellFormed(r.1)
    ensures forall i :: 0 <= i < |t| && i != v.id - 1 ==> r.1[i] == t[i]
    ensures r.0.None? && Live(t, v.id) ==> r.1[v.id - 1] == WriteColumns(t[v.id - 1], v)
    ensures !Live(t, v.id) ==> r.1 == t
  {
    match BeforeUpdate(v)
    case Some(e) => (Some(HookRejected(e)), t)
    case None =>
      if writeErr.Some? then (Some(Database(writeErr.value)), t)
      else if Live(t, v.id) then
        if PriceAllowed(v) then (None, t[v.id - 1 := WriteColumns(t[v.id - 1], v)])
        else (Some(NegativePriceRefused), t)
      else (None, t)
  }

  /** venueRepository.Delete: soft delete; zero affected rows is
      RecordNotFound. */
  function Delete(t: Table, id: nat, writeErr: Option<string>): (r: (Option<StoreError>, Table))
    requires TableWellFormed(t)
    ensures writeErr.Some? ==> r == (Some(Database(writeErr.value)), t)
    ensures writeErr.None? && !Live(t, id) ==> r == (Some(RecordNotFound), t)
    ensures writeErr.None? && Live(t, id) ==>
      && r.0.None? && |r.1| == |t| && r.1[id - 1] == t[id - 1].(deleted := true)
      && forall i :: 0 <= i < |t| && i != id - 1 ==> r.1[i] == t[i]
    ensures TableWellFormed(r.1)
  {
    if writeErr.Some? then (Some(Database(writeErr.value)), t)
    else if !Live(t, id) then (Some(RecordNotFound), t)
    else (None, t[id - 1 := t[id - 1].(deleted := true)])
  }

  /** A deleted venue disappears from lookups and listings, and deleting it
      again reports RecordNotFound. */
  lemma DeleteHidesVenue(t: Table, id: nat, f: VenueFilter)
    requires TableWellFormed(t) && Live(t, id)
    ensures
      var after := Delete(t, id, None).1;
      && GetByID(after, id, None) == Err(RecordNotFound)
      && t[id - 1].(deleted := true) !in Ordered(after, f)
      && (forall v :: v in Ordered(after, f) ==> v.id != id)
      && Delete(after, id, None).0 == Some(RecordNotFound)
  {
    var after := Delete(t, id, None).1;
    forall v | v in Ordered(after, f) ensures v.id != id
    {
      var i :| 0 <= i < |after| && after[i] == v;
    }
  }
}
