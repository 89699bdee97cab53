/** The user service over the `users` table: registration with a hashed
    password and a default role, lookups that hide the repository's error,
    partial update and delete (user-service/internal/services/user_service.go
    over user-service/internal/repository/user_repository.go). Row i of the
    table has id i+1; deleted rows stay with their soft-delete mark, and the
    unique index on `email` covers them too. Password hashing (bcrypt) is a
    parameter. */
module Users {
  import opened Wrappers

  // Role names as the user model declares them.
  const RoleOwner: string := "Owner"
  const RoleClient: string := "Client"
  const RoleAdmin: string := "Admin"

  /** The role values request binding admits besides an empty one
      (`oneof=client owner admin`). */
  const BindableRoles: set<string> := {"client", "owner", "admin"}

  datatype User = User(
    id: nat, fullName: string, email: string, passwordHash: string, role: string, deleted: bool)

  type Table = seq<User>

  predicate EmailsUnique(t: Table)
  {
    forall i, j :: 0 <= i < j < |t| ==> t[i].email != t[j].email
  }

  predicate TableWellFormed(t: Table)
  {
    && (forall i :: 0 <= i < |t| ==> t[i].id == i + 1)
    && EmailsUnique(t)
  }

  predicate Live(t: Table, id: nat)
  {
    1 <= id <= |t| && !t[id - 1].deleted
  }

  /** Some row, live or soft-deleted, already holds this email. */
  predicate EmailTaken(t: Table, email: string)
  {
    exists i :: 0 <= i < |t| && t[i].email == email
  }

  // ---------------------------------------------------------------------
  // Repository
  // ---------------------------------------------------------------------

  datatype RepoError = RecordNotFound | DuplicateEmail | Database(cause: string)

  /** userRepository.GetByID: `First` by primary key, skipping deleted rows. */
  function RepoGetByID(t: Table, id: nat, readErr: Option<string>): (r: Result<User, RepoError>)
    ensures readErr.Some? ==> r == Err(Database(readErr.value))
    ensures readErr.None? ==> (r.Ok? <==> Live(t, id)) && (r.Err? ==> r.error == RecordNotFound)
    ensures r.Ok? ==> r.value == t[id - 1]
  {
    if readErr.Some? then Err(Database(readErr.value))
    else if Live(t, id) then Ok(t[id - 1])
    else Err(RecordNotFound)
  }

  /** The first live row from `from` on with this email. */
  function FindLiveEmail(t: Table, email: string, from: nat): (r: Option<nat>)
    requires from <= |t|
    ensures r.Some? ==> from <= r.value < |t| && t[r.value].email == email && !t[r.value].deleted
    ensures r.None? ==> forall k :: from <= k < |t| ==> t[k].email != email || t[k].deleted
    decreases |t| - from
  {
    if from == |t| then None
    else if t[from].email == email && !t[from].deleted then Some(from)
    else FindLiveEmail(t, email, from + 1)
  }

  /** userRepository.GetByEmail: `Where email = ?` then `First`. */
  function RepoGetByEmail(t: Table, email: string, readErr: Option<string>): (r: Result<User, RepoError>)
    requires TableWellFormed(t)
    ensures readErr.Some? ==> r == Err(Database(readErr.value))
    ensures readErr.None? ==>
      (r.Ok? <==> exists i :: 0 <= i < |t| && t[i].email == email && !t[i].deleted)
    ensures readErr.None? && r.Err? ==> r.error == RecordNotFound
    ensures r.Ok? ==> r.value.email == email && !r.value.deleted && Live(t, r.value.id) && t[r.value.id - 1] == r.value
  {
    if readErr.Some? then Err(Database(readErr.value))
    else match FindLiveEmail(t, email, 0)
      case None => Err(RecordNotFound)
      case Some(i) => Ok(t[i])
  }

  /** userRepository.Create: insert with the next id; the unique index
      refuses an email any row already holds. */
  function RepoCreate(t: Table, u: User, writeErr: Option<string>): (r: (Result<User, RepoError>, Table))
    requires TableWellFormed(t)
    ensures TableWellFormed(r.1)
    ensures r.0.Ok? <==> writeErr.None? && !EmailTaken(t, u.email)
    ensures writeErr.None? && EmailTaken(t, u.email) ==> r.0 == Err(DuplicateEmail)
    ensures r.0.Err? ==> r.1 == t
    ensures r.0.Ok? ==> r.0.value == u.(id := |t| + 1, deleted := false) && r.1 == t + [r.0.value]
  {
    if writeErr.Some? then (Err(Database(writeErr.value)), t)
    else if EmailTaken(t, u.email) then (Err(DuplicateEmail), t)
    else
      var row := u.(id := |t| + 1, deleted := false);
      (Ok(row), t + [row])
  }

  /** userRepository.Update (`Save` of a loaded row): every column written;
      the unique index refuses an email another row holds. */
  function RepoUpdate(t: Table, u: User, writeErr: Option<string>): (r: (Option<RepoError>, Table))
    requires TableWellFormed(t) && 1 <= u.id <= |t|
    ensures TableWellFormed(r.1) && |r.1| == |t|
    ensures r.0.None? <==>
      writeErr.None? && forall j :: 0 <= j < |t| && j != u.id - 1 ==> t[j].email != u.email
    ensures r.0.Some? ==> r.1 == t
    ensures r.0.None? ==> r.1 == t[u.id - 1 := u]
  {
    if writeErr.Some? then (Some(Database(writeErr.value)), t)
    else if exists j :: 0 <= j < |t| && j != u.id - 1 && t[j].email == u.email then (Some(DuplicateEmail), t)
    else (None, t[u.id - 1 := u])
  }

  /** userRepository.Delete: soft delete by primary key; deleting a row
      that is not live changes nothing and is not an error. */
  function RepoDelete(t: Table, id: nat, writeErr: Option<string>): (r: (Option<RepoError>, Table))
    requires TableWellFormed(t)
    ensures TableWellFormed(r.1) && |r.1| == |t|
    ensures r.0.None? <==> writeErr.None?
    ensures r.0.None? && Live(t, id) ==> r.1 == t[id - 1 := t[id - 1].(deleted := true)]
    ensures r.0.Some? || !Live(t, id) ==> r.1 == t
  {
    if writeErr.Some? then (Some(Database(writeErr.value)), t)
    else if Live(t, id) then (None, t[id - 1 := t[id - 1].(deleted := true)])
    else (None, t)
  }

  // ---------------------------------------------------------------------
  // Service
  // ---------------------------------------------------------------------

  const ByIdFailure: string := "Ошибка при получении пользавателя по ID"
  const ByEmailFailure: string := "Ошибка при получении пользавателя по Email"

  datatype ServiceError =
      /** Hashing failed; the cause is wrapped. */
    | HashFailed(reason: string)
      /** The insert failed; the cause is wrapped. */
    | CreateFailed(cause: RepoError)
      /** A lookup failed; the repository's error is replaced by a fixed text. */
    | LookupFailed(message: string)
      /** A repository error passed through unchanged. */
    | Repo(cause: RepoError)

  /** dto.CreateUserRequest after binding. */
  datatype CreateRequest = CreateRequest(fullName: string, email: string, password: string, role: string)

  /** The role a new user gets: Client when none is asked for, otherwise the
      requested one as written. */
  function InitialRole(requested: string): (r: string)
    ensures requested == "" ==> r == RoleClient
    ensures requested != "" ==> r == requested
  {
    if requested == "" then RoleClient else requested
  }

  /** userService.Create: hash the password, pick the role, insert. */
  function Create(t: Table, req: CreateRequest, hash: string -> Result<string, string>, writeErr: Option<string>): (r: (Result<User, ServiceError>, Table))
    requires TableWellFormed(t)
    ensures TableWellFormed(r.1)
    ensures hash(req.password).Err? ==> r == (Err(HashFailed(hash(req.password).error)), t)
    ensures r.0.Ok? <==> hash(req.password).Ok? && writeErr.None? && !EmailTaken(t, req.email)
    ensures hash(req.password).Ok? && writeErr.None? && EmailTaken(t, req.email) ==>
      r == (Err(CreateFailed(DuplicateEmail)), t)
    ensures r.0.Err? ==> r.1 == t
    // The stored row: the request's name and email, the hash in place of
    // the password, and the initial role.
    ensures r.0.Ok? ==>
      var u := r.0.value;
      && r.1 == t + [u]
      && u.id == |t| + 1 && !u.deleted
      && u.fullName == req.fullName && u.email == req.email
      && u.passwordHash == hash(req.password).value
      && u.role == InitialRole(req.role)
  {
    match hash(req.password)
    case Err(e) => (Err(HashFailed(e)), t)
    case Ok(h) =>
      var user := User(0, req.fullName, req.email, h, InitialRole(req.role), false);
      var (res, after) := RepoCreate(t, user, writeErr);
      match res
      case Err(e) => (Err(CreateFailed(e)), t)
      case Ok(u) => (Ok(u), after)
  }

  /** userService.GetByID: any repository failure becomes the fixed text. */
  function GetByID(t: Table, id: nat, readErr: Option<string>): (r: Result<User, ServiceError>)
    ensures r.Ok? <==> readErr.None? && Live(t, id)
    ensures r.Ok? ==> r.value == t[id - 1]
    ensures r.Err? ==> r.error == LookupFailed(ByIdFailure)
  {
    match RepoGetByID(t, id, readErr)
    case Err(_) => Err(LookupFailed(ByIdFailure))
    case Ok(u) => Ok(u)
  }

  /** userService.GetByEmail: likewise, with its own fixed text. */
  function GetByEmail(t: Table, email: string, readErr: Option<string>): (r: Result<User, ServiceError>)
    requires TableWellFormed(t)
    ensures r.Ok? <==> readErr.None? && exists i :: 0 <= i < |t| && t[i].email == email && !t[i].deleted
    ensures r.Ok? ==> r.value.email == email && Live(t, r.value.id) && t[r.value.id - 1] == r.value
    ensures r.Err? ==> r.error == LookupFailed(ByEmailFailure)
  {
    match RepoGetByEmail(t, email, readErr)
    case Err(_) => Err(LookupFailed(ByEmailFailure))
    case Ok(u) => Ok(u)
  }

  /** dto.UpdateUserRequest: absent fields are None. */
  datatype UpdateRequest = UpdateRequest(fullName: Option<string>, email: Option<string>, role: Option<string>)

  /** The fields Update copies onto the stored user: name and email when
      given; the requested role is never applied. */
  function Merge(u: User, req: UpdateRequest): (r: User)
    ensures r.fullName == req.fullName.GetOr(u.fullName)
    ensures r.email == req.email.GetOr(u.email)
    ensures r.(fullName := u.fullName, email := u.email) == u
  {
    u.(fullName := req.fullName.GetOr(u.fullName), email := req.email.GetOr(u.email))
  }

  /** userService.Update: lookup (its error returned as is), merge, save. */
  function Update(t: Table, id: nat, req: UpdateRequest, readErr: Option<string>, writeErr: Option<string>): (r: (Result<User, ServiceError>, Table))
    requires TableWellFormed(t)
    ensures TableWellFormed(r.1) && |r.1| == |t|
    ensures readErr.None? && !Live(t, id) ==> r == (Err(Repo(RecordNotFound)), t)
    ensures readErr.Some? ==> r == (Err(Repo(Database(readErr.value))), t)
    ensures r.0.Err? ==> r.1 == t
    ensures r.0.Ok? ==>
      && Live(t, id)
      && r.0.value == Merge(t[id - 1], req)
      && r.0.value.role == t[id - 1].role
      && r.1 == t[id - 1 := r.0.value]
    ensures readErr.None? && Live(t, id) && writeErr.None? ==>
      (r.0.Ok? <==> forall j :: 0 <= j < |t| && j != id - 1 ==> t[j].email != Merge(t[id - 1], req).email)
  {
    match RepoGetByID(t, id, readErr)
    case Err(e) => (Err(Repo(e)), t)
    case Ok(u) =>
      var merged := Merge(u, req);
      var (err, after) := RepoUpdate(t, merged, writeErr);
      if err.Some? then (Err(Repo(err.value)), t) else (Ok(merged), after)
  }

  /** userService.Delete: lookup first, so a missing user is an error and
      no delete is issued. */
  function Delete(t: Table, id: nat, readErr: Option<string>, writeErr: Option<string>): (r: (Option<ServiceError>, Table))
    requires TableWellFormed(t)
    ensures TableWellFormed(r.1)
    ensures readErr.None? && !Live(t, id) ==> r == (Some(Repo(RecordNotFound)), t)
    ensures r.0.None? <==> readErr.None? && writeErr.None? && Live(t, id)
    ensures r.0.Some? ==> r.1 == t
    ensures r.0.None? ==> r.1 == t[id - 1 := t[id - 1].(deleted := true)]
  {
    match RepoGetByID(t, id, readErr)
    case Err(e) => (Some(Repo(e)), t)
    case Ok(_) =>
      var (err, after) := RepoDelete(t, id, writeErr);
      if err.Some? then (Some(Repo(err.value)), t) else (None, after)
  }

  // ---------------------------------------------------------------------
  // Properties
  // ---------------------------------------------------------------------

  /** A registered user can be found again, by id and by email, exactly as
      stored. */
  lemma {:induction false} CreatedUserIsFound(
    t: Table, req: CreateRequest, hash: string -> Result<string, string>)
    requires TableWellFormed(t)
    requires Create(t, req, hash, None).0.Ok?
    ensures
      var (res, after) := Create(t, req, hash, None);
      && GetByID(after, res.value.id, None) == Ok(res.value)
      && GetByEmail(after, req.email, None) == Ok(res.value)
  {
    var (res, after) := Create(t, req, hash, None);
    var u := res.value;
    assert after[|t|] == u;
    assert forall k :: 0 <= k < |t| ==> after[k] == t[k];
    assert !EmailTaken(t, req.email);
    var found := GetByEmail(after, req.email, None);
    assert found.Ok? by {
      assert after[|t|].email == req.email && !after[|t|].deleted;
    }
    assert found.value.id == |t| + 1 by {
      assert forall k :: 0 <= k < |t| ==> after[k].email != req.email;
    }
  }

  /** Updating is idempotent: repeating a successful update with the same
      request changes nothing further. */
  lemma UpdateIdempotent(t: Table, id: nat, req: UpdateRequest)
    requires TableWellFormed(t)
    requires Update(t, id, req, None, None).0.Ok?
    ensures
      var first := Update(t, id, req, None, None);
      var second := Update(first.1, id, req, None, None);
      second.0 == first.0 && second.1 == first.1
  {
    var first := Update(t, id, req, None, None);
    var merged := first.0.value;
    assert first.1[id - 1] == merged;
    assert Merge(merged, req) == merged;
    assert forall j :: 0 <= j < |t| && j != id - 1 ==> first.1[j] == t[j];
  }

  /** After a successful delete the user is gone: lookups fail and a second
      delete reports the user missing without writing. */
  lemma DeletedUserIsGone(t: Table, id: nat)
    requires TableWellFormed(t)
    requires Delete(t, id, None, None).0.None?
    ensures
      var after := Delete(t, id, None, None).1;
      && GetByID(after, id, None) == Err(LookupFailed(ByIdFailure))
      && Delete(after, id, None, None) == (Some(Repo(RecordNotFound)), after)
  {
  }

  /** The two spellings of a role: any role a request may name is stored
      as written, and none of them is one of the model's role names, while
      a request naming no role gets the model's Client. */
  lemma RoleSpellings(role: string)
    requires role in BindableRoles
    ensures InitialRole(role) == role
    ensures role != RoleOwner && role != RoleClient && role != RoleAdmin
    ensures InitialRole("") == RoleClient
  {
  }
}
