/** `UserService`: user CRUD for the administration API, translating the
    repository's exceptions into domain exceptions. Password hashing is a
    library call and is a parameter (`hash`) here. */
module UserService {
  import opened Wrappers
  import opened Enums
  import opened Values
  import opened UserModel
  import opened UserSchemas
  import opened RepositoryExceptions
  import opened DomainExceptions
  import opened Failures
  import opened UserRepository

  /** A service call's result and the table state it leaves. */
  datatype Outcome<+T> = Outcome(result: Result<T, Raised>, db: Db)

  function Conflict(message: string): Raised {
    Domain(ConflictError(message))
  }

  function UserMissing(id: UserId): Raised {
    Domain(EntityNotFoundError("user", Some(id), None))
  }

  // ----------------------------------------------------------------- read

  /** `get_user(user_id)`: the public view of that account; an absent id is
      EntityNotFoundError for "user"; a database failure becomes
      ConflictError "Unable to retrieve user". */
  function GetUser(db: Db, id: UserId): (r: Result<UserResponse, Raised>)
    ensures !db.up ==> r == Err(Conflict("Unable to retrieve user"))
    ensures db.up && id !in db.rows ==> r == Err(UserMissing(id))
    ensures r.Ok? <==> db.up && id in db.rows
    ensures r.Ok? ==> r.value == ToResponse(db.rows[id])
  {
    match GetById(db, id)
    case Err(_) => Err(Conflict("Unable to retrieve user"))
    case Ok(None) => Err(UserMissing(id))
    case Ok(Some(u)) => Ok(ToResponse(u))
  }

  /** `PaginatedResponse[UserResponse]`. */
  datatype Paginated = Paginated(items: seq<UserResponse>, total: nat, page: nat, size: nat, pages: nat)

  /** `(total + size - 1) // size if size else 0`: the number of pages of
      `size` rows needed to hold `total` rows, none when `size` is zero. */
  function PageCount(total: nat, size: nat): (pages: nat)
    ensures size == 0 ==> pages == 0
    ensures size > 0 ==> total <= pages * size
    ensures size > 0 && pages > 0 ==> (pages - 1) * size < total
  {
    if size == 0 then 0
    else
      var pages := (total + size - 1) / size;
      assert pages * size <= total + size - 1 < pages * size + size;
      pages
  }

  /** The page count is the ceiling of `total / size`: the least number of
      pages that holds every row. */
  lemma PageCountIsCeiling(total: nat, size: nat, enough: nat)
    requires size > 0 && total <= enough * size
    ensures PageCount(total, size) <= enough
  {
    var p := PageCount(total, size);
    if enough < p {
      MulMonotone(enough, p - 1, size);
    }
  }

  lemma MulMonotone(a: nat, b: nat, c: nat)
    requires a <= b
    ensures a * c <= b * c
  {
  }

  /** Page `page` (counted from 1) holds rows exactly when it is among the
      first `pages` pages. */
  lemma PageInRangeIffWithinPageCount(total: nat, size: nat, page: nat)
    requires size > 0 && page >= 1
    ensures (page - 1) * size < total <==> page <= PageCount(total, size)
  {
    var p := PageCount(total, size);
    if page <= p {
      MulMonotone(page - 1, p - 1, size);
    } else {
      MulMonotone(p, page - 1, size);
    }
  }

  function Responses(us: seq<User>): (rs: seq<UserResponse>)
    ensures |rs| == |us|
    ensures forall i :: 0 <= i < |us| ==> rs[i] == ToResponse(us[i])
  {
    seq(|us|, i requires 0 <= i < |us| => ToResponse(us[i]))
  }

  /** `list_users(page, size, role)`: the repository's page as public views,
      with the requested page and size echoed back, the total of matching
      rows, and the page count for that total. A database failure becomes
      ConflictError "Unable to list users". */
  method ListUsers(db: Db, page: nat, size: nat, role: Option<UserRole>) returns (r: Result<Paginated, Raised>)
    requires Valid(db.rows)
    requires page >= 1
    ensures !db.up ==> r == Err(Conflict("Unable to list users"))
    ensures db.up ==> r.Ok?
    ensures r.Ok? ==> r.value.page == page && r.value.size == size
    ensures r.Ok? ==> r.value.total == |MatchingIds(db.rows, role)|
    ensures r.Ok? ==> r.value.pages == PageCount(r.value.total, size)
    ensures r.Ok? ==> exists us :: IsListing(us, db.rows, role) && r.value.items == Responses(Window(us, page, size))
  {
    var listed := UserRepository.ListUsers(db, page, size, role);
    if listed.Err? {
      return Err(Conflict("Unable to list users"));
    }
    var (users, total) := listed.value;
    ghost var us :| IsListing(us, db.rows, role) && users == Window(us, page, size);
    r := Ok(Paginated(Responses(users), total, page, size, PageCount(total, size)));
  }

  // --------------------------------------------------------------- create

  const EMAIL_EXISTS := "User with this email already exists"

  /** The keyword arguments of the `UserCreate` for a new admin, the display
      name passed under `nameKey`. */
  function AdminKwargs(email: string, name: string, nameKey: string): Dict {
    map["email" := Str(email), nameKey := Str(name), "role" := RoleMember(Admin)]
  }

  /** The row a new admin gets: the given email and name, the hash of the
      password, no GitHub identity, active. */
  function NewAdminRow(email: string, name: string, hashed: string, newId: UserId, now: int): User {
    User(newId, email, Some(hashed), name, Admin, None, None, None, true, now, now)
  }

  /** Admin creation whichever key the name is passed under: the email check
      comes first, so a database failure and a taken email end the same way
      for both, and a success adds exactly one row under `newId`. */
  function CreateAdminWith(db: Db, email: string, name: string, password: string, hash: string -> string,
                           newId: UserId, now: int, nameKey: string): (o: Outcome<UserResponse>)
    requires Valid(db.rows)
    ensures Valid(o.db.rows)
    ensures o.result.Err? ==> o.db == db
    ensures !db.up ==> o.result == Err(Conflict("Unable to create user"))
    ensures db.up && (exists id :: id in db.rows && db.rows[id].email == email) ==> o.result == Err(Conflict(EMAIL_EXISTS))
    ensures o.result.Ok? ==> newId !in db.rows && o.db.rows.Keys == db.rows.Keys + {newId}
  {
    match GetByEmail(db, email)
    case Err(_) => Outcome(Err(Conflict("Unable to create user")), db)
    case Ok(Some(_)) => Outcome(Err(Conflict(EMAIL_EXISTS)), db)
    case Ok(None) =>
      var hashed := hash(password);
      var data := ValidateUserCreate(AdminKwargs(email, name, nameKey));
      if data.Err? then Outcome(Err(Unhandled(data.error)), db)
      else
        var w := Create(db, data.value, Some(hashed), None, newId, now);
        if w.result.Ok? then Outcome(Ok(ToResponse(w.result.value)), w.db)
        else
          var e := w.result.error;
          match e.kind
          case DuplicateRecord => Outcome(Err(Conflict(EMAIL_EXISTS)), w.db)
          case DatabaseOperation => Outcome(Err(Conflict("Unable to create user")), w.db)
          case RecordNotFound => Outcome(Err(Repository(e)), w.db)
  }

  /** `create_admin(email, full_name, password)`, with the name passed to
      `UserCreate` as `username`. A taken email is ConflictError and nothing
      is written; otherwise exactly one ADMIN row is added, holding the hash
      of the password (never the password itself). */
  function CreateAdmin(db: Db, email: string, name: string, password: string, hash: string -> string,
                       newId: UserId, now: int): (o: Outcome<UserResponse>)
    requires Valid(db.rows)
    ensures Valid(o.db.rows)
    ensures o.result.Err? ==> o.db == db
    ensures !db.up ==> o.result == Err(Conflict("Unable to create user"))
    ensures db.up && (exists id :: id in db.rows && db.rows[id].email == email) ==> o.result == Err(Conflict(EMAIL_EXISTS))
    ensures o.result.Ok? <==> db.up && newId !in db.rows && forall id :: id in db.rows ==> db.rows[id].email != email
    ensures o.result.Ok? ==> var row := NewAdminRow(email, name, hash(password), newId, now);
      o.db.rows == db.rows[newId := row] && o.result.value == ToResponse(row)
  {
    if db.up && forall id :: id in db.rows ==> db.rows[id].email != email then
      CreateAdminOnFreeEmail(db, email, name, password, hash, newId, now);
      CreateAdminWith(db, email, name, password, hash, newId, now, "username")
    else
      CreateAdminWith(db, email, name, password, hash, newId, now, "username")
  }

  /** With a free email the intended creation stores the new ADMIN row under
      `newId`, or, when that id is taken, reports the duplicate as a taken
      email and stores nothing. */
  lemma CreateAdminOnFreeEmail(db: Db, email: string, name: string, password: string, hash: string -> string,
                               newId: UserId, now: int)
    requires Valid(db.rows) && db.up
    requires forall id :: id in db.rows ==> db.rows[id].email != email
    ensures var o := CreateAdminWith(db, email, name, password, hash, newId, now, "username");
      var row := NewAdminRow(email, name, hash(password), newId, now);
      if newId in db.rows then o == Outcome(Err(Conflict(EMAIL_EXISTS)), db)
      else o == Outcome(Ok(ToResponse(row)), Db(db.rows[newId := row], true))
  {
    assert GetByEmail(db, email) == Ok(None);
    var data := UserCreate(email, name, None, Admin, None, None);
    assert ValidateUserCreate(AdminKwargs(email, name, "username")) == Ok(data);
    var row := NewAdminRow(email, name, hash(password), newId, now);
    assert NewRow(data, Some(hash(password)), None, newId, now) == row;
    var w := Create(db, data, Some(hash(password)), None, newId, now);
    if newId in db.rows {
      assert w.result.Err? && w.result.error.kind == DuplicateRecord && w.db == db;
    } else {
      assert w.result == Ok(row) && w.db == Db(db.rows[newId := row], true);
    }
  }

  /** `create_admin` as written, passing the name as `full_name`. */
  function CreateAdminAsWritten(db: Db, email: string, name: string, password: string, hash: string -> string,
                                newId: UserId, now: int): (o: Outcome<UserResponse>)
    requires Valid(db.rows)
    ensures Valid(o.db.rows)
    ensures o.result.Err? ==> o.db == db
    ensures !db.up ==> o.result == Err(Conflict("Unable to create user"))
    ensures db.up && (exists id :: id in db.rows && db.rows[id].email == email) ==> o.result == Err(Conflict(EMAIL_EXISTS))
  {
    CreateAdminWith(db, email, name, password, hash, newId, now, "full_name")
  }

  /** As written, creating an admin never succeeds: with a free email the
      `UserCreate` lacks its required `username`, and the validation error
      escapes untranslated. */
  lemma CreateAdminAsWrittenNeverCreates(db: Db, email: string, name: string, password: string,
                                         hash: string -> string, newId: UserId, now: int)
    requires Valid(db.rows) && db.up
    requires forall id :: id in db.rows ==> db.rows[id].email != email
    ensures CreateAdminAsWritten(db, email, name, password, hash, newId, now)
         == Outcome(Err(Unhandled(PYDANTIC_VALIDATION_ERROR)), db)
  {
    assert GetByEmail(db, email) == Ok(None);
  }

  /** Off the create path the two readings agree: with the database down or
      the email taken, the name is never passed to `UserCreate`. */
  lemma CreateAdminAsWrittenAgreesOffCreatePath(db: Db, email: string, name: string, password: string,
                                                hash: string -> string, newId: UserId, now: int)
    requires Valid(db.rows)
    requires !db.up || exists id :: id in db.rows && db.rows[id].email == email
    ensures CreateAdminAsWritten(db, email, name, password, hash, newId, now)
         == CreateAdmin(db, email, name, password, hash, newId, now)
  {
  }

  // --------------------------------------------------------------- update

  /** `update_data.model_dump(exclude_unset=True)`: exactly the fields the
      request set, explicit nulls included, and nothing else. */
  function UpdateFields(uu: UserUpdate): (f: Fields)
    ensures f.email == uu.email && f.username == uu.username && f.isActive == uu.isActive && f.role == uu.role
    ensures f.password.Keep? && f.githubAccessToken.Keep? && f.githubUsername.Keep? && f.githubId.Keep?
    ensures f.others == {}
  {
    NoFields.(email := uu.email, username := uu.username, isActive := uu.isActive, role := uu.role)
  }

  /** `update_user(user_id, update_data)`: an absent id is
      EntityNotFoundError; a unique-column collision or a null in a required
      column is ConflictError "User update conflicts with existing data"; a
      database failure is ConflictError "Unable to update user". On success
      that one row changes in exactly the fields the request set. */
  function UpdateUser(db: Db, id: UserId, uu: UserUpdate): (o: Outcome<UserResponse>)
    requires Valid(db.rows)
    ensures Valid(o.db.rows)
    ensures o.result.Err? ==> o.db == db
    ensures !db.up ==> o.result == Err(Conflict("Unable to update user"))
    ensures db.up && id !in db.rows ==> o.result == Err(UserMissing(id))
    ensures db.up && id in db.rows && o.result.Err? ==> o.result == Err(Conflict("User update conflicts with existing data"))
    ensures o.result.Ok? <==> db.up && id in db.rows && !NullIntoNotNull(UpdateFields(uu))
                              && !ClashesWithOthers(db.rows, Apply(db.rows[id], UpdateFields(uu)))
    ensures o.result.Ok? ==> id in db.rows && o.db.rows == db.rows[id := Apply(db.rows[id], UpdateFields(uu))]
                             && o.result.value == ToResponse(o.db.rows[id])
  {
    match GetById(db, id)
    case Err(_) => Outcome(Err(Conflict("Unable to update user")), db)
    case Ok(None) => Outcome(Err(UserMissing(id)), db)
    case Ok(Some(_)) =>
      var w := Update(db, id, UpdateFields(uu));
      if w.result.Ok? then Outcome(Ok(ToResponse(w.result.value)), w.db)
      else match w.result.error.kind
        case RecordNotFound => Outcome(Err(UserMissing(id)), w.db)
        case DuplicateRecord => Outcome(Err(Conflict("User update conflicts with existing data")), w.db)
        case DatabaseOperation => Outcome(Err(Conflict("Unable to update user")), w.db)
  }

  /** An administrator's update never reaches the password hash or the
      GitHub columns, and never moves a row's id or creation time. */
  lemma UpdateUserKeepsSecrets(db: Db, id: UserId, uu: UserUpdate)
    requires Valid(db.rows)
    requires UpdateUser(db, id, uu).result.Ok?
    ensures var after := UpdateUser(db, id, uu).db.rows[id]; var before := db.rows[id];
      && after.password == before.password && after.githubAccessToken == before.githubAccessToken
      && after.githubUsername == before.githubUsername && after.githubId == before.githubId
      && after.id == before.id && after.createdAt == before.createdAt
  {
  }

  // --------------------------------------------------------------- delete

  /** `delete_user(user_id)`: removes that row; an absent id is
      EntityNotFoundError and a database failure ConflictError "Unable to
      delete user", both leaving the table as it was. */
  function DeleteUser(db: Db, id: UserId): (o: Outcome<()>)
    requires Valid(db.rows)
    ensures Valid(o.db.rows)
    ensures o.result.Err? ==> o.db == db
    ensures !db.up ==> o.result == Err(Conflict("Unable to delete user"))
    ensures db.up && id !in db.rows ==> o.result == Err(UserMissing(id))
    ensures o.result.Ok? <==> db.up && id in db.rows
    ensures o.result.Ok? ==> o.db.rows == db.rows - {id}
  {
    var w := Delete(db, id);
    if w.result.Ok? then Outcome(Ok(()), w.db)
    else
      var e := w.result.error;
      match e.kind
      case RecordNotFound => Outcome(Err(UserMissing(id)), w.db)
      case DatabaseOperation => Outcome(Err(Conflict("Unable to delete user")), w.db)
      case DuplicateRecord => Outcome(Err(Repository(e)), w.db)
  }

  /** Deleting twice: the second call reports the user missing. */
  lemma DeleteUserTwiceReportsMissing(db: Db, id: UserId)
    requires Valid(db.rows) && db.up && id in db.rows
    ensures DeleteUser(DeleteUser(db, id).db, id) == Outcome(Err(UserMissing(id)), DeleteUser(db, id).db)
  {
  }
}
