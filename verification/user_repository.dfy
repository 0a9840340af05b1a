/** `UserRepository`: the data-access operations on the `users` table. Reads
    return the matching row or None; writes return the new table state next
    to their result, and every failed write leaves the table as it was
    (the transaction is rolled back). */
module UserRepository {
  import opened Wrappers
  import opened Enums
  import opened Values
  import opened UserModel
  import opened UserSchemas
  import opened RepositoryExceptions

  /** The outcome of a write: its result and the table state afterwards. */
  datatype Write<+T> = Write(result: Result<T, RepositoryException>, db: Db)

  function DatabaseError(message: string, details: Dict): RepositoryException {
    RepositoryException(DatabaseOperation, message, details)
  }

  function UserNotFound(id: UserId): RepositoryException {
    RepositoryException(RecordNotFound, "User not found", map["user_id" := Str(id)])
  }

  // ---------------------------------------------------------------- reads

  /** `get_by_id`. */
  function GetById(db: Db, id: UserId): (r: Result<Option<User>, RepositoryException>)
    ensures !db.up ==> r.Err? && r.error.kind == DatabaseOperation
    ensures db.up ==> r.Ok? && (r.value.Some? <==> id in db.rows)
    ensures db.up && id in db.rows ==> r.value == Some(db.rows[id])
  {
    if !db.up then Err(DatabaseError("Failed to load user by id", map["user_id" := Str(id)]))
    else if id in db.rows then Ok(Some(db.rows[id]))
    else Ok(None)
  }

  /** `get_by_email`: the one row with that email, if any. */
  function GetByEmail(db: Db, email: string): (r: Result<Option<User>, RepositoryException>)
    requires Valid(db.rows)
    ensures !db.up ==> r.Err? && r.error.kind == DatabaseOperation
    ensures db.up ==> r.Ok?
    ensures db.up ==> (r.value.Some? <==> exists id :: id in db.rows && db.rows[id].email == email)
    ensures db.up && r.value.Some? ==> r.value.value.id in db.rows && db.rows[r.value.value.id] == r.value.value
                                       && r.value.value.email == email
  {
    if !db.up then Err(DatabaseError("Failed to load user by email", map["email" := Str(email)]))
    else if exists id :: id in db.rows && db.rows[id].email == email then
      var id :| id in db.rows && db.rows[id].email == email;
      Ok(Some(db.rows[id]))
    else Ok(None)
  }

  /** `get_by_github_id`: the one row with that GitHub id, if any. */
  function GetByGithubId(db: Db, githubId: int): (r: Result<Option<User>, RepositoryException>)
    requires Valid(db.rows)
    ensures !db.up ==> r.Err? && r.error.kind == DatabaseOperation
    ensures db.up ==> r.Ok?
    ensures db.up ==> (r.value.Some? <==> exists id :: id in db.rows && db.rows[id].githubId == Some(githubId))
    ensures db.up && r.value.Some? ==> r.value.value.id in db.rows && db.rows[r.value.value.id] == r.value.value
                                       && r.value.value.githubId == Some(githubId)
  {
    if !db.up then Err(DatabaseError("Failed to load user by GitHub id", map["github_id" := Int(githubId)]))
    else if exists id :: id in db.rows && db.rows[id].githubId == Some(githubId) then
      var id :| id in db.rows && db.rows[id].githubId == Some(githubId);
      Ok(Some(db.rows[id]))
    else Ok(None)
  }

  /** Because emails are unique, looking up a row's email finds that very row. */
  lemma GetByEmailFindsRow(db: Db, id: UserId)
    requires Valid(db.rows) && db.up && id in db.rows
    ensures GetByEmail(db, db.rows[id].email) == Ok(Some(db.rows[id]))
  {
    var r := GetByEmail(db, db.rows[id].email);
    var found := r.value.value;
    assert found.id == id by {
      if found.id != id {
        assert Clash(db.rows[found.id], db.rows[id]);
      }
    }
  }

  /** Because GitHub ids are unique, looking up a row's GitHub id finds that very row. */
  lemma GetByGithubIdFindsRow(db: Db, id: UserId)
    requires Valid(db.rows) && db.up && id in db.rows && db.rows[id].githubId.Some?
    ensures GetByGithubId(db, db.rows[id].githubId.value) == Ok(Some(db.rows[id]))
  {
    var r := GetByGithubId(db, db.rows[id].githubId.value);
    var found := r.value.value;
    assert found.id == id by {
      if found.id != id {
        assert Clash(db.rows[found.id], db.rows[id]);
      }
    }
  }

  // --------------------------------------------------------------- create

  /** Some row other than `u`'s own would clash with `u`. */
  predicate ClashesWithOthers(rows: map<UserId, User>, u: User) {
    exists other :: other in rows && other != u.id && Clash(rows[other], u)
  }

  /** The row `create` inserts: the columns of `data`, except that the
      password column takes the given hash (never `data.password`), the given
      token, `is_active` at its default true, and both timestamps `now`. */
  function NewRow(data: UserCreate, hashedPassword: Option<string>, githubAccessToken: Option<string>,
                  newId: UserId, now: int): (u: User)
    ensures u.id == newId && u.email == data.email && u.username == data.username && u.role == data.role
    ensures u.password == hashedPassword && u.githubAccessToken == githubAccessToken
    ensures u.githubUsername == data.githubUsername && u.githubId == data.githubId
    ensures u.isActive && u.createdAt == now && u.updatedAt == now
  {
    User(newId, data.email, hashedPassword, data.username, data.role, githubAccessToken,
         data.githubUsername, data.githubId, true, now, now)
  }

  /** `create(data, hashed_password=..., github_access_token=...)`: inserts one
      row built from `data`, with the given password hash and token (never
      `data.password`), role from `data` and `is_active` true. `newId` and
      `now` stand for the generated UUID and the insertion time. An id or
      unique-column collision raises DuplicateRecordException. */
  function Create(db: Db, data: UserCreate, hashedPassword: Option<string>, githubAccessToken: Option<string>,
                  newId: UserId, now: int): (w: Write<User>)
    requires Valid(db.rows)
    ensures Valid(w.db.rows) && w.db.up == db.up
    ensures w.result.Err? ==> w.db == db
    ensures !db.up ==> w.result.Err? && w.result.error.kind == DatabaseOperation
    ensures db.up && w.result.Err? ==> w.result.error == RepositoryException(DuplicateRecord, "User already exists", map["email" := Str(data.email)])
    ensures w.result.Ok? <==> db.up && newId !in db.rows
                              && !ClashesWithOthers(db.rows, NewRow(data, hashedPassword, githubAccessToken, newId, now))
    ensures w.result.Ok? ==> newId !in db.rows && w.db.rows == db.rows[newId := w.result.value]
    ensures w.result.Ok? ==> w.result.value == NewRow(data, hashedPassword, githubAccessToken, newId, now)
  {
    var row := NewRow(data, hashedPassword, githubAccessToken, newId, now);
    if !db.up then Write(Err(DatabaseError("Failed to create user", map[])), db)
    else if newId in db.rows || ClashesWithOthers(db.rows, row) then
      Write(Err(RepositoryException(DuplicateRecord, "User already exists", map["email" := Str(data.email)])), db)
    else
      Write(Ok(row), db.(rows := db.rows[newId := row]))
  }

  /** A record built from the required fields alone is stored with the
      column defaults: CLIENT, active, no password, no GitHub identity. */
  lemma MinimalCreateTakesColumnDefaults(email: string, username: string, newId: UserId, now: int)
    ensures ValidateUserCreate(map["email" := Str(email), "username" := Str(username)]).Ok?
    ensures NewRow(ValidateUserCreate(map["email" := Str(email), "username" := Str(username)]).value, None, None, newId, now)
         == RowWithDefaults(newId, email, username, now)
  {
  }

  // --------------------------------------------------------------- update

  /** The keyword dictionary of `update`, one entry per column (unset, set to
      null, or set to a value) plus the keys that name no column at all, to
      which `setattr` gives no persisted effect. */
  datatype Fields = Fields(
    email: Patch<string>,
    username: Patch<string>,
    password: Patch<string>,
    role: Patch<UserRole>,
    githubAccessToken: Patch<string>,
    githubUsername: Patch<string>,
    githubId: Patch<int>,
    isActive: Patch<bool>,
    others: set<string>)

  const NoFields := Fields(Keep, Keep, Keep, Keep, Keep, Keep, Keep, Keep, {})

  /** A null written into a NOT NULL column, which the database rejects. */
  predicate NullIntoNotNull(f: Fields) {
    f.email.SetNull? || f.username.SetNull? || f.role.SetNull? || f.isActive.SetNull?
  }

  /** A NOT NULL column after a patch. */
  function Patched<T>(p: Patch<T>, before: T): T
    requires !p.SetNull?
  {
    if p.SetTo? then p.value else before
  }

  /** A nullable column after a patch. */
  function PatchedNullable<T>(p: Patch<T>, before: Option<T>): Option<T> {
    match p
    case Keep => before
    case SetNull => None
    case SetTo(v) => Some(v)
  }

  /** `after` is `before` with exactly the columns of `f` assigned: an unset
      column keeps its value, a set one takes the given value (or NULL), and
      the id and timestamps are untouched. */
  ghost predicate ChangedExactly(before: User, f: Fields, after: User) {
    && after.id == before.id && after.createdAt == before.createdAt && after.updatedAt == before.updatedAt
    && (if f.email.SetTo? then after.email == f.email.value else after.email == before.email)
    && (if f.username.SetTo? then after.username == f.username.value else after.username == before.username)
    && (if f.role.SetTo? then after.role == f.role.value else after.role == before.role)
    && (if f.isActive.SetTo? then after.isActive == f.isActive.value else after.isActive == before.isActive)
    && (match f.password
        case Keep => after.password == before.password
        case SetNull => after.password.None?
        case SetTo(v) => after.password == Some(v))
    && (match f.githubAccessToken
        case Keep => after.githubAccessToken == before.githubAccessToken
        case SetNull => after.githubAccessToken.None?
        case SetTo(v) => after.githubAccessToken == Some(v))
    && (match f.githubUsername
        case Keep => after.githubUsername == before.githubUsername
        case SetNull => after.githubUsername.None?
        case SetTo(v) => after.githubUsername == Some(v))
    && (match f.githubId
        case Keep => after.githubId == before.githubId
        case SetNull => after.githubId.None?
        case SetTo(v) => after.githubId == Some(v))
  }

  /** The `setattr` loop of `update`. */
  function Apply(u: User, f: Fields): (r: User)
    requires !NullIntoNotNull(f)
    ensures ChangedExactly(u, f, r)
  {
    u.(email := Patched(f.email, u.email),
       username := Patched(f.username, u.username),
       password := PatchedNullable(f.password, u.password),
       role := Patched(f.role, u.role),
       githubAccessToken := PatchedNullable(f.githubAccessToken, u.githubAccessToken),
       githubUsername := PatchedNullable(f.githubUsername, u.githubUsername),
       githubId := PatchedNullable(f.githubId, u.githubId),
       isActive := Patched(f.isActive, u.isActive))
  }

  /** Applying no column assignment changes nothing, whatever non-column keys are passed. */
  lemma ApplyOnlyOthersIsIdentity(u: User, others: set<string>)
    ensures Apply(u, NoFields.(others := others)) == u
  {
  }

  /** `update(user_id, fields)`: an absent id raises RecordNotFoundException; a
      null in a NOT NULL column or a unique-column collision raises
      DuplicateRecordException (every IntegrityError is reported so). Either
      way, and on a database failure, the table is unchanged. On success
      exactly that one row changes, in exactly the assigned columns. */
  function Update(db: Db, id: UserId, f: Fields): (w: Write<User>)
    requires Valid(db.rows)
    ensures Valid(w.db.rows) && w.db.up == db.up
    ensures w.result.Err? ==> w.db == db
    ensures !db.up ==> w.result.Err? && w.result.error.kind == DatabaseOperation
    ensures db.up && id !in db.rows ==> w.result == Err(UserNotFound(id))
    ensures db.up && id in db.rows && w.result.Err? ==>
      w.result.error == RepositoryException(DuplicateRecord, "User update conflicts with existing data", map[])
    ensures w.result.Ok? <==>
      db.up && id in db.rows && !NullIntoNotNull(f) && !ClashesWithOthers(db.rows, Apply(db.rows[id], f))
    ensures w.result.Ok? ==> id in db.rows && w.db.rows == db.rows[id := w.result.value]
                             && ChangedExactly(db.rows[id], f, w.result.value)
  {
    if !db.up then Write(Err(DatabaseError("Failed to update user", map["user_id" := Str(id)])), db)
    else if id !in db.rows then Write(Err(UserNotFound(id)), db)
    else if NullIntoNotNull(f) || ClashesWithOthers(db.rows, Apply(db.rows[id], f)) then
      Write(Err(RepositoryException(DuplicateRecord, "User update conflicts with existing data", map[])), db)
    else
      var u := Apply(db.rows[id], f);
      Write(Ok(u), db.(rows := db.rows[id := u]))
  }

  /** `update_github_token`: only the stored GitHub token of that row changes;
      a missing row still raises RecordNotFoundException. */
  function UpdateGithubToken(db: Db, id: UserId, encryptedToken: string): (w: Write<bool>)
    requires Valid(db.rows)
    ensures Valid(w.db.rows)
    ensures w.result.Err? ==> w.db == db
    ensures db.up && id !in db.rows ==> w.result == Err(UserNotFound(id))
    ensures w.result.Ok? <==> db.up && id in db.rows
    ensures w.result.Ok? ==>
      w.result.value && w.db.rows == db.rows[id := db.rows[id].(githubAccessToken := Some(encryptedToken))]
  {
    var w := Update(db, id, NoFields.(githubAccessToken := SetTo(encryptedToken)));
    if w.result.Ok? then
      assert !ClashesWithOthers(db.rows, Apply(db.rows[id], NoFields.(githubAccessToken := SetTo(encryptedToken))));
      Write(Ok(true), w.db)
    else
      Write(Err(w.result.error), w.db)
  }

  // --------------------------------------------------------------- delete

  /** `delete(user_id)`: removes exactly that row and answers true; an absent
      id raises RecordNotFoundException and nothing changes. */
  function Delete(db: Db, id: UserId): (w: Write<bool>)
    requires Valid(db.rows)
    ensures Valid(w.db.rows)
    ensures w.result.Err? ==> w.db == db
    ensures !db.up ==> w.result.Err? && w.result.error.kind == DatabaseOperation
    ensures db.up && id !in db.rows ==> w.result == Err(UserNotFound(id))
    ensures db.up && id in db.rows ==> w.result == Ok(true) && w.db.rows == db.rows - {id}
  {
    if !db.up then Write(Err(DatabaseError("Failed to delete user", map["user_id" := Str(id)])), db)
    else if id !in db.rows then Write(Err(UserNotFound(id)), db)
    else Write(Ok(true), db.(rows := db.rows - {id}))
  }

  /** After a successful delete the row is gone: looking it up finds nothing,
      and a second delete reports it missing. */
  lemma DeleteIsFinal(db: Db, id: UserId)
    requires Valid(db.rows) && db.up && id in db.rows
    ensures GetById(Delete(db, id).db, id) == Ok(None)
    ensures Delete(Delete(db, id).db, id).result == Err(UserNotFound(id))
  {
  }

  // ----------------------------------------------------------------- list

  predicate RoleMatches(u: User, role: Option<UserRole>) {
    role.None? || u.role == role.value
  }

  /** The ids the `role` filter selects. */
  function MatchingIds(rows: map<UserId, User>, role: Option<UserRole>): set<UserId> {
    set id | id in rows && RoleMatches(rows[id], role)
  }

  /** The rows stored under the given ids. */
  function Image(rows: map<UserId, User>, ids: set<UserId>): set<User>
    requires ids <= rows.Keys
  {
    set id | id in ids :: rows[id]
  }

  /** The rows the `role` filter selects. */
  function MatchingRows(rows: map<UserId, User>, role: Option<UserRole>): set<User> {
    Image(rows, MatchingIds(rows, role))
  }

  /** Adding an id adds its row, which is new because rows are keyed by their id. */
  lemma ImageAdd(rows: map<UserId, User>, ids: set<UserId>, id: UserId)
    requires KeyedById(rows)
    requires ids <= rows.Keys && id in rows && id !in ids
    ensures rows[id] !in Image(rows, ids)
    ensures Image(rows, ids + {id}) == Image(rows, ids) + {rows[id]}
  {
  }

  /** `ORDER BY created_at DESC`; rows with equal timestamps may come in any order. */
  predicate NewestFirst(us: seq<User>) {
    forall i, j :: 0 <= i < j < |us| ==> us[i].createdAt >= us[j].createdAt
  }

  /** `us` lists each selected row exactly once, newest first. */
  predicate IsListing(us: seq<User>, rows: map<UserId, User>, role: Option<UserRole>) {
    NewestFirst(us) && multiset(us) == multiset(MatchingRows(rows, role))
  }

  /** `OFFSET (page - 1) * size LIMIT size`. */
  function Window(us: seq<User>, page: nat, size: nat): (r: seq<User>)
    requires page >= 1
    ensures |r| <= size
    ensures size > 0 && (page - 1) * size < |us| ==> |r| > 0
    ensures forall i :: 0 <= i < |r| ==> (page - 1) * size + i < |us| && r[i] == us[(page - 1) * size + i]
  {
    var offset := (page - 1) * size;
    if offset >= |us| then []
    else if offset + size <= |us| then us[offset..offset + size]
    else us[offset..]
  }

  /** Inserts one row into a newest-first sequence. */
  function InsertNewestFirst(u: User, us: seq<User>): (r: seq<User>)
    requires NewestFirst(us)
    ensures NewestFirst(r)
    ensures forall v :: v in r ==> v == u || v in us
    ensures multiset(r) == multiset(us) + multiset{u}
  {
    if |us| == 0 then [u]
    else if u.createdAt >= us[0].createdAt then [u] + us
    else
      var rest := InsertNewestFirst(u, us[1..]);
      assert us == [us[0]] + us[1..];
      assert multiset(us) == multiset{us[0]} + multiset(us[1..]);
      var r := [us[0]] + rest;
      assert forall i :: 0 <= i < |rest| ==> rest[i].createdAt <= us[0].createdAt by {
        forall i | 0 <= i < |rest| ensures rest[i].createdAt <= us[0].createdAt {
          assert rest[i] in rest;
        }
      }
      assert multiset(r) == multiset{us[0]} + multiset(rest);
      r
  }

  /** Distinct ids hold distinct rows, so the selected rows are as many as the selected ids. */
  lemma {:induction false} MatchingRowsCount(rows: map<UserId, User>, ids: set<UserId>)
    requires KeyedById(rows)
    requires ids <= rows.Keys
    ensures |Image(rows, ids)| == |ids|
    decreases |ids|
  {
    if ids != {} {
      var id :| id in ids;
      var smaller := ids - {id};
      MatchingRowsCount(rows, smaller);
      ImageAdd(rows, smaller, id);
      assert smaller + {id} == ids;
    }
  }

  /** Every newest-first listing has one element per selected row. */
  lemma ListingLength(us: seq<User>, rows: map<UserId, User>, role: Option<UserRole>)
    requires Valid(rows)
    requires IsListing(us, rows, role)
    ensures |us| == |MatchingIds(rows, role)|
  {
    MatchingRowsCount(rows, MatchingIds(rows, role));
    assert |multiset(us)| == |us|;
    assert |multiset(MatchingRows(rows, role))| == |MatchingRows(rows, role)|;
  }

  /** Collects the selected rows newest first. */
  method SortedListing(rows: map<UserId, User>, role: Option<UserRole>) returns (us: seq<User>)
    requires KeyedById(rows)
    ensures IsListing(us, rows, role)
  {
    var todo := MatchingIds(rows, role);
    ghost var done: set<UserId> := {};
    us := [];
    while todo != {}
      invariant todo !! done && todo + done == MatchingIds(rows, role)
      invariant NewestFirst(us)
      invariant multiset(us) == multiset(Image(rows, done))
      decreases |todo|
    {
      var id :| id in todo;
      ImageAdd(rows, done, id);
      ghost var before := Image(rows, done);
      assert multiset(before + {rows[id]}) == multiset(before) + multiset{rows[id]};
      us := InsertNewestFirst(rows[id], us);
      todo := todo - {id};
      done := done + {id};
    }
    assert done == MatchingIds(rows, role);
  }

  /** `list_users(page, size, role)`: `total` counts the rows the role filter
      selects, and `items` is the page of those rows, newest first, that skips
      `(page - 1) * size` rows and keeps at most `size`. */
  method ListUsers(db: Db, page: nat, size: nat, role: Option<UserRole>)
    returns (r: Result<(seq<User>, nat), RepositoryException>)
    requires Valid(db.rows)
    requires page >= 1
    ensures !db.up ==> r.Err? && r.error.kind == DatabaseOperation
    ensures db.up ==> r.Ok?
    ensures r.Ok? ==> r.value.1 == |MatchingIds(db.rows, role)|
    ensures r.Ok? ==> exists us :: IsListing(us, db.rows, role) && r.value.0 == Window(us, page, size)
  {
    if !db.up {
      return Err(DatabaseError("Failed to list users", map[]));
    }
    var total := |MatchingIds(db.rows, role)|;
    var us := SortedListing(db.rows, role);
    r := Ok((Window(us, page, size), total));
  }

  /** A page has rows exactly when it starts before the last selected row. */
  lemma PageHasRowsIffInRange(us: seq<User>, rows: map<UserId, User>, role: Option<UserRole>, page: nat, size: nat)
    requires Valid(rows) && IsListing(us, rows, role) && page >= 1 && size > 0
    ensures |Window(us, page, size)| > 0 <==> (page - 1) * size < |MatchingIds(rows, role)|
  {
    ListingLength(us, rows, role);
  }
}
