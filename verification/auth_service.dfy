/** `AuthService`: admin password login, GitHub login (find, merge or create
    the local account), current-user lookup and session-token validation.

    Password verification and token issuing/decoding are cryptographic
    library calls; they are parameters here (`verify`, `issue`, `decode`)
    and nothing is assumed about them. */
module AuthService {
  import opened Wrappers
  import opened Enums
  import opened Values
  import opened UserModel
  import opened UserSchemas
  import opened RepositoryExceptions
  import opened DomainExceptions
  import opened Failures
  import opened UserRepository
  import opened AuthSchemas

  const INVALID_CREDENTIALS := "Invalid email or password"
  const ADMIN_REQUIRED := "Admin access required"
  const ACCOUNT_DEACTIVATED := "Account is deactivated"
  const AUTHENTICATION_FAILED := "Authentication failed"

  /** `not user.password` is false: a non-empty password hash is stored. */
  predicate HasPassword(u: User) {
    u.password.Some? && u.password.value != ""
  }

  /** The account stored under `email`, if any. */
  predicate AccountFor(db: Db, email: string, id: UserId) {
    id in db.rows && db.rows[id].email == email
  }

  function Refuse(e: DomainException): Result<Session, Raised> {
    Err(Domain(e))
  }

  /** `_to_response` and `create_access_token(user.id, user.role.value)`. */
  function IssueSession(u: User, issue: (UserId, string) -> string): (s: Session)
    ensures s.token == issue(u.id, RoleValue(u.role)) && s.user == ToResponse(u)
  {
    Session(issue(u.id, RoleValue(u.role)), ToResponse(u))
  }

  // ---------------------------------------------------------- admin login

  /** The four ordered checks of `authenticate_admin` once the account is
      loaded. `readsPasswordColumn` says whether the password is verified
      against the stored `password` column (the intended reading) or against
      an attribute the user record does not have (the program as written). */
  function AdminChecks(user: Option<User>, password: string, verify: (string, string) -> bool,
                       issue: (UserId, string) -> string, readsPasswordColumn: bool): (r: Result<Session, Raised>)
    ensures r.Ok? <==> user.Some? && HasPassword(user.value) && user.value.role == Admin
                       && readsPasswordColumn && verify(password, user.value.password.value) && user.value.isActive
    ensures r.Ok? ==> r.value.user.id == user.value.id
    ensures user.Some? && HasPassword(user.value) && user.value.role == Admin && !readsPasswordColumn
            ==> r == Err(Unhandled("AttributeError"))
  {
    if user.None? || !HasPassword(user.value) then Refuse(AuthenticationError(INVALID_CREDENTIALS))
    else
      var u := user.value;
      if u.role != Admin then Refuse(AuthorizationError(ADMIN_REQUIRED))
      else if !readsPasswordColumn then Err(Unhandled("AttributeError"))
      else if !verify(password, u.password.value) then Refuse(AuthenticationError(INVALID_CREDENTIALS))
      else if !u.isActive then Refuse(AuthorizationError(ACCOUNT_DEACTIVATED))
      else Ok(IssueSession(u, issue))
  }

  function AdminLogin(db: Db, email: string, password: string, verify: (string, string) -> bool,
                      issue: (UserId, string) -> string, readsPasswordColumn: bool): (r: Result<Session, Raised>)
    requires Valid(db.rows)
    ensures !db.up ==> r == Refuse(AuthenticationError(AUTHENTICATION_FAILED))
    ensures db.up && (forall id :: id in db.rows ==> db.rows[id].email != email)
            ==> r == Refuse(AuthenticationError(INVALID_CREDENTIALS))
  {
    match GetByEmail(db, email)
    case Err(_) => Refuse(AuthenticationError(AUTHENTICATION_FAILED))
    case Ok(user) => AdminChecks(user, password, verify, issue, readsPasswordColumn)
  }

  /** `authenticate_admin(email, password)`, reading the hash from the
      `password` column. An unknown email, an account without a password and
      a wrong password all fail with the same AuthenticationError; a
      credentialed non-admin fails with AuthorizationError before its password
      is looked at; an inactive admin fails with AuthorizationError even with
      the right password; a token is issued only when all four checks pass,
      for that account's id and role. A database failure becomes
      AuthenticationError "Authentication failed". */
  function AuthenticateAdmin(db: Db, email: string, password: string, verify: (string, string) -> bool,
                             issue: (UserId, string) -> string): (r: Result<Session, Raised>)
    requires Valid(db.rows)
    ensures !db.up ==> r == Refuse(AuthenticationError(AUTHENTICATION_FAILED))
    ensures db.up && (forall id :: id in db.rows ==> db.rows[id].email != email) ==> r == Refuse(AuthenticationError(INVALID_CREDENTIALS))
    ensures db.up ==> forall id | AccountFor(db, email, id) :: var u := db.rows[id];
      && (!HasPassword(u) ==> r == Refuse(AuthenticationError(INVALID_CREDENTIALS)))
      && (HasPassword(u) && u.role != Admin ==> r == Refuse(AuthorizationError(ADMIN_REQUIRED)))
      && ((HasPassword(u) && u.role == Admin && !verify(password, u.password.value))
          ==> r == Refuse(AuthenticationError(INVALID_CREDENTIALS)))
      && ((HasPassword(u) && u.role == Admin && verify(password, u.password.value) && !u.isActive)
          ==> r == Refuse(AuthorizationError(ACCOUNT_DEACTIVATED)))
    ensures r.Ok? <==> db.up && exists id | AccountFor(db, email, id) :: var u := db.rows[id];
      HasPassword(u) && u.role == Admin && verify(password, u.password.value) && u.isActive
    ensures r.Ok? ==> AccountFor(db, email, r.value.user.id) && r.value == IssueSession(db.rows[r.value.user.id], issue)
  {
    AdminLogin(db, email, password, verify, issue, true)
  }

  /** `authenticate_admin` exactly as written: it verifies the password
      against `user.hashed_password`, an attribute the user record does not
      have, so every admin with a stored password gets an AttributeError,
      whatever the password and whether or not the account is active. Every
      other attempt ends as the intended login does. */
  function AuthenticateAdminAsWritten(db: Db, email: string, password: string, verify: (string, string) -> bool,
                                      issue: (UserId, string) -> string): (r: Result<Session, Raised>)
    requires Valid(db.rows)
    ensures r.Err?
    ensures db.up ==> forall id | AccountFor(db, email, id) ::
      HasPassword(db.rows[id]) && db.rows[id].role == Admin ==> r == Err(Unhandled("AttributeError"))
    ensures !(db.up && exists id | AccountFor(db, email, id) :: HasPassword(db.rows[id]) && db.rows[id].role == Admin)
            ==> r == AuthenticateAdmin(db, email, password, verify, issue)
  {
    AdminLogin(db, email, password, verify, issue, false)
  }

  /** As written, the login tells credentialed admins apart from unknown
      emails: the first always get an internal error, the second the
      ordinary credentials failure, whatever password is tried. */
  lemma AsWrittenAdminLoginRevealsAdmins(db: Db, id: UserId, unknown: string, password: string, guess: string,
                                         verify: (string, string) -> bool, issue: (UserId, string) -> string)
    requires Valid(db.rows) && db.up && id in db.rows
    requires HasPassword(db.rows[id]) && db.rows[id].role == Admin
    requires forall other :: other in db.rows ==> db.rows[other].email != unknown
    ensures AuthenticateAdminAsWritten(db, db.rows[id].email, password, verify, issue) == Err(Unhandled("AttributeError"))
    ensures AuthenticateAdminAsWritten(db, unknown, guess, verify, issue) == Refuse(AuthenticationError(INVALID_CREDENTIALS))
    ensures AuthenticateAdminAsWritten(db, db.rows[id].email, password, verify, issue)
         != AuthenticateAdminAsWritten(db, unknown, guess, verify, issue)
  {
    GetByEmailFindsRow(db, id);
  }

  /** The as-written login fails with an internal error for an active admin
      giving the right password, where the intended login succeeds. */
  lemma AdminLoginAsWrittenRejectsRightPassword(db: Db, id: UserId, password: string,
                                                verify: (string, string) -> bool, issue: (UserId, string) -> string)
    requires Valid(db.rows) && db.up && id in db.rows
    requires var u := db.rows[id]; HasPassword(u) && u.role == Admin && u.isActive && verify(password, u.password.value)
    ensures AuthenticateAdminAsWritten(db, db.rows[id].email, password, verify, issue) == Err(Unhandled("AttributeError"))
    ensures AuthenticateAdmin(db, db.rows[id].email, password, verify, issue) == Ok(IssueSession(db.rows[id], issue))
  {
    GetByEmailFindsRow(db, id);
  }

  /** No enumeration oracle: a wrong password for an existing admin and an
      unknown email give the very same failure. */
  lemma WrongPasswordLooksLikeUnknownEmail(db: Db, id: UserId, unknown: string, password: string, guess: string,
                                           verify: (string, string) -> bool, issue: (UserId, string) -> string)
    requires Valid(db.rows) && db.up && id in db.rows
    requires var u := db.rows[id]; HasPassword(u) && u.role == Admin && !verify(password, u.password.value)
    requires forall other :: other in db.rows ==> db.rows[other].email != unknown
    ensures AuthenticateAdmin(db, db.rows[id].email, password, verify, issue)
         == AuthenticateAdmin(db, unknown, guess, verify, issue)
  {
    GetByEmailFindsRow(db, id);
  }

  /** A credentialed non-admin is refused on role alone: no password, right
      or wrong, changes the outcome. */
  lemma NonAdminRefusedWhateverPassword(db: Db, id: UserId, p1: string, p2: string,
                                        verify: (string, string) -> bool, issue: (UserId, string) -> string)
    requires Valid(db.rows) && db.up && id in db.rows
    requires HasPassword(db.rows[id]) && db.rows[id].role != Admin
    ensures AuthenticateAdmin(db, db.rows[id].email, p1, verify, issue)
         == AuthenticateAdmin(db, db.rows[id].email, p2, verify, issue)
         == Refuse(AuthorizationError(ADMIN_REQUIRED))
  {
    GetByEmailFindsRow(db, id);
  }

  // --------------------------------------------------------- GitHub login

  /** The GitHub profile fields the login reads; `None` is a missing key. */
  datatype GithubProfile = GithubProfile(id: Option<int>, login: Option<string>, name: Option<string>, email: Option<string>)

  const NOREPLY_DOMAIN := "@users.noreply.github.com"

  /** `github_user_data.get("login", "")`. */
  function GithubLogin(p: GithubProfile): (l: string)
    ensures p.login.Some? ==> l == p.login.value
    ensures p.login.None? ==> l == ""
  {
    p.login.GetOr("")
  }

  /** `github_user_data.get("name") or github_login`. */
  function GithubName(p: GithubProfile): (n: string)
    ensures p.name.Some? && p.name.value != "" ==> n == p.name.value
    ensures p.name.None? || p.name.value == "" ==> n == GithubLogin(p)
  {
    if p.name.Some? && p.name.value != "" then p.name.value else GithubLogin(p)
  }

  /** `github_email or f"{github_login}@users.noreply.github.com"`. */
  function LoginEmail(p: GithubProfile): (e: string)
    ensures p.email.Some? && p.email.value != "" ==> e == p.email.value
    ensures p.email.None? || p.email.value == "" ==> e == GithubLogin(p) + NOREPLY_DOMAIN
  {
    if p.email.Some? && p.email.value != "" then p.email.value else GithubLogin(p) + NOREPLY_DOMAIN
  }

  /** The update of a returning GitHub user. `full_name` names no column, so
      the display name is not stored. */
  function RefreshFields(login: string, token: string): (f: Fields)
    ensures !NullIntoNotNull(f)
  {
    NoFields.(githubAccessToken := SetTo(token), githubUsername := SetTo(login), others := {"full_name"})
  }

  /** Refreshing a returning user sets the GitHub login and token and keeps
      every other column, the display name included. */
  lemma RefreshKeepsAllButLoginAndToken(u: User, login: string, token: string)
    ensures Apply(u, RefreshFields(login, token)) == u.(githubUsername := Some(login), githubAccessToken := Some(token))
  {
  }

  /** The update that attaches a GitHub identity to an existing account. */
  function LinkFields(githubId: int, login: string, token: string): (f: Fields)
    ensures !NullIntoNotNull(f)
  {
    NoFields.(githubId := SetTo(githubId), githubUsername := SetTo(login), githubAccessToken := SetTo(token))
  }

  /** Linking sets the three GitHub columns and keeps every other one. */
  lemma LinkKeepsAllButGithubColumns(u: User, githubId: int, login: string, token: string)
    ensures Apply(u, LinkFields(githubId, login, token))
         == u.(githubId := Some(githubId), githubUsername := Some(login), githubAccessToken := Some(token))
  {
  }

  /** The keyword arguments of the `UserCreate` for a new GitHub user, the
      display name passed under `nameKey`. */
  function NewClientKwargs(email: string, name: string, login: string, githubId: int, nameKey: string): Dict {
    map["email" := Str(email), nameKey := Str(name), "role" := RoleMember(Client),
        "github_username" := Str(login), "github_id" := Int(githubId)]
  }

  /** Passing the name as `username` builds the intended client record. */
  lemma NewClientKwargsValid(email: string, name: string, login: string, githubId: int)
    ensures ValidateUserCreate(NewClientKwargs(email, name, login, githubId, "username"))
         == Ok(UserCreate(email, name, None, Client, Some(login), Some(githubId)))
  {
  }

  /** Passing it as `full_name`, as the program does, leaves the required
      `username` missing, so the record cannot be built. */
  lemma NewClientKwargsAsWrittenInvalid(email: string, name: string, login: string, githubId: int)
    ensures ValidateUserCreate(NewClientKwargs(email, name, login, githubId, "full_name")).Err?
  {
  }

  /** Where resolution ended (the account as re-read, `None` if it has
      vanished), and the table state it left behind. */
  datatype Resolved = Resolved(result: Result<Option<User>, Raised>, db: Db)

  /** Some other row already holds `login` as its GitHub login. */
  predicate LoginTaken(rows: map<UserId, User>, id: UserId, login: string) {
    exists other :: other in rows && other != id && rows[other].githubUsername == Some(login)
  }

  /** `self._repo.get_by_id(id)` after an update of that row. */
  function Reload(w: Write<User>, id: UserId): (o: Resolved)
    requires w.result.Ok? ==> w.result.value.id == id && id in w.db.rows && w.db.rows[id] == w.result.value
    ensures o.db == w.db
    ensures w.result.Err? ==> o.result == Err(Repository(w.result.error))
    ensures w.result.Ok? && w.db.up ==> o.result == Ok(Some(w.result.value))
  {
    if w.result.Err? then Resolved(Err(Repository(w.result.error)), w.db)
    else match GetById(w.db, id)
      case Err(e) => Resolved(Err(Repository(e)), w.db)
      case Ok(u) => Resolved(Ok(u), w.db)
  }

  /** Find-or-merge-or-create. A row with the GitHub id wins; otherwise a row
      with the login email gets the GitHub identity attached; otherwise one
      new CLIENT row is created under `newId`. */
  function ResolveAccount(db: Db, githubId: int, login: string, name: string, email: string, token: string,
                          newId: UserId, now: int, nameKey: string): (o: Resolved)
    requires Valid(db.rows)
    ensures Valid(o.db.rows) && o.db.up == db.up
    ensures o.db.rows.Keys == db.rows.Keys || (newId !in db.rows && o.db.rows.Keys == db.rows.Keys + {newId})
    ensures !db.up ==> o.result.Err? && o.result.error.Repository? && o.result.error.repository.kind == DatabaseOperation
    ensures o.result.Ok? ==> o.result.value.Some? && var u := o.result.value.value;
      && u.id in o.db.rows && o.db.rows[u.id] == u
      && u.githubId == Some(githubId) && u.githubUsername == Some(login) && u.githubAccessToken == Some(token)
  {
    match GetByGithubId(db, githubId)
    case Err(e) => Resolved(Err(Repository(e)), db)
    case Ok(Some(u)) => Reload(Update(db, u.id, RefreshFields(login, token)), u.id)
    case Ok(None) =>
      match GetByEmail(db, email)
      case Err(e) => Resolved(Err(Repository(e)), db)
      case Ok(Some(u)) => Reload(Update(db, u.id, LinkFields(githubId, login, token)), u.id)
      case Ok(None) =>
        var data := ValidateUserCreate(NewClientKwargs(email, name, login, githubId, nameKey));
        if data.Err? then Resolved(Err(Unhandled(data.error)), db)
        else
          var w := Create(db, data.value, None, Some(token), newId, now);
          if w.result.Err? then Resolved(Err(Repository(w.result.error)), w.db)
          else Resolved(Ok(Some(w.result.value)), w.db)
  }

  /** The repository failures GitHub login translates; anything else passes through. */
  function TranslateGithubFailure(e: Raised): (t: Raised)
    ensures e.Repository? && e.repository.kind == DuplicateRecord ==> t == Domain(AuthenticationError("GitHub account conflict"))
    ensures e.Repository? && e.repository.kind != DuplicateRecord ==> t == Domain(AuthenticationError("GitHub authentication failed"))
    ensures !e.Repository? ==> t == e
  {
    if !e.Repository? then e
    else if e.repository.kind == DuplicateRecord then Domain(AuthenticationError("GitHub account conflict"))
    else Domain(AuthenticationError("GitHub authentication failed"))
  }

  /** A login attempt's result and the table state it leaves. */
  datatype LoginOutcome = LoginOutcome(result: Result<Session, Raised>, db: Db)

  /** The GitHub login whichever key the display name is passed under: a
      missing GitHub id is a KeyError, a database failure is the generic
      GitHub failure, and a success is for an active row carrying the
      profile's GitHub id and login and the new token. */
  function GithubLoginWith(db: Db, profile: GithubProfile, token: string, newId: UserId, now: int,
                           issue: (UserId, string) -> string, nameKey: string): (o: LoginOutcome)
    requires Valid(db.rows)
    ensures Valid(o.db.rows) && o.db.up == db.up
    ensures o.db.rows.Keys == db.rows.Keys || (newId !in db.rows && o.db.rows.Keys == db.rows.Keys + {newId})
    ensures profile.id.None? ==> o.result == Err(Unhandled("KeyError")) && o.db == db
    ensures profile.id.Some? && !db.up ==> o.result == Refuse(AuthenticationError("GitHub authentication failed"))
    ensures o.result.Ok? ==> o.result.value.user.id in o.db.rows && var u := o.db.rows[o.result.value.user.id];
      && o.result.value == IssueSession(u, issue) && u.isActive
      && u.githubId == profile.id && u.githubUsername == Some(GithubLogin(profile)) && u.githubAccessToken == Some(token)
  {
    if profile.id.None? then LoginOutcome(Err(Unhandled("KeyError")), db)
    else
      var res := ResolveAccount(db, profile.id.value, GithubLogin(profile), GithubName(profile), LoginEmail(profile),
                                token, newId, now, nameKey);
      if res.result.Err? then LoginOutcome(Err(TranslateGithubFailure(res.result.error)), res.db)
      else if res.result.value.None? || !res.result.value.value.isActive then
        LoginOutcome(Refuse(AuthorizationError(ACCOUNT_DEACTIVATED)), res.db)
      else LoginOutcome(Ok(IssueSession(res.result.value.value, issue)), res.db)
  }

  /** `authenticate_github_user(profile, encrypted_token)`, with the display
      name passed to `UserCreate` as `username`. `newId` and `now` stand for
      the UUID and time of a row it may create. It never leaves two rows for
      one identity: the table stays valid and gains at most the one row
      `newId`. A successful login is for a row carrying the profile's GitHub
      id and login and the new token, and the token issued is for that row. */
  function AuthenticateGithubUser(db: Db, profile: GithubProfile, token: string, newId: UserId, now: int,
                                  issue: (UserId, string) -> string): (o: LoginOutcome)
    requires Valid(db.rows)
    ensures Valid(o.db.rows) && o.db.up == db.up
    ensures o.db.rows.Keys == db.rows.Keys || (newId !in db.rows && o.db.rows.Keys == db.rows.Keys + {newId})
    ensures profile.id.None? ==> o.result == Err(Unhandled("KeyError")) && o.db == db
    ensures profile.id.Some? && !db.up ==> o.result == Refuse(AuthenticationError("GitHub authentication failed"))
    ensures o.result.Ok? ==> o.result.value.user.id in o.db.rows && var u := o.db.rows[o.result.value.user.id];
      && o.result.value == IssueSession(u, issue) && u.isActive
      && u.githubId == profile.id && u.githubUsername == Some(GithubLogin(profile)) && u.githubAccessToken == Some(token)
  {
    GithubLoginWith(db, profile, token, newId, now, issue, "username")
  }

  /** `authenticate_github_user` as written, passing the display name to
      `UserCreate` as `full_name`. */
  function AuthenticateGithubUserAsWritten(db: Db, profile: GithubProfile, token: string, newId: UserId, now: int,
                                           issue: (UserId, string) -> string): (o: LoginOutcome)
    requires Valid(db.rows)
    ensures Valid(o.db.rows) && o.db.up == db.up
    ensures o.db.rows.Keys == db.rows.Keys || (newId !in db.rows && o.db.rows.Keys == db.rows.Keys + {newId})
    ensures profile.id.None? ==> o.result == Err(Unhandled("KeyError")) && o.db == db
    ensures profile.id.Some? && !db.up ==> o.result == Refuse(AuthenticationError("GitHub authentication failed"))
    ensures o.result.Ok? ==> o.result.value.user.id in o.db.rows && var u := o.db.rows[o.result.value.user.id];
      && o.result.value == IssueSession(u, issue) && u.isActive
      && u.githubId == profile.id && u.githubUsername == Some(GithubLogin(profile)) && u.githubAccessToken == Some(token)
  {
    GithubLoginWith(db, profile, token, newId, now, issue, "full_name")
  }

  /** As written, a first-time GitHub user can never log in: building the
      new account's record fails before anything is stored. */
  lemma FirstGithubLoginAsWrittenFails(db: Db, profile: GithubProfile, token: string, newId: UserId, now: int,
                                       issue: (UserId, string) -> string)
    requires Valid(db.rows) && db.up && profile.id.Some?
    requires forall id :: id in db.rows ==> db.rows[id].githubId != profile.id && db.rows[id].email != LoginEmail(profile)
    ensures AuthenticateGithubUserAsWritten(db, profile, token, newId, now, issue)
         == LoginOutcome(Err(Unhandled(PYDANTIC_VALIDATION_ERROR)), db)
  {
    var p := profile;
    assert GetByGithubId(db, p.id.value) == Ok(None);
    assert GetByEmail(db, LoginEmail(p)) == Ok(None);
    var data := ValidateUserCreate(NewClientKwargs(LoginEmail(p), GithubName(p), GithubLogin(p), p.id.value, "full_name"));
    NewClientKwargsAsWrittenInvalid(LoginEmail(p), GithubName(p), GithubLogin(p), p.id.value);
    assert data == Err(PYDANTIC_VALIDATION_ERROR);
  }

  /** Off the create path the two readings agree: when a row already holds
      the profile's GitHub id or login email, or the database is down, the
      display name is never passed to `UserCreate`, so the as-written login
      ends exactly as the intended one. */
  lemma AsWrittenGithubLoginAgreesOnKnownAccount(db: Db, id: UserId, profile: GithubProfile, token: string,
                                                 newId: UserId, now: int, issue: (UserId, string) -> string)
    requires Valid(db.rows) && id in db.rows && profile.id.Some?
    requires !db.up || db.rows[id].githubId == profile.id || db.rows[id].email == LoginEmail(profile)
    ensures AuthenticateGithubUserAsWritten(db, profile, token, newId, now, issue)
         == AuthenticateGithubUser(db, profile, token, newId, now, issue)
  {
    var p := profile;
    if db.up {
      if db.rows[id].githubId == p.id {
        GetByGithubIdFindsRow(db, id);
      } else {
        GetByEmailFindsRow(db, id);
      }
    }
    assert ResolveAccount(db, p.id.value, GithubLogin(p), GithubName(p), LoginEmail(p), token, newId, now, "full_name")
        == ResolveAccount(db, p.id.value, GithubLogin(p), GithubName(p), LoginEmail(p), token, newId, now, "username");
  }

  /** A returning GitHub user is matched by GitHub id: that row keeps its id
      and every column except the GitHub login and token, which take the
      profile's values; no row is added. The login succeeds exactly when the
      account is active, and fails as a conflict exactly when another row
      already holds the login. */
  lemma GithubIdMatchWins(db: Db, id: UserId, profile: GithubProfile, token: string, newId: UserId, now: int,
                          issue: (UserId, string) -> string)
    requires Valid(db.rows) && db.up && id in db.rows
    requires profile.id.Some? && db.rows[id].githubId == profile.id
    ensures var o := AuthenticateGithubUser(db, profile, token, newId, now, issue);
      if LoginTaken(db.rows, id, GithubLogin(profile)) then
        o.result == Refuse(AuthenticationError("GitHub account conflict")) && o.db == db
      else
        && o.db.rows == db.rows[id := db.rows[id].(githubUsername := Some(GithubLogin(profile)),
                                                    githubAccessToken := Some(token))]
        && (o.result.Ok? <==> db.rows[id].isActive)
        && (o.result.Ok? ==> o.result.value.user.id == id)
        && (o.result.Err? ==> o.result == Refuse(AuthorizationError(ACCOUNT_DEACTIVATED)))
  {
    GetByGithubIdFindsRow(db, id);
    var login := GithubLogin(profile);
    var u := db.rows[id];
    var after := Apply(u, RefreshFields(login, token));
    assert after == u.(githubUsername := Some(login), githubAccessToken := Some(token));
    if !LoginTaken(db.rows, id, login) {
      assert !ClashesWithOthers(db.rows, after) by {
        forall other | other in db.rows && other != id ensures !Clash(db.rows[other], after) {
          assert !Clash(db.rows[other], u);
        }
      }
    } else {
      var other :| other in db.rows && other != id && db.rows[other].githubUsername == Some(login);
      assert Clash(db.rows[other], after);
    }
  }

  /** A GitHub identity new to the table, whose login email names an existing
      account, is attached to that account (GitHub id, login and token set,
      every other column kept) rather than creating a second one. */
  lemma EmailMatchLinks(db: Db, id: UserId, profile: GithubProfile, token: string, newId: UserId, now: int,
                        issue: (UserId, string) -> string)
    requires Valid(db.rows) && db.up && id in db.rows && profile.id.Some?
    requires forall other :: other in db.rows ==> db.rows[other].githubId != profile.id
    requires db.rows[id].email == LoginEmail(profile)
    requires !LoginTaken(db.rows, id, GithubLogin(profile))
    ensures var o := AuthenticateGithubUser(db, profile, token, newId, now, issue);
      && o.db.rows == db.rows[id := db.rows[id].(githubId := profile.id, githubUsername := Some(GithubLogin(profile)),
                                                  githubAccessToken := Some(token))]
      && (o.result.Ok? <==> db.rows[id].isActive)
      && (o.result.Ok? ==> o.result.value.user.id == id)
      && (o.result.Err? ==> o.result == Refuse(AuthorizationError(ACCOUNT_DEACTIVATED)))
  {
    GetByEmailFindsRow(db, id);
    var login := GithubLogin(profile);
    var u := db.rows[id];
    var after := Apply(u, LinkFields(profile.id.value, login, token));
    assert after == u.(githubId := profile.id, githubUsername := Some(login), githubAccessToken := Some(token));
    assert !ClashesWithOthers(db.rows, after) by {
      forall other | other in db.rows && other != id ensures !Clash(db.rows[other], after) {
        assert !Clash(db.rows[other], u);
      }
    }
  }

  /** An account found by login email whose GitHub login another row
      already holds cannot take the login: the update is refused as a
      duplicate, reported as a GitHub account conflict, and nothing is
      stored. Either reading of the display-name key ends this way. */
  lemma EmailMatchLoginTakenConflicts(db: Db, id: UserId, profile: GithubProfile, token: string, newId: UserId,
                                      now: int, issue: (UserId, string) -> string, nameKey: string)
    requires Valid(db.rows) && db.up && id in db.rows && profile.id.Some?
    requires forall other :: other in db.rows ==> db.rows[other].githubId != profile.id
    requires db.rows[id].email == LoginEmail(profile)
    requires LoginTaken(db.rows, id, GithubLogin(profile))
    ensures GithubLoginWith(db, profile, token, newId, now, issue, nameKey)
         == LoginOutcome(Refuse(AuthenticationError("GitHub account conflict")), db)
  {
    var p := profile;
    var login := GithubLogin(p);
    assert GetByGithubId(db, p.id.value) == Ok(None);
    GetByEmailFindsRow(db, id);
    var f := LinkFields(p.id.value, login, token);
    var other :| other in db.rows && other != id && db.rows[other].githubUsername == Some(login);
    assert Clash(db.rows[other], Apply(db.rows[id], f));
    var w := Update(db, id, f);
    assert w.result.Err? && w.result.error.kind == DuplicateRecord && w.db == db;
    assert ResolveAccount(db, p.id.value, login, GithubName(p), LoginEmail(p), token, newId, now, nameKey)
        == Resolved(Err(Repository(w.result.error)), db);
  }

  /** A profile new by GitHub id and email, whose login another row already
      holds, cannot be stored: the insert is refused as a duplicate, reported
      as a GitHub account conflict, and nothing is stored. */
  lemma NovelProfileLoginTakenConflicts(db: Db, holder: UserId, profile: GithubProfile, token: string,
                                        newId: UserId, now: int, issue: (UserId, string) -> string)
    requires Valid(db.rows) && db.up && profile.id.Some? && holder in db.rows
    requires forall id :: id in db.rows ==> db.rows[id].githubId != profile.id && db.rows[id].email != LoginEmail(profile)
    requires db.rows[holder].githubUsername == Some(GithubLogin(profile))
    ensures AuthenticateGithubUser(db, profile, token, newId, now, issue)
         == LoginOutcome(Refuse(AuthenticationError("GitHub account conflict")), db)
  {
    var p := profile;
    assert GetByGithubId(db, p.id.value) == Ok(None);
    assert GetByEmail(db, LoginEmail(p)) == Ok(None);
    NewClientKwargsValid(LoginEmail(p), GithubName(p), GithubLogin(p), p.id.value);
    var data := UserCreate(LoginEmail(p), GithubName(p), None, Client, Some(GithubLogin(p)), p.id);
    assert Clash(db.rows[holder], NewRow(data, None, Some(token), newId, now));
    var w := Create(db, data, None, Some(token), newId, now);
    assert w.result.Err? && w.result.error.kind == DuplicateRecord && w.db == db;
    assert ResolveAccount(db, p.id.value, GithubLogin(p), GithubName(p), LoginEmail(p), token, newId, now, "username")
        == Resolved(Err(Repository(w.result.error)), db);
  }

  /** The account a first-time GitHub user gets: a CLIENT row under the new
      id, named after the profile, with no password. */
  function NewGithubClient(profile: GithubProfile, token: string, newId: UserId, now: int): User
    requires profile.id.Some?
  {
    User(newId, LoginEmail(profile), None, GithubName(profile), Client, Some(token), Some(GithubLogin(profile)),
         profile.id, true, now, now)
  }

  /** A profile matching no row by GitHub id, email or login creates exactly
      one new active CLIENT row, and the session issued is for it. */
  lemma NovelProfileCreatesClient(db: Db, profile: GithubProfile, token: string, newId: UserId, now: int,
                                  issue: (UserId, string) -> string)
    requires Valid(db.rows) && db.up && profile.id.Some? && newId !in db.rows
    requires forall id :: id in db.rows ==>
      && db.rows[id].githubId != profile.id
      && db.rows[id].email != LoginEmail(profile)
      && db.rows[id].githubUsername != Some(GithubLogin(profile))
    ensures var o := AuthenticateGithubUser(db, profile, token, newId, now, issue);
      && o.db.rows == db.rows[newId := NewGithubClient(profile, token, newId, now)]
      && o.result == Ok(IssueSession(NewGithubClient(profile, token, newId, now), issue))
  {
    var p := profile;
    NewClientKwargsValid(LoginEmail(p), GithubName(p), GithubLogin(p), p.id.value);
    var data := UserCreate(LoginEmail(p), GithubName(p), None, Client, Some(GithubLogin(p)), p.id);
    assert NewRow(data, None, Some(token), newId, now) == NewGithubClient(p, token, newId, now);
  }

  /** Logging in again with the same GitHub profile reaches the same account
      and adds no row, whatever new id is on offer. */
  lemma SecondLoginSameAccount(db: Db, profile: GithubProfile, t1: string, t2: string, id1: UserId, id2: UserId,
                               now1: int, now2: int, issue: (UserId, string) -> string)
    requires Valid(db.rows)
    requires AuthenticateGithubUser(db, profile, t1, id1, now1, issue).result.Ok?
    ensures var o1 := AuthenticateGithubUser(db, profile, t1, id1, now1, issue);
      var o2 := AuthenticateGithubUser(o1.db, profile, t2, id2, now2, issue);
      && o2.result.Ok? && o2.result.value.user.id == o1.result.value.user.id
      && o2.db.rows.Keys == o1.db.rows.Keys
  {
    var o1 := AuthenticateGithubUser(db, profile, t1, id1, now1, issue);
    var id := o1.result.value.user.id;
    assert o1.db.up;
    var u := o1.db.rows[id];
    assert !LoginTaken(o1.db.rows, id, GithubLogin(profile)) by {
      forall other | other in o1.db.rows && other != id ensures o1.db.rows[other].githubUsername != Some(GithubLogin(profile)) {
        assert !Clash(o1.db.rows[other], u);
      }
    }
    GithubIdMatchWins(o1.db, id, profile, t2, id2, now2, issue);
  }

  // -------------------------------------------------------------- helpers

  const UNABLE_TO_RETRIEVE_CURRENT_USER := "Unable to retrieve current user"
  const INVALID_OR_EXPIRED_TOKEN := "Invalid or expired token"

  /** `get_user_by_id(user_id)`: the public view of that account; an absent
      id is EntityNotFoundError for "user", and a database failure becomes
      AuthenticationError "Unable to retrieve current user". */
  function GetUserById(db: Db, id: UserId): (r: Result<UserResponse, Raised>)
    ensures !db.up ==> r == Err(Domain(AuthenticationError(UNABLE_TO_RETRIEVE_CURRENT_USER)))
    ensures db.up && id !in db.rows ==> r == Err(Domain(EntityNotFoundError("user", Some(id), None)))
    ensures r.Ok? <==> db.up && id in db.rows
    ensures r.Ok? ==> r.value == ToResponse(db.rows[id])
  {
    match GetById(db, id)
    case Err(_) => Err(Domain(AuthenticationError(UNABLE_TO_RETRIEVE_CURRENT_USER)))
    case Ok(None) => Err(Domain(EntityNotFoundError("user", Some(id), None)))
    case Ok(Some(u)) => Ok(ToResponse(u))
  }

  /** `validate_access_token(token)`: the decoded payload, or
      AuthenticationError "Invalid or expired token" when decoding yields
      nothing. `decode` stands for the JWT decoder. */
  function ValidateAccessToken(decode: string -> Option<TokenPayload>, token: string): (r: Result<TokenPayload, Raised>)
    ensures r.Ok? <==> decode(token).Some?
    ensures r.Ok? ==> r.value == decode(token).value
    ensures r.Err? ==> r.error == Domain(AuthenticationError(INVALID_OR_EXPIRED_TOKEN))
  {
    match decode(token)
    case None => Err(Domain(AuthenticationError(INVALID_OR_EXPIRED_TOKEN)))
    case Some(p) => Ok(p)
  }
}
