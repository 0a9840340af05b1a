/** The `users` table: its columns, and the constraints the database
    enforces on every state of the table. */
module UserModel {
  import opened Wrappers
  import opened Enums

  /** A user's primary key, a UUID in its `str` form. */
  type UserId = string

  /** One row of `users`; the same shape is the internal `UserInternal` record.
      `email` and `username` are NOT NULL, `password` (the password hash) and
      the three GitHub columns are nullable, `role` and `is_active` are NOT NULL. */
  datatype User = User(
    id: UserId,
    email: string,
    password: Option<string>,
    username: string,
    role: UserRole,
    githubAccessToken: Option<string>,
    githubUsername: Option<string>,
    githubId: Option<int>,
    isActive: bool,
    createdAt: int,
    updatedAt: int)

  /** Two rows a unique column forbids from coexisting: the same email, or the
      same GitHub login or GitHub id when present (NULLs never collide). */
  predicate Clash(a: User, b: User) {
    || a.email == b.email
    || (a.githubUsername.Some? && a.githubUsername == b.githubUsername)
    || (a.githubId.Some? && a.githubId == b.githubId)
  }

  /** Every table state the database admits: rows are keyed by their id and
      no two rows clash. */
  predicate Valid(rows: map<UserId, User>) {
    KeyedById(rows) && NoClashes(rows)
  }

  /** Every row is stored under its own id. */
  predicate KeyedById(rows: map<UserId, User>) {
    forall id :: id in rows ==> rows[id].id == id
  }

  /** No two rows clash on a unique column. */
  predicate NoClashes(rows: map<UserId, User>) {
    forall a, b :: a in rows && b in rows && a != b ==> !Clash(rows[a], rows[b])
  }

  /** What validity buys: in a valid table a row's id is its key, and an
      email, a GitHub login or a GitHub id names at most one row. */
  lemma ValidColumnsIdentifyRows(rows: map<UserId, User>, a: UserId, b: UserId)
    requires Valid(rows) && a in rows && b in rows
    ensures rows[a].id == a
    ensures rows[a].email == rows[b].email ==> a == b
    ensures rows[a].githubUsername.Some? && rows[a].githubUsername == rows[b].githubUsername ==> a == b
    ensures rows[a].githubId.Some? && rows[a].githubId == rows[b].githubId ==> a == b
  {
  }

  /** The database as the repository sees it: the table, and whether the
      connection works. When `up` is false every statement raises an
      SQLAlchemy error. */
  datatype Db = Db(rows: map<UserId, User>, up: bool)

  /** A row inserted with only the given columns: `role` and `is_active`
      take their column defaults (CLIENT, true). */
  function RowWithDefaults(id: UserId, email: string, username: string, now: int): (u: User)
    ensures u.role == Client && u.isActive
    ensures u.password.None? && u.githubAccessToken.None? && u.githubUsername.None? && u.githubId.None?
  {
    User(id, email, None, username, Client, None, None, None, true, now, now)
  }
}
