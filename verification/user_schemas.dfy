/** The request, response and internal shapes of a user. `UserInternal` is
    `UserModel.User` itself. */
module UserSchemas {
  import opened Wrappers
  import opened Enums
  import opened Values
  import opened UserModel

  /** The input to `UserRepository.create`. */
  datatype UserCreate = UserCreate(
    email: string,
    username: string,
    password: Option<string>,
    role: UserRole,
    githubUsername: Option<string>,
    githubId: Option<int>)

  /** One optional field of a partial update: left unset, explicitly set to
      `null`, or set to a value. */
  datatype Patch<+T> = Keep | SetNull | SetTo(value: T)

  /** `UserUpdate`: the only fields a client may change. */
  datatype UserUpdate = UserUpdate(
    email: Patch<string>,
    username: Patch<string>,
    isActive: Patch<bool>,
    role: Patch<UserRole>)

  /** `UserResponse`: the public representation, without the password hash,
      the GitHub token or the GitHub id. */
  datatype UserResponse = UserResponse(
    id: UserId,
    email: string,
    username: string,
    role: UserRole,
    githubUsername: Option<string>,
    isActive: bool,
    createdAt: int,
    updatedAt: int)

  /** `UserResponse.model_validate(user.model_dump())`: the public projection. */
  function ToResponse(u: User): (r: UserResponse)
    ensures r.id == u.id && r.email == u.email && r.username == u.username && r.role == u.role
    ensures r.githubUsername == u.githubUsername && r.isActive == u.isActive
    ensures r.createdAt == u.createdAt && r.updatedAt == u.updatedAt
  {
    UserResponse(u.id, u.email, u.username, u.role, u.githubUsername, u.isActive, u.createdAt, u.updatedAt)
  }

  /** The projection reveals nothing of the secret columns: two rows that
      differ only in them look the same from outside. */
  lemma ResponseHidesSecrets(u: User, password: Option<string>, token: Option<string>, ghId: Option<int>)
    ensures ToResponse(u.(password := password, githubAccessToken := token, githubId := ghId)) == ToResponse(u)
  {
  }

  /** The pydantic error raised when a model cannot be built from its arguments. */
  const PYDANTIC_VALIDATION_ERROR := "pydantic.ValidationError"

  function OptionalString(kwargs: Dict, key: string): Result<Option<string>, string> {
    if key !in kwargs then Ok(None)
    else match kwargs[key]
      case Null => Ok(None)
      case Str(s) => Ok(Some(s))
      case _ => Err(PYDANTIC_VALIDATION_ERROR)
  }

  function OptionalInt(kwargs: Dict, key: string): Result<Option<int>, string> {
    if key !in kwargs then Ok(None)
    else match kwargs[key]
      case Null => Ok(None)
      case Int(i) => Ok(Some(i))
      case _ => Err(PYDANTIC_VALIDATION_ERROR)
  }

  function RoleOrClient(kwargs: Dict): Result<UserRole, string> {
    if "role" !in kwargs then Ok(Client)
    else match kwargs["role"]
      case RoleMember(r) => Ok(r)
      case Str(s) => if RoleFromValue(s).Some? then Ok(RoleFromValue(s).value) else Err(PYDANTIC_VALIDATION_ERROR)
      case _ => Err(PYDANTIC_VALIDATION_ERROR)
  }

  /** `UserCreate(**kwargs)`: `email` and `username` are required strings;
      `password`, `github_username` and `github_id` default to None and `role`
      to CLIENT; keyword arguments that are not fields are ignored. */
  function ValidateUserCreate(kwargs: Dict): (r: Result<UserCreate, string>)
    ensures r.Ok? <==>
      && "email" in kwargs && kwargs["email"].Str?
      && "username" in kwargs && kwargs["username"].Str?
      && OptionalString(kwargs, "password").Ok?
      && RoleOrClient(kwargs).Ok?
      && OptionalString(kwargs, "github_username").Ok?
      && OptionalInt(kwargs, "github_id").Ok?
    ensures r.Ok? ==> r.value.email == kwargs["email"].s && r.value.username == kwargs["username"].s
    ensures r.Ok? && "role" !in kwargs ==> r.value.role == Client
    ensures r.Ok? && "password" !in kwargs ==> r.value.password.None?
    ensures r.Ok? && "github_username" !in kwargs ==> r.value.githubUsername.None?
    ensures r.Ok? && "github_id" !in kwargs ==> r.value.githubId.None?
    ensures r.Err? ==> r.error == PYDANTIC_VALIDATION_ERROR
  {
    if "email" !in kwargs || !kwargs["email"].Str? then Err(PYDANTIC_VALIDATION_ERROR)
    else if "username" !in kwargs || !kwargs["username"].Str? then Err(PYDANTIC_VALIDATION_ERROR)
    else
      var password := OptionalString(kwargs, "password");
      var role := RoleOrClient(kwargs);
      var ghUser := OptionalString(kwargs, "github_username");
      var ghId := OptionalInt(kwargs, "github_id");
      if password.Err? || role.Err? || ghUser.Err? || ghId.Err? then Err(PYDANTIC_VALIDATION_ERROR)
      else Ok(UserCreate(kwargs["email"].s, kwargs["username"].s, password.value, role.value, ghUser.value, ghId.value))
  }
}
