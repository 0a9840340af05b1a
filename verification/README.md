# RefactorIQ backend: users, authentication and the access gate

A Dafny model of the core of the RefactorIQ backend, a FastAPI service. It
covers:

- the `users` table and its repository;
- the user-administration service;
- admin password login and GitHub login (find, link or create the local
  account);
- the access gate: the session cookie, the request-state payload, and the
  role-to-permission table;
- the domain exceptions and the HTTP error handlers;
- the GitHub authorization URL and the check of GitHub's token response;
- the `Link`-header paging loop that lists a user's GitHub repositories.

The database is a value `Db(rows, up)`. `rows` maps a user id to its row.
`up == false` stands for a connection on which every statement raises an
SQLAlchemy error. Every table state satisfies `UserModel.Valid`: rows are
keyed by their id, and no two rows share an email, a GitHub login or a
GitHub id. Writes return the new state next to their result. A failed write
leaves the state unchanged, which models the rollback.

Some parts are library calls, and they are function parameters here:

- password verification and hashing (`verify`, `hash`);
- JWT issuing and decoding (`issue`, `decode`);
- percent-encoding (`quote`, `unquote`);
- the HTTP client (`get`);
- the new row's UUID and time (`newId`, `now`).

No property of those libraries is assumed.

Anything a call lets escape is a `Failures.Raised` value:

- a domain exception;
- a repository exception;
- an unhandled Python error, named by its type.

`ExceptionsHandler.Respond` turns any of them into the HTTP error response.

Where the code and its documentation disagree, the model follows the code.

- A GitHub login for a deactivated account fails with AuthorizationError,
  not AuthenticationError.
- The `full_name` key that the GitHub refresh passes to `update` names no
  column, so the display name is not refreshed.
- The auth middleware does not catch a failed token validation. A request
  whose cookie does not decode therefore never reaches the route (see
  Findings).

Several program defects make as-written paths always fail (see Findings). In
each case, both the program as written and the evidently intended behaviour
are modelled. The rest of the model uses the intended one.

## Model

| member | source | states |
|---|---|---|
| Enums.RoleFromValue | app/core/enums.py:6-8 | a role string maps to the member with that value, and only "admin" and "client" map to any member |
| Enums.RoleValueRoundTrip | app/core/enums.py:6-8 | every role is recovered from its string value |
| UserModel.Clash | app/models/auth.py:18-38 | two rows clash when they share an email, or share a GitHub login or GitHub id that is present; NULLs never clash |
| UserModel.KeyedById | app/models/auth.py:15 | every row is stored under its own UUID primary key |
| UserModel.NoClashes | app/models/auth.py:18-38 | no two distinct rows clash on a unique column |
| UserModel.Valid | app/models/auth.py:15-38 | a table state the database admits: keyed by id, and unique on email, GitHub login and GitHub id |
| UserModel.ValidColumnsIdentifyRows | app/models/auth.py:18-38 | in a valid table an email, a present GitHub login or a present GitHub id names at most one row, and each row's id is its key |
| UserModel.RowWithDefaults | app/models/auth.py:15-40 | a row inserted without role, active flag, password or GitHub columns is a CLIENT row, active, with those columns NULL |
| UserSchemas.ToResponse | app/schemas/user.py:33-45 | the public view carries id, email, username, role, GitHub login, active flag and both timestamps of the row |
| UserSchemas.ResponseHidesSecrets | app/schemas/user.py:33-45 | rows differing only in password hash, GitHub token or GitHub id have the same public view |
| UserSchemas.ValidateUserCreate | app/schemas/user.py:14-20 | `UserCreate(**kwargs)` succeeds iff email and username are present strings and the optional fields are well typed; an absent role is CLIENT and absent optional fields are None; otherwise pydantic's ValidationError |
| DomainExceptions.NewDomainException | app/core/exceptions/domain_exceptions.py:6-12 | missing or empty details become `{}`; other details, the message and the class are kept |
| DomainExceptions.ValidationError | app/core/exceptions/domain_exceptions.py:15-23 | the message defaults to "Validation failed"; details are exactly `{"fields": field_errors or {}}` |
| DomainExceptions.EntityNotFoundError | app/core/exceptions/domain_exceptions.py:34-49 | details always name the entity type and name the id iff one is given; an absent or empty message falls back to "<Type> not found" with the type capitalized |
| DomainExceptions.UserNotFoundMessage | app/core/exceptions/domain_exceptions.py:34-49 | every user lookup failure says "User not found" |
| DomainExceptions.ExternalServiceError | app/core/exceptions/domain_exceptions.py:56-68 | details are `{"service": service}` with the caller's details merged over them, caller keys winning |
| UserRepository.GetById | app/users/repositories/repository.py:24-33 | the row under that id or None; a database failure is DatabaseOperationException |
| UserRepository.GetByEmail | app/users/repositories/repository.py:35-44 | a row is found iff some row has that email, and the row found is stored with it; a database failure is DatabaseOperationException |
| UserRepository.GetByGithubId | app/users/repositories/repository.py:46-55 | a row is found iff some row has that GitHub id, and the row found is stored with it; a database failure is DatabaseOperationException |
| UserRepository.GetByEmailFindsRow | app/users/repositories/repository.py:35-44 | since emails are unique, looking up a row's email returns that very row |
| UserRepository.GetByGithubIdFindsRow | app/users/repositories/repository.py:46-55 | since GitHub ids are unique, looking up a row's GitHub id returns that very row |
| UserRepository.NewRow | app/users/repositories/repository.py:65-73 | the inserted row takes email, username, role and GitHub login and id from the data, the password column from the given hash (never the data's password), the given token, is active, and both timestamps are the insertion time |
| UserRepository.Create | app/users/repositories/repository.py:58-87 | the insert succeeds iff the database is up, the id is fresh and no row clashes on a unique column; success adds exactly that row; a collision is DuplicateRecordException "User already exists" and changes nothing |
| UserRepository.MinimalCreateTakesColumnDefaults | app/models/auth.py:25-40 | a record with only email and username is stored with the column defaults (CLIENT, active, no password, no GitHub identity) |
| UserRepository.Apply | app/users/repositories/repository.py:108-109 | the `setattr` loop changes exactly the assigned columns, and the id and timestamps are kept |
| UserRepository.ApplyOnlyOthersIsIdentity | app/users/repositories/repository.py:108-109 | keys that name no column change nothing |
| UserRepository.Update | app/users/repositories/repository.py:90-124 | an absent id is RecordNotFoundException; a NULL in a NOT NULL column or a unique-column collision is DuplicateRecordException; success iff neither, changing exactly that row in exactly the assigned columns; every failure leaves the table unchanged |
| UserRepository.UpdateGithubToken | app/users/repositories/repository.py:178-182 | only that row's stored GitHub token changes; an absent id still raises RecordNotFoundException |
| UserRepository.Delete | app/users/repositories/repository.py:127-146 | removes exactly that row and answers true; an absent id is RecordNotFoundException and nothing changes |
| UserRepository.DeleteIsFinal | app/users/repositories/repository.py:127-146 | after a delete the row is not found, and a second delete reports it missing |
| UserRepository.Window | app/users/repositories/repository.py:167-171 | `OFFSET (page-1)*size LIMIT size` keeps at most `size` rows, the consecutive ones from the offset, and is non-empty when the offset is inside the listing |
| UserRepository.InsertNewestFirst | app/users/repositories/repository.py:167-168 | inserting into a newest-first listing keeps it newest-first and adds exactly that row |
| UserRepository.ListingLength | app/users/repositories/repository.py:158-165 | every newest-first listing of the selected rows has exactly the count the `COUNT(*)` query returns |
| UserRepository.SortedListing | app/users/repositories/repository.py:158-172 | the result lists every row the role filter selects exactly once, newest first |
| UserRepository.ListUsers | app/users/repositories/repository.py:149-175 | `total` is the number of rows the role filter selects; `items` is that page of some newest-first listing of them; a database failure is DatabaseOperationException |
| UserRepository.PageHasRowsIffInRange | app/users/repositories/repository.py:167-172 | a page has rows exactly when its offset is below the total |
| UserService.GetUser | app/users/services/service.py:31-38 | the account's public view iff it exists; an absent id is EntityNotFoundError for "user"; a database failure is ConflictError "Unable to retrieve user" |
| UserService.PageCount | app/users/services/service.py:50 | with size 0 there are no pages; otherwise the pages hold every row and the last page is not empty |
| UserService.PageCountIsCeiling | app/users/services/service.py:50 | no smaller number of pages of that size holds every row |
| UserService.PageInRangeIffWithinPageCount | app/users/services/service.py:50 | page `p` starts before the total iff `p` is at most the page count |
| UserService.Responses | app/users/services/service.py:49 | one public view per row, in the same order |
| UserService.ListUsers | app/users/services/service.py:40-55 | echoes page and size; the total and the items come from the repository; the page count is derived from that total; a database failure is ConflictError "Unable to list users" |
| UserService.CreateAdminWith | app/users/services/service.py:59-78 | whichever keyword names the display name: the table stays valid and a failure writes nothing; a database failure is ConflictError "Unable to create user"; a taken email is ConflictError "User with this email already exists"; a success adds exactly the one row `newId` |
| UserService.CreateAdmin | app/users/services/service.py:59-78 | a taken email is ConflictError and nothing is written; success iff the email is free and the database up; success adds exactly one active ADMIN row holding the hash of the password |
| UserService.CreateAdminAsWritten | app/users/services/service.py:59-78 | the table stays valid and a failure writes nothing; a database failure and a taken email fail as in the intended creation |
| UserService.CreateAdminAsWrittenNeverCreates | app/users/services/service.py:68-72 | with a free email, the as-written creation fails with pydantic's ValidationError and writes nothing |
| UserService.CreateAdminAsWrittenAgreesOffCreatePath | app/users/services/service.py:63-66 | with the database down or the email taken, the as-written and intended creations end identically |
| UserService.UpdateFields | app/users/services/service.py:89 | `model_dump(exclude_unset=True)` assigns exactly the fields the request set, explicit nulls included |
| UserService.UpdateUser | app/users/services/service.py:82-97 | absent id is EntityNotFoundError; collision or NULL in a required column is ConflictError "User update conflicts with existing data"; database failure is ConflictError "Unable to update user"; success changes only that row, in exactly the set fields |
| UserService.UpdateUserKeepsSecrets | app/users/services/service.py:89-90 | an administrator's update never changes the password hash, the GitHub columns, the id or the creation time |
| UserService.DeleteUser | app/users/services/service.py:101-107 | removes exactly that row iff it exists; an absent id is EntityNotFoundError; a database failure is ConflictError "Unable to delete user"; failures change nothing |
| UserService.DeleteUserTwiceReportsMissing | app/users/services/service.py:101-107 | a second delete of the same user reports it missing and changes nothing |
| AuthService.IssueSession | app/auth/services/auth_service.py:51-52 | the token is issued for the account's id and role value; the user part is its public view |
| AuthService.AdminChecks | app/auth/services/auth_service.py:39-52 | the loaded account passes iff it exists, has a password, is an ADMIN, the password column is read and verifies, and it is active; reading a missing attribute makes every credentialed admin an AttributeError |
| AuthService.AdminLogin | app/auth/services/auth_service.py:37-54 | a database failure is AuthenticationError "Authentication failed"; an unknown email is AuthenticationError "Invalid email or password" |
| AuthService.AuthenticateAdmin | app/auth/services/auth_service.py:32-54 | unknown email, no password or wrong password are AuthenticationError "Invalid email or password"; a credentialed non-admin is AuthorizationError; an inactive admin is AuthorizationError; success iff all checks pass, for that account; a database failure is AuthenticationError "Authentication failed" |
| AuthService.AuthenticateAdminAsWritten | app/auth/services/auth_service.py:32-54 | the as-written admin login never succeeds; an ADMIN row with a stored password gets an AttributeError whatever the password and whether or not it is active; every other attempt ends as the intended login does |
| AuthService.AsWrittenAdminLoginRevealsAdmins | app/auth/services/auth_service.py:39-54 | as written, a credentialed admin's email gets an AttributeError and an unknown email gets "Invalid email or password", whatever passwords are tried, so the two are told apart |
| AuthService.AdminLoginAsWrittenRejectsRightPassword | app/auth/services/auth_service.py:45 | an active admin with the right password gets an AttributeError as written, and a session with the intended reading |
| AuthService.WrongPasswordLooksLikeUnknownEmail | app/auth/services/auth_service.py:39-46 | a wrong password and an unknown email give the same failure |
| AuthService.NonAdminRefusedWhateverPassword | app/auth/services/auth_service.py:42-43 | a credentialed non-admin gets "Admin access required" whatever password is given |
| AuthService.GithubLogin | app/auth/services/auth_service.py:69 | the profile's login, or the empty string when the profile has none |
| AuthService.GithubName | app/auth/services/auth_service.py:70 | the profile's name when non-empty, else the login |
| AuthService.LoginEmail | app/auth/services/auth_service.py:86 | the profile's email when non-empty, else `<login>@users.noreply.github.com` |
| AuthService.RefreshFields | app/auth/services/auth_service.py:76-83 | the returning-user update writes no NULL into a NOT NULL column |
| AuthService.RefreshKeepsAllButLoginAndToken | app/auth/services/auth_service.py:76-83 | the returning-user update sets the GitHub login and token and keeps every other column, the display name included, since `full_name` names no column |
| AuthService.LinkFields | app/auth/services/auth_service.py:90-97 | the linking update writes no NULL into a NOT NULL column |
| AuthService.LinkKeepsAllButGithubColumns | app/auth/services/auth_service.py:90-97 | the linking update sets the GitHub id, login and token and keeps every other column |
| AuthService.NewClientKwargsValid | app/auth/services/auth_service.py:100-106 | passing the name as `username` yields the intended CLIENT record with the GitHub login and id |
| AuthService.NewClientKwargsAsWrittenInvalid | app/auth/services/auth_service.py:100-106 | passing the name as `full_name` fails validation |
| AuthService.Reload | app/auth/services/auth_service.py:84 | re-reading a row just updated returns it; an update failure passes through; the table is untouched |
| AuthService.ResolveAccount | app/auth/services/auth_service.py:73-110 | the table stays valid and gains at most the new row; a resolved account is stored and carries the profile's GitHub id, login and the new token; a database failure is DatabaseOperationException |
| AuthService.TranslateGithubFailure | app/auth/services/auth_service.py:117-120 | DuplicateRecordException becomes "GitHub account conflict", the other repository exceptions "GitHub authentication failed", anything else passes through |
| AuthService.GithubLoginWith | app/auth/services/auth_service.py:58-120 | whichever keyword names the display name: the table stays valid and gains at most the new row; a missing GitHub id is a KeyError that changes nothing; a database failure is "GitHub authentication failed"; a session is issued only for an active row carrying the profile's GitHub id, login and the new token |
| AuthService.AuthenticateGithubUser | app/auth/services/auth_service.py:58-120 | a missing GitHub id is a KeyError that changes nothing; a database failure is "GitHub authentication failed"; a session is issued only for an active row carrying the profile's GitHub id, login and the new token |
| AuthService.AuthenticateGithubUserAsWritten | app/auth/services/auth_service.py:58-120 | the table stays valid and gains at most the new row; a missing GitHub id is a KeyError; a database failure is "GitHub authentication failed"; a session is issued only for an active row carrying the profile's GitHub id, login and the new token |
| AuthService.AsWrittenGithubLoginAgreesOnKnownAccount | app/auth/services/auth_service.py:73-98 | when a row holds the profile's GitHub id or login email, or the database is down, the as-written and intended GitHub logins end identically |
| AuthService.FirstGithubLoginAsWrittenFails | app/auth/services/auth_service.py:99-110 | as written, a profile matching no row by GitHub id or email fails with pydantic's ValidationError and writes nothing |
| AuthService.GithubIdMatchWins | app/auth/services/auth_service.py:73-84 | a row with the GitHub id is refreshed (login and token only) unless another row holds the login, which is a conflict that changes nothing; the login succeeds iff that row is active |
| AuthService.EmailMatchLinks | app/auth/services/auth_service.py:86-113 | a new GitHub identity whose email names an account is attached to it, with every other column kept and no row added; the login succeeds iff that account is active, and otherwise fails with AuthorizationError "Account is deactivated" |
| AuthService.EmailMatchLoginTakenConflicts | app/auth/services/auth_service.py:86-118 | whichever keyword names the display name, an account found by email whose GitHub login another row holds fails with "GitHub account conflict" and changes nothing |
| AuthService.NovelProfileLoginTakenConflicts | app/auth/services/auth_service.py:99-118 | a profile new by GitHub id and email whose login another row holds fails with "GitHub account conflict" and changes nothing |
| AuthService.NovelProfileCreatesClient | app/auth/services/auth_service.py:99-110 | a profile matching no row creates exactly one active CLIENT row, and the session is for it |
| AuthService.SecondLoginSameAccount | app/auth/services/auth_service.py:73-84 | logging in again with the same profile reaches the same account and adds no row |
| AuthService.GetUserById | app/auth/services/auth_service.py:124-132 | the account's public view iff it exists; an absent id is EntityNotFoundError; a database failure is AuthenticationError "Unable to retrieve current user" |
| AuthService.ValidateAccessToken | app/auth/services/auth_service.py:134-138 | the decoded payload iff the token decodes, otherwise AuthenticationError "Invalid or expired token" |
| AuthUtils.RolePermissions | app/auth/utils.py:14-17 | "admin" holds manage-users and manage-scans; every other role string holds nothing |
| AuthUtils.HasPermissionIffAdmin | app/auth/utils.py:14-17 | a permission is held iff the role is "admin" and the permission is one of its two |
| AuthUtils.GetCurrentPayload | app/auth/utils.py:20-26 | the attached payload iff it is a TokenPayload; missing or None is "Not authenticated"; anything else is "Invalid authentication payload" |
| AuthUtils.RequireAdmin | app/auth/utils.py:29-34 | authentication errors first; then admits iff the role is "admin", returning the payload unchanged |
| AuthUtils.RequirePermission | app/auth/utils.py:37-48 | authentication errors first; then admits iff the role holds the permission, else AuthorizationError naming it |
| AuthUtils.RequireAdminAgreesWithAdminPermissions | app/auth/utils.py:29-48 | the admin check and either admin permission check admit exactly the same requests |
| AuthUtils.AuthenticationCheckedFirst | app/auth/utils.py:37-48 | an unauthenticated request gets the same AuthenticationError from every gate |
| RouteDependencies.CookiePayload | app/core/route_dependencies.py:33-52 | a missing or empty cookie is "Not authenticated"; any validation failure is "Invalid authentication payload"; otherwise the decoded payload |
| RouteDependencies.FirstMissing | app/core/route_dependencies.py:71-79 | None iff every required permission is held; otherwise the first one in order that is not |
| RouteDependencies.RequirePermissions | app/core/route_dependencies.py:60-81 | authentication errors first; then admits iff every required permission is held, returning the payload |
| RouteDependencies.RefusalNamesFirstMissing | app/core/route_dependencies.py:71-79 | the refusal names the first required permission the role lacks |
| RouteDependencies.NoRequirementAdmitsAuthenticated | app/core/route_dependencies.py:60-81 | requiring nothing admits exactly the authenticated requests |
| RouteDependencies.SinglePermissionAgreesWithStateGate | app/core/route_dependencies.py:60-81 | with one permission, the cookie gate decides as the request-state gate does on the same payload |
| AuthUtils.PermissionRequired | app/auth/utils.py:43-45 | the message is "Permission '", the permission, then "' required", so the permission can be read back from it |
| AuthMiddleware.Dispatch | app/core/middleware.py:43-58 | without a cookie the handler runs with no payload; with one, a session is opened and closed, and the handler runs with the decoded payload iff it decodes; otherwise the AuthenticationError escapes |
| AuthMiddleware.ResetForgetsPrevious | app/core/middleware.py:46 | what the request state held before the middleware makes no difference |
| AuthMiddleware.StateGateAgreesWithCookieGate | app/core/middleware.py:43-58 | whenever the handler runs, the request-state gate sees what the cookie gate computes |
| AuthMiddleware.UndecodableCookieBlocksEveryRoute | app/core/middleware.py:49-54 | as written, a cookie that does not decode stops every request before its route |
| AuthMiddleware.DispatchLenient | app/core/middleware.py:43-58 | the handler always runs, with the decoded payload when the cookie decodes and with none otherwise |
| AuthMiddleware.LenientGateDecidesByCookie | app/core/middleware.py:43-58 | with the intended dispatch, the request-state gate admits exactly the requests whose cookie decodes, and refuses the rest as "Not authenticated" |
| AuthMiddleware.LenientAgreesWhenCookieDecodes | app/core/middleware.py:43-58 | the two dispatches differ only for a cookie that does not decode |
| ExceptionsHandler.Mapping | app/core/middlewares/exceptions_handler.py:21-28 | every domain exception class has an entry except the base class |
| ExceptionsHandler.MappingIsInjective | app/core/middlewares/exceptions_handler.py:21-28 | distinct mapped classes have distinct statuses and distinct codes |
| ExceptionsHandler.HandleDomainException | app/core/middlewares/exceptions_handler.py:31-50 | a mapped class answers with its status and code, and passes the message and details through; any other is 500 INTERNAL_ERROR with the generic message and no details |
| ExceptionsHandler.HandleGeneric | app/core/middlewares/exceptions_handler.py:69-77 | 500 INTERNAL_ERROR with the generic message and no details |
| ExceptionsHandler.GenericRevealsNothing | app/core/middlewares/exceptions_handler.py:69-77 | the response to an unhandled exception does not depend on the exception |
| ExceptionsHandler.Respond | app/core/middlewares/exceptions_handler.py:80-83 | the status is one of the table's or 500, and it is 500 iff what was raised is not a mapped domain exception |
| ExceptionsHandler.FieldKey | app/core/middlewares/exceptions_handler.py:58 | the first location part is dropped and the rest joined with dots; a location of one part is keyed by the empty string |
| ExceptionsHandler.GroupFieldErrors | app/core/middlewares/exceptions_handler.py:56-59 | a key appears iff some error is located there, with that key's messages in encounter order |
| ExceptionsHandler.HandleValidation | app/core/middlewares/exceptions_handler.py:53-66 | 422 VALIDATION_ERROR "Request validation failed", whose details hold only `fields`, the grouped messages |
| OAuthService.AuthorizeParams | app/auth/services/oauth_service.py:19-25 | client_id, redirect_uri and scope "repo" in that order, then state iff a non-empty one is given |
| OAuthService.AuthorizeUrl | app/auth/services/oauth_service.py:18-26 | the GitHub authorize endpoint, then `?`, then the query |
| OAuthService.UrlEncodeRoundTrip | app/auth/services/oauth_service.py:26 | with an encoder that avoids `&` and `=` and is undone by its decoder, the encoded query reads back as the parameters in order |
| OAuthService.AuthorizeQueryRoundTrip | app/auth/services/oauth_service.py:18-26 | the authorization URL's query reads back as exactly the intended parameters |
| OAuthService.ExchangeTokenResponse | app/auth/services/oauth_service.py:43-50 | the access token iff GitHub returned one; otherwise ExternalServiceError for "github" carrying the error description, or "Unknown error from GitHub" without one |
| OAuthService.ExchangeFailureAnswersBadGateway | app/auth/services/oauth_service.py:43-50 | a token response without an access token reaches the client as 502 EXTERNAL_SERVICE_ERROR naming "github" and carrying the description |
| GithubPaging.FirstWith | app/utils/github.py:31-35 | the first part containing the text, or None iff no part does |
| GithubPaging.Follow | app/utils/github.py:27-37 | without `rel="next"` (or without a header) the URL becomes empty; a next URL always comes with an empty query |
| GithubPaging.NextAlwaysInAPart | app/utils/github.py:29-35 | a header containing `rel="next"` has a comma-separated part containing it |
| GithubPaging.LinkTargetOfNextLink | app/utils/github.py:33 | the split and strip recover the URL of a well-formed `<url>; rel="next"` link |
| GithubPaging.NextLinkMentionsNext | app/utils/github.py:29 | a well-formed next link contains `rel="next"` |
| GithubPaging.FollowFindsNextLink | app/utils/github.py:28-35 | for a header of links whose first `rel="next"` link is well formed, the next request goes to its URL with no query |
| GithubPaging.FetchRepos | app/utils/github.py:8-39 | the first request is the repositories endpoint with per_page=100&page=1; each later request goes where the previous header pointed, with no query; the loop stops at the first page without a next link; the result is every page's items in order |

## Left out

- Password hashing and verification (bcrypt), JWT creation and decoding, and Fernet token encryption are library calls. They are function parameters, and no property of them is assumed.
- `urlencode` is modelled as `key=value` pairs joined by `&` over an abstract percent-encoder. Its escaping rules are not modelled.
- HTTP transport, `async`, `raise_for_status` and response JSON parsing are not modelled. This covers the token-exchange request, `get_github_user` and `fetch_repo_branches`. Only the pure checks around those calls are modelled.
- The route functions are not modelled, and neither is the success envelope of `ApiResponse` (including its `exclude_none` serialization). Only the error part of the envelope is modelled.
- UserService.ListUsers: takes `page >= 1` from the route's query constraint. The route's upper bound on `size` is not required.
- `RequestLoggingMiddleware` is not modelled. Neither are the seeding and admin-creation scripts, or the Role and Permission ORM tables; the permission check uses the static role table, not those tables.
- The role table is modelled once (`AuthUtils.RolePermissions`). The program declares two identical copies, one for each gate.
- Database sessions, commits, concurrency and isolation between requests are not modelled. Each call sees one consistent table state.
- Email syntax (`EmailStr`) and pydantic's other coercions are not modelled. Fields are typed strings, ints and roles.
- `updated_at` is not refreshed on update. The timestamp mixin is not part of this model.
- The `Link` header is parsed as the program does (split and strip), not by the full grammar of RFC 8288. Header-name case-insensitivity is assumed.
- DomainExceptions.Capitalize: `str.capitalize` is modelled on ASCII letters only.
- GithubPaging.FetchRepos: the loop runs for at most `maxPages` requests. A chain of next links longer than that is cut off there. In the program a next link that leads back to a page already fetched makes the loop run forever, appending the same items again; the model stops after `maxPages` requests instead.
- UserService.CreateAdminAsWritten: does not itself state that it always fails with a free email. That is stated by `UserService.CreateAdminAsWrittenNeverCreates`.
- AuthService.AuthenticateGithubUserAsWritten: does not itself state its failure for new users. That is stated by `AuthService.FirstGithubLoginAsWrittenFails`.
- OAuthService.ExchangeTokenResponse: GitHub's JSON is taken as a map from strings to strings. A null or non-string `error_description`, which the program renders with Python's `str` (for example "GitHub OAuth error: None"), and a non-string `access_token` are not modelled.
- AuthService.ResolveAccount: a row that vanishes between the update and the reload is not modelled, because each call sees one table state.

## Findings

| source | as written | input that shows it | evidently intended | confidence | as-written member | corrected member |
|---|---|---|---|---|---|---|
| app/auth/services/auth_service.py:45 | verifies the password against `user.hashed_password`, an attribute the user record does not have (the column is `password`) | any ADMIN row with a non-empty password hash, with any password, active or not: AttributeError, answered as 500, while an unknown email gets 401 "Invalid email or password"; so the login shows which emails belong to credentialed admins | verify against `user.password` | high; not executed | AuthService.AsWrittenAdminLoginRevealsAdmins | AuthService.AuthenticateAdmin |
| app/users/services/service.py:68-72 | builds `UserCreate(email=..., full_name=..., role=ADMIN)`, and `UserCreate` has no `full_name` but requires `username` | any `create_admin` call with an unused email: pydantic ValidationError, nothing stored | pass the name as `username` | high; not executed | UserService.CreateAdminAsWrittenNeverCreates | UserService.CreateAdmin |
| app/auth/services/auth_service.py:100-106 | builds the new GitHub user's `UserCreate` with `full_name=` and no `username` | a first GitHub login whose GitHub id and email match no row: pydantic ValidationError, which is not one of the translated repository exceptions | pass the name as `username` | high; not executed | AuthService.FirstGithubLoginAsWrittenFails | AuthService.NovelProfileCreatesClient |
| app/core/middleware.py:49-54 | `validate_access_token` raises AuthenticationError inside `dispatch`, and nothing catches it there | any request, to any route (login and logout included), made more than 30 minutes after login: the cookie lives 30 days (app/auth/routes.py:24) but the token only 30 minutes (app/config.py:27), so it no longer decodes, the route never runs, and the error is answered 500 INTERNAL_ERROR by the generic handler | leave the payload `None` and let the route's own dependency decide | medium (depends on how the framework routes exceptions raised in middleware); not executed | AuthMiddleware.UndecodableCookieBlocksEveryRoute | AuthMiddleware.LenientGateDecidesByCookie |
