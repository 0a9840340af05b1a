/** The cookie-reading variant of the access gate: the dependency that
    validates the session cookie itself, and the all-of permission check
    built on it. The role table is the same static one as the request-state
    gate's (the program declares it twice, identically). */
module RouteDependencies {
  import opened Wrappers
  import opened DomainExceptions
  import opened AuthSchemas
  import opened AuthUtils
  import AuthService

  /** `request.cookies.get(COOKIE_NAME)` is missing or empty. */
  predicate NoSessionCookie(cookies: map<string, string>) {
    COOKIE_NAME !in cookies || cookies[COOKIE_NAME] == ""
  }

  /** `get_current_payload(request, auth_service)`: no (or an empty) session
      cookie is AuthenticationError "Not authenticated"; any failure of token
      validation is replaced by AuthenticationError "Invalid authentication
      payload"; otherwise the decoded payload itself. `decode` stands for the
      JWT decoder behind `validate_access_token`. */
  function CookiePayload(cookies: map<string, string>, decode: string -> Option<TokenPayload>): (r: Result<TokenPayload, DomainException>)
    ensures NoSessionCookie(cookies) ==> r == Err(AuthenticationError(NOT_AUTHENTICATED))
    ensures !NoSessionCookie(cookies) && decode(cookies[COOKIE_NAME]).None? ==>
      r == Err(AuthenticationError(INVALID_AUTHENTICATION_PAYLOAD))
    ensures r.Ok? <==> !NoSessionCookie(cookies) && decode(cookies[COOKIE_NAME]).Some?
    ensures r.Ok? ==> r.value == decode(cookies[COOKIE_NAME]).value
  {
    if NoSessionCookie(cookies) then Err(AuthenticationError(NOT_AUTHENTICATED))
    else match AuthService.ValidateAccessToken(decode, cookies[COOKIE_NAME])
      case Err(_) => Err(AuthenticationError(INVALID_AUTHENTICATION_PAYLOAD))
      case Ok(p) => Ok(p)
  }

  /** The first permission of `required`, in order, that `perms` lacks. */
  function FirstMissing(required: seq<string>, perms: seq<string>): (m: Option<string>)
    ensures m.None? <==> forall i :: 0 <= i < |required| ==> required[i] in perms
    ensures m.Some? ==> exists k :: 0 <= k < |required| && required[k] == m.value && m.value !in perms
                                    && forall j :: 0 <= j < k ==> required[j] in perms
  {
    if |required| == 0 then None
    else if required[0] !in perms then Some(required[0])
    else
      var rest := FirstMissing(required[1..], perms);
      if rest.Some? then
        var k :| 0 <= k < |required[1..]| && required[1..][k] == rest.value && rest.value !in perms
                 && forall j :: 0 <= j < k ==> required[1..][j] in perms;
        assert required[k + 1] == rest.value;
        rest
      else rest
  }

  /** `require_permissions(required)`: authentication first, then every
      required permission must be in the role's set; the first missing one,
      in the order given, is the one reported. */
  function RequirePermissions(required: seq<string>, cookies: map<string, string>,
                              decode: string -> Option<TokenPayload>): (r: Result<TokenPayload, DomainException>)
    ensures CookiePayload(cookies, decode).Err? ==> r == CookiePayload(cookies, decode)
    ensures r.Ok? <==> CookiePayload(cookies, decode).Ok?
                       && forall i :: 0 <= i < |required| ==> required[i] in RolePermissions(CookiePayload(cookies, decode).value.role)
    ensures r.Ok? ==> r == CookiePayload(cookies, decode)
  {
    match CookiePayload(cookies, decode)
    case Err(e) => Err(e)
    case Ok(p) =>
      match FirstMissing(required, RolePermissions(p.role))
      case Some(perm) => Err(AuthorizationError(PermissionRequired(perm)))
      case None => Ok(p)
  }

  /** The refusal names the first required permission the role lacks. */
  lemma RefusalNamesFirstMissing(required: seq<string>, cookies: map<string, string>,
                                 decode: string -> Option<TokenPayload>, k: nat)
    requires CookiePayload(cookies, decode).Ok?
    requires k < |required|
    requires required[k] !in RolePermissions(CookiePayload(cookies, decode).value.role)
    requires forall j :: 0 <= j < k ==> required[j] in RolePermissions(CookiePayload(cookies, decode).value.role)
    ensures RequirePermissions(required, cookies, decode) == Err(AuthorizationError(PermissionRequired(required[k])))
  {
    var perms := RolePermissions(CookiePayload(cookies, decode).value.role);
    var m := FirstMissing(required, perms);
    var k' :| 0 <= k' < |required| && required[k'] == m.value && m.value !in perms
              && forall j :: 0 <= j < k' ==> required[j] in perms;
    assert k' == k;
  }

  /** Requiring nothing admits every authenticated request. */
  lemma NoRequirementAdmitsAuthenticated(cookies: map<string, string>, decode: string -> Option<TokenPayload>)
    ensures RequirePermissions([], cookies, decode) == CookiePayload(cookies, decode)
  {
  }

  /** With one permission, the cookie gate decides exactly as the
      request-state gate does once the middleware has attached the same
      payload. */
  lemma SinglePermissionAgreesWithStateGate(permission: string, cookies: map<string, string>,
                                            decode: string -> Option<TokenPayload>)
    requires CookiePayload(cookies, decode).Ok?
    ensures RequirePermissions([permission], cookies, decode)
         == RequirePermission(permission, Payload(CookiePayload(cookies, decode).value))
  {
  }
}
