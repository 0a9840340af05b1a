/** The request-state access gate: the static role-to-permission table, the
    dependency that reads the payload the middleware attached to the
    request, and the admin-only and single-permission checks built on it. */
module AuthUtils {
  import opened Wrappers
  import opened Enums
  import opened DomainExceptions
  import opened AuthSchemas

  const COOKIE_NAME := "access_token"
  const MANAGE_USERS := "manage-users"
  const MANAGE_SCANS := "manage-scans"

  /** `_ROLE_PERMISSIONS.get(role, [])`: an administrator may manage users and
      scans, a client nothing, and a role string the table does not know is
      treated like a client. */
  function RolePermissions(role: string): (perms: seq<string>)
    ensures role == RoleValue(Admin) ==> perms == [MANAGE_USERS, MANAGE_SCANS]
    ensures role != RoleValue(Admin) ==> perms == []
  {
    if role == RoleValue(Admin) then [MANAGE_USERS, MANAGE_SCANS]
    else if role == RoleValue(Client) then []
    else []
  }

  /** A permission is granted only through the administrator role: every
      other role string, known or not, holds none. */
  lemma HasPermissionIffAdmin(role: string, permission: string)
    ensures permission in RolePermissions(role) <==>
            role == RoleValue(Admin) && (permission == MANAGE_USERS || permission == MANAGE_SCANS)
  {
  }

  /** What `request.state.auth_payload` holds: never set, `None`, a
      `TokenPayload`, or some other object (named by its type). */
  datatype StateSlot = Unset | NoneValue | Payload(payload: TokenPayload) | Other(typeName: string)

  const NOT_AUTHENTICATED := "Not authenticated"
  const INVALID_AUTHENTICATION_PAYLOAD := "Invalid authentication payload"

  /** `get_current_payload(request)`: the attached payload; a missing or
      `None` one is AuthenticationError "Not authenticated", anything that is
      not a `TokenPayload` AuthenticationError "Invalid authentication payload". */
  function GetCurrentPayload(slot: StateSlot): (r: Result<TokenPayload, DomainException>)
    ensures r.Ok? <==> slot.Payload?
    ensures r.Ok? ==> r.value == slot.payload
    ensures slot.Unset? || slot.NoneValue? ==> r == Err(AuthenticationError(NOT_AUTHENTICATED))
    ensures slot.Other? ==> r == Err(AuthenticationError(INVALID_AUTHENTICATION_PAYLOAD))
  {
    match slot
    case Unset => Err(AuthenticationError(NOT_AUTHENTICATED))
    case NoneValue => Err(AuthenticationError(NOT_AUTHENTICATED))
    case Payload(p) => Ok(p)
    case Other(_) => Err(AuthenticationError(INVALID_AUTHENTICATION_PAYLOAD))
  }

  const ADMIN_REQUIRED := "Admin access required"

  /** `require_admin`: authentication first, then the role string must be
      exactly "admin"; the payload is returned unchanged. */
  function RequireAdmin(slot: StateSlot): (r: Result<TokenPayload, DomainException>)
    ensures GetCurrentPayload(slot).Err? ==> r == GetCurrentPayload(slot)
    ensures r.Ok? <==> slot.Payload? && slot.payload.role == RoleValue(Admin)
    ensures r.Ok? ==> r.value == slot.payload
    ensures slot.Payload? && slot.payload.role != RoleValue(Admin) ==> r == Err(AuthorizationError(ADMIN_REQUIRED))
  {
    match GetCurrentPayload(slot)
    case Err(e) => Err(e)
    case Ok(p) => if p.role != RoleValue(Admin) then Err(AuthorizationError(ADMIN_REQUIRED)) else Ok(p)
  }

  /** The message naming a missing permission; the permission can be read
      back from it, so different permissions give different messages. */
  function PermissionRequired(permission: string): (m: string)
    ensures |m| == |permission| + 22
    ensures m[12..12 + |permission|] == permission
    ensures m[..12] == "Permission '" && m[12 + |permission|..] == "' required"
  {
    "Permission '" + permission + "' required"
  }

  /** `require_permission(name)`: authentication first, then the role's
      permissions must include `name`; the payload is returned unchanged. */
  function RequirePermission(permission: string, slot: StateSlot): (r: Result<TokenPayload, DomainException>)
    ensures GetCurrentPayload(slot).Err? ==> r == GetCurrentPayload(slot)
    ensures r.Ok? <==> slot.Payload? && permission in RolePermissions(slot.payload.role)
    ensures r.Ok? ==> r.value == slot.payload
    ensures slot.Payload? && permission !in RolePermissions(slot.payload.role) ==>
      r == Err(AuthorizationError(PermissionRequired(permission)))
  {
    match GetCurrentPayload(slot)
    case Err(e) => Err(e)
    case Ok(p) =>
      if permission !in RolePermissions(p.role) then Err(AuthorizationError(PermissionRequired(permission)))
      else Ok(p)
  }

  /** The admin-only check and the "manage-users" (or "manage-scans")
      permission check let exactly the same requests through, and refuse the
      unauthenticated ones with the same error. */
  lemma RequireAdminAgreesWithAdminPermissions(slot: StateSlot, permission: string)
    requires permission == MANAGE_USERS || permission == MANAGE_SCANS
    ensures RequireAdmin(slot).Ok? <==> RequirePermission(permission, slot).Ok?
    ensures RequireAdmin(slot).Ok? ==> RequireAdmin(slot) == RequirePermission(permission, slot)
    ensures GetCurrentPayload(slot).Err? ==> RequireAdmin(slot) == RequirePermission(permission, slot)
  {
    if slot.Payload? {
      HasPermissionIffAdmin(slot.payload.role, permission);
    }
  }

  /** Authentication is decided before any permission: an unauthenticated
      request gets the same AuthenticationError whichever permission the
      route asks for, and never an AuthorizationError. */
  lemma AuthenticationCheckedFirst(slot: StateSlot, p1: string, p2: string)
    requires GetCurrentPayload(slot).Err?
    ensures RequirePermission(p1, slot) == RequirePermission(p2, slot) == RequireAdmin(slot)
    ensures RequireAdmin(slot).error.kind == Authentication
  {
  }
}
