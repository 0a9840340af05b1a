/** The user roles shared by every layer (models, schemas, services). */
module Enums {
  import opened Wrappers

  datatype UserRole = Admin | Client

  /** The string value of a role: `UserRole.ADMIN.value == "admin"`. */
  function RoleValue(r: UserRole): string {
    match r
    case Admin => "admin"
    case Client => "client"
  }

  /** `UserRole(s)`: the member whose value is `s`, if any. */
  function RoleFromValue(s: string): (r: Option<UserRole>)
    ensures r.Some? ==> RoleValue(r.value) == s
    ensures r.None? ==> forall role: UserRole :: RoleValue(role) != s
  {
    if s == "admin" then Some(Admin)
    else if s == "client" then Some(Client)
    else None
  }

  /** Role values are distinct, so a role is recovered from its value. */
  lemma RoleValueRoundTrip(r: UserRole)
    ensures RoleFromValue(RoleValue(r)) == Some(r)
  {
  }
}
