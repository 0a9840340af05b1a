/** Python's dynamically typed values, as far as the core stores them in
    exception details or passes them as keyword arguments. */
module Values {
  import opened Enums

  datatype Value =
    | Str(s: string)
    | Int(i: int)
    | Bool(b: bool)
    | Null
    | RoleMember(role: UserRole)                      // a `UserRole` enum member
    | FieldErrors(messages: map<string, seq<string>>)   // `{field: [message, ...]}`

  /** A `dict[str, Any]`. */
  type Dict = map<string, Value>
}
