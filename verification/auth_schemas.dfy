/** The decoded session token and the result of a successful login. */
module AuthSchemas {
  import opened UserSchemas

  /** `TokenPayload`: the claims of a valid session token. `sub` is the user
      id and `role` the role value. */
  datatype TokenPayload = TokenPayload(sub: string, role: string)

  /** A successful login: the issued session token and the public user. */
  datatype Session = Session(token: string, user: UserResponse)
}
