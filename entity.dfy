/** The values the service passes between its layers: users, claims, token
    pairs and the three kinds of error the callers tell apart. */
module Entity {

  datatype Option<T> = None | Some(value: T)

  /** A Go `(T, error)` pair in which exactly one side is nil. */
  datatype Result<T> = Ok(value: T) | Err(error: Error)

  /** What the database driver can report. `NoRows` is `sql.ErrNoRows`; a
      `MySql` error carries the server's error number (1062 is a duplicate
      key, 1048 a NOT NULL violation); `Driver` is any other failure, such as
      a lost connection. */
  datatype StoreError = NoRows | MySql(number: int, message: string) | Driver(message: string)

  /** The failures the token library reports. */
  datatype JwtFailure =
    | Malformed
    | Unverifiable(cause: Error)
    | SignatureInvalid
    | Expired
    | HashUnavailable

  /** Errors as the callers tell them apart: field-tagged input errors,
      policy rejections with a machine-readable code, and everything else. */
  datatype Error =
    | ValidationError(field: string, message: string)
    | AppError(code: string, message: string)
    | Store(cause: StoreError)
    | Jwt(failure: JwtFailure)
    | Internal(message: string)

  /** The registered JWT claims this service sets (RFC 7519, section 4.1).
      Times are whole seconds since the epoch. */
  datatype RegisteredClaims = RegisteredClaims(
    issuer: string,
    subject: string,
    expiresAt: Option<int>,
    issuedAt: Option<int>)

  datatype AccessClaims = AccessClaims(userID: int, email: string, role: string, registered: RegisteredClaims)

  datatype RefreshClaims = RefreshClaims(userID: int, registered: RegisteredClaims)

  /** A user as the layers pass it around: `id` and `role` are pointers in the
      source and may be absent. */
  datatype User = User(id: Option<int>, name: string, email: string, role: Option<string>, password: string)

  datatype UserResponse = UserResponse(id: int, name: string, email: string, role: string)

  /** An access/refresh token pair. */
  datatype Token = Token(access: string, refresh: string)

  /** The body of a sign-in request. */
  datatype Credentials = Credentials(email: string, password: string)

  /** A `*User` the caller owns and that signup updates in place. */
  class UserRef {
    var value: User

    constructor (u: User)
      ensures value == u
    {
      value := u;
    }
  }

  /** A `*Token` a handler owns; the cookie step updates it in place before the
      handler encodes it as the response body. */
  class TokenRef {
    var value: Token

    constructor (t: Token)
      ensures value == t
    {
      value := t;
    }
  }
}
