/** Values shared by the stores and the authentication use case. */
module Common {

  datatype Option<+T> = None | Some(value: T)

  /** The errors the Go code returns, grouped by where they come from. */
  datatype Error =
      /** gorm.ErrRecordNotFound: a `First` query matched no row. */
    | RecordNotFound
      /** The database rejected an insert whose primary key is already taken. */
    | DuplicateKey
      /** Any other failure the database reports for a statement. */
    | StoreError(message: string)
      /** A failure reported by the token service (signing). */
    | SigningError(message: string)
      /** errors.New("invalid credentials") */
    | InvalidCredentials
      /** errors.New("invalid refresh token") */
    | InvalidRefreshToken
      /** errors.New("refresh token revoked") */
    | RefreshTokenRevoked
      /** errors.New("refresh token expired") */
    | RefreshTokenExpired
      /** errors.New("item not found") */
    | ItemNotFound

  datatype Result<+T> = Ok(value: T) | Err(error: Error)

  /** The error a statement reports when the database answers `failure`. */
  function Reported(failure: Option<string>): Option<Error>
  {
    match failure
    case None => None
    case Some(m) => Some(StoreError(m))
  }
}
