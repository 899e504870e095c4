/**
 * The values the auth package passes around: users, session and
 * application tokens, password-reset tokens, the typed errors with their
 * stable messages, and the input validation shared by the two token
 * factories.
 */
module AuthTypes {

  datatype Option<+T> = None | Some(value: T)

  /** The error kinds a token operation can report to its caller. */
  datatype Error =
    | UserIsNil          // no user was given
    | UserWithoutEmail   // newUserToken: the user has no email
    | UserEmailEmpty     // createPasswordToken: the user has no email
    | TokenNotFound      // GetToken: empty value, or no record with that value
    | TokenExpired       // GetToken: the record's validity window has passed
    | UserNotFound       // Token.User: the owner's email is not in the directory

  datatype Result<+T> = Ok(value: T) | Err(error: Error)

  /** The error kind a caller reads back from a message text, if any. */
  function KindOfMessage(text: string): Option<Error>
  {
    if text == "User is nil" then Some(UserIsNil)
    else if text == "Impossible to generate tokens for users without email" then Some(UserWithoutEmail)
    else if text == "User email is empty" then Some(UserEmailEmpty)
    else if text == "Token not found" then Some(TokenNotFound)
    else if text == "Token has expired" then Some(TokenExpired)
    else if text == "User not found" then Some(UserNotFound)
    else None
  }

  /** The text `err.Error()` yields for each kind; the text names the kind. */
  function Message(e: Error): (r: string)
    ensures KindOfMessage(r) == Some(e)
  {
    match e
    case UserIsNil => "User is nil"
    case UserWithoutEmail => "Impossible to generate tokens for users without email"
    case UserEmailEmpty => "User email is empty"
    case TokenNotFound => "Token not found"
    case TokenExpired => "Token has expired"
    case UserNotFound => "User not found"
  }

  /** The digest a caller asks the fingerprint generator to use. */
  datatype Hash = MD5 | SHA1 | SHA256

  /** A user record; only the email takes part in the token lifecycle. */
  datatype User = User(email: string)

  /**
   * A session or application token. `validUntil` is an instant in
   * nanoseconds; an application token has an empty `userEmail`, a user
   * token an empty `appName`.
   */
  datatype Token = Token(token: string, validUntil: int, userEmail: string, appName: string)

  /** A single-use password-reset token, stored under `_id == token`. */
  datatype PasswordToken = PasswordToken(token: string, userEmail: string, creation: int, used: bool)

  /** A token is usable strictly before its `validUntil` instant. */
  predicate Expired(t: Token, now: int)
  {
    t.validUntil <= now
  }

  /** Expiry is permanent: a token expired at `now` is expired at every later instant. */
  lemma ExpiredIsPermanent(t: Token, now: int, later: int)
    requires Expired(t, now) && now <= later
    ensures Expired(t, later)
  {
  }

  /**
   * The check both token factories run on their `*User` argument before
   * generating anything: a nil user fails with UserIsNil, a user without
   * email fails with the factory's own `missingEmail` kind.
   */
  function ValidateUser(u: Option<User>, missingEmail: Error): (r: Option<Error>)
    requires missingEmail == UserWithoutEmail || missingEmail == UserEmailEmpty
    ensures r == None <==> u.Some? && u.value.email != ""
    ensures r == Some(UserIsNil) <==> u.None?
    ensures u.Some? && u.value.email == "" ==> r == Some(missingEmail)
  {
    if u.None? then Some(UserIsNil)
    else if u.value.email == "" then Some(missingEmail)
    else None
  }

  /** Callers can branch on the message text: distinct kinds have distinct messages. */
  lemma MessagesDistinguishKinds(e1: Error, e2: Error)
    ensures Message(e1) == Message(e2) <==> e1 == e2
  {
  }
}
