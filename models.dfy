/** The records of the authentication core (users and issued tokens) and the
    abstractions they rest on: a salted password hash, clock readings in
    seconds, and the error values the service returns in place of Go errors. */
module AuthModels {

  datatype Option<+T> = None | Some(value: T)

  /** One value per error message the core produces. */
  datatype Error =
    | UserExists            // "User already exists"
    | CredentialsIncorrect  // "username or Password incorrect"
    | AlreadyActivated      // "User is already activated"
    | NotActive             // "User is not active"
    | ResetNotValid         // "reset password is not valid anymore"
    | NoTOTPProvided        // "no TOTP provided" (Login)
    | TOTPNotValid          // "TOTP is not valid" (Login)
    | OTPNotValid           // "OTP is not valid" (ActivateTOTP)
    | NotUpdated            // "something went wrong, user not updated"
    | NoDocuments           // the store found no matching record
    | MailFailed            // the mail channel reported a failure
    | BadHeader             // "bad header value given"
    | MalformedHeader       // "incorrectly formatted authorization header"
    | TokenExpired          // "Token expired"
    | Unauthorized          // "Unauthorized" (role not permitted)
    | UserNotFound          // "User not found" (nothing in the request context)
    | PasswordNotProvided   // "Password not provided"
    | TOTPNotActivated      // "TOTP not activated"
    | TOTPNotProvided       // "TOTP not provided" (middleware)
    | TOTPHeaderNotValid    // "TOTP not valid" (middleware)

  /** A Go `error` result: nil, or an error value. */
  datatype Outcome = Pass | Fail(error: Error)

  /** A value or an error, for functions returning `(T, error)`. */
  datatype Result<+T> = Ok(value: T) | Err(error: Error)

  /** The two lifecycle states, stored as the strings "NEW" and "ACTIVE". */
  datatype UserState = NEW | ACTIVE

  /** The three kinds of token record, stored as strings. */
  datatype TokenType = LoginToken | ActivationToken | ResetToken

  /** A stored bcrypt hash. `NoHash` is the empty string (never set, or set to
      nil by the store); `Hash(salt, plain)` is what hashing `plain` with the
      salt drawn for that call produced. */
  datatype Secret = NoHash | Hash(salt: nat, plain: string)

  /** bcrypt.CompareHashAndPassword succeeds: the hash was made from `p`.
      The salt plays no part, and the empty hash matches nothing. */
  predicate Matches(h: Secret, p: string)
  {
    h.Hash? && h.plain == p
  }

  /** The hash carries a salt drawn before the salt counter reached `n`. */
  predicate SaltBelow(h: Secret, n: nat)
  {
    h.NoHash? || h.salt < n
  }

  /** Lifetimes, in seconds: 15 minutes and 720 hours. */
  const ShortLived: int := 900
  const LongLived: int := 2592000

  /** time.Time.Before for the reset deadline. `None` is Go's zero time
      (year 1), which lies before every clock reading. */
  predicate DeadlinePassed(d: Option<int>, now: int)
  {
    d.None? || d.value < now
  }

  /** auth_models.go `User`. The two float32 hour fields are `real` here:
      they are only copied and compared with zero. Times are seconds. */
  datatype User = User(
    id: string,
    firstName: string,
    lastName: string,
    username: string,
    password: Secret,
    oneTimePassword: Secret,
    role: string,
    state: UserState,
    personnelNumber: string,
    vacationDaysPerYear: int,
    targetHoursPerWeek: real,
    maximumHoursPerWeek: real,
    totpSecret: string,
    totpActive: bool,
    backupCodes: seq<Secret>,
    insertedAt: int,
    updatedAt: int,
    resetValidUntil: Option<int>)

  /** auth_models.go `tokenModel`: one issued bearer token. */
  datatype Token = Token(
    userId: string,
    token: string,
    requires2FA: bool,
    twoFAConfirmed: bool,
    tokenType: TokenType,
    insertedAt: int,
    updatedAt: int,
    expires: int)

  /** auth_models.go `CreateUserRequest`. */
  datatype CreateUserRequest = CreateUserRequest(
    username: string,
    firstName: string,
    lastName: string,
    role: string,
    personnelNumber: string,
    vacationDaysPerYear: int,
    targetHoursPerWeek: real,
    maximumHoursPerWeek: real)

  /** auth_models.go `UserOutputAll`: a user without credentials. */
  datatype UserOutputAll = UserOutputAll(
    id: string,
    username: string,
    firstName: string,
    lastName: string,
    role: string,
    state: UserState,
    personnelNumber: string,
    vacationDaysPerYear: int,
    targetHoursPerWeek: real,
    maximumHoursPerWeek: real,
    insertedAt: int,
    updatedAt: int)

  /** A message handed to the mail channel. */
  datatype Mail = Mail(to: string, subject: string, body: string)

  /** Every hash a user record holds was drawn before the counter reached `n`. */
  ghost predicate SaltsBelow(u: User, n: nat)
  {
    && SaltBelow(u.password, n)
    && SaltBelow(u.oneTimePassword, n)
    && forall i :: 0 <= i < |u.backupCodes| ==> SaltBelow(u.backupCodes[i], n)
  }

  /** A counter that only grows keeps every earlier hash below it. */
  lemma SaltsBelowMonotone(u: User, n: nat, m: nat)
    requires SaltsBelow(u, n) && n <= m
    ensures SaltsBelow(u, m)
  {
  }
}
