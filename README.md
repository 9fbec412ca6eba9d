# go-auth-api authentication core in Dafny

This project models the `auth` package of go-auth-api, a Go (gin + MongoDB) user and
session service. The model covers four things.

- **The user lifecycle.** An administrator creates a user. The user is `NEW` and has only a
  mailed one-time password. Activating sets a permanent password and makes the user
  `ACTIVE`. After that the user can change the password, or forget it and reset it through a
  fresh one-time password that is valid for 15 minutes.
- **Login.** Login issues one of three token types:
  - an ActivationToken for a `NEW` user's one-time password;
  - a LoginToken for an `ACTIVE` user's permanent password;
  - a ResetToken for an `ACTIVE` user's one-time password.

  When the user has TOTP enabled, Login also requires a second factor: a time-step code or
  one of eight bcrypt-hashed backup codes. Each token type has its own lifetime: 15 minutes,
  or 720 hours for a LoginToken.
- **The store.** It holds users keyed by id, in insertion order, and a sequence of token
  records. Its query filters decide what each call finds, replaces or revokes. `UpdateUser`
  blanks the `Id` of the struct it is given.
- **The access gates.** A request passes the bearer-token parser, then a token, expiry, owner
  and role check, then an optional password re-check and an optional TOTP re-check. Each gate
  either passes the request on or answers 401.

These are the modelling choices:
- **Hashing.** bcrypt is an abstract salted hash, `Secret = NoHash | Hash(salt, plain)`.
  Every `HashPassword` draws a fresh salt from the service's salt counter.
- **Clock.** Clock readings are integer seconds, passed in as `now`.
- **Randomness.** crypto/rand draws are indices into the 56-character alphabet. They are
  passed in as `draws`.
- **External values.** The TOTP secret, the JWT string and the new user's ObjectID are passed
  in as parameters.
- **TOTP.** `totp.Validate` is an uninterpreted predicate of (code, secret, now), the
  service's `validate`.
- **Mail.** A mail is returned as a value rather than sent.

The model follows the code as written. The contracts state these consequences of it:
- `GetTOTP` always reports an error. Its second `UpdateUser` targets the Id that the first one
  blanked. The new backup codes are stored; the TOTP secret is not.
- `checkBackupCodes` compares freshly salted hashes, so it never removes the code it accepted.
  A backup code can be used any number of times.
- A login through a backup code writes a token record whose user_id is empty. AuthMiddleware
  then never admits that token.
- `ResetPassword` and `ActivateTOTP` revoke the tokens whose user_id equals the username,
  which leaves the user's sessions in place.
- `Logout` deletes the user's earliest token, not necessarily the caller's.
- The token type is never checked by the gates.
- In the model, `UpdateUser` reports an error when the merged record equals the stored one.
  So do `ActivateTOTP` and `DeactivateTOTP`. MongoDB compares encoded documents, not records,
  so the real store can still report a change here; "## Left out" gives the cases.

Files:
- `models.dfy` (module `AuthModels`): the records and errors.
- `auth_db.dfy` (module `AuthStore`): the lookups and filters, and the class `AuthDb` with the
  tables.
- `auth.dfy` (module `Auth`): the password generator, the backup-code loops, the Login
  decision, and the class `AuthService`.
- `auth_middleware.dfy` (module `AuthGates`): the header parser and the three gates.

## Model

| member | source | states |
|---|---|---|
| `AuthStore.UserById` | auth/auth_db.go:40-53 | finds a record iff one is stored under that id, and the record found carries that id |
| `AuthStore.IdByUsername` | auth/auth_db.go:28-37 | the id of the first stored user, in insertion order, with that username; none only when no stored user has it |
| `AuthStore.UserByUsername` | auth/auth_db.go:28-37 | a stored record with that username; none only when no stored user has it |
| `AuthStore.TokenByValue` | auth/auth_db.go:55-63 | a stored token record with that token string; none iff no record has it |
| `AuthStore.RemoveTokensOf` | auth/auth_db.go:82-88 | no record of that user_id survives; in the multiset, every record of another user keeps its count |
| `AuthStore.RemoveFirstTokenOfRemovesOne` | auth/auth_db.go:91-97 | DeleteOne by user_id removes exactly the earliest record of that user, whatever its token string |
| `AuthStore.RemoveFirstTokenOfNoneLeft` | auth/auth_db.go:91-97 | DeleteOne by user_id removes nothing when the user has no token |
| `AuthStore.WithoutUsername` | auth/auth_db.go:100-106 | keeps exactly the records whose username differs, unchanged |
| `AuthStore.UserByUsernameAfterInsert` | auth/auth_db.go:23-26 | an insert with no uniqueness check leaves an earlier user of the same name first; a name that had no user finds the new record |
| `AuthStore.AuthDb.CreateUser` | auth/auth_db.go:23-26 | stores the record under the fresh id, appends it to insertion order, tokens unchanged |
| `AuthStore.AuthDb.WriteTokenToDatabase` | auth/auth_db.go:65-79 | appends exactly one record with the given user_id, token, type and expiry; earlier records unchanged |
| `AuthStore.AuthDb.DeleteTokensByUserId` | auth/auth_db.go:82-88 | the token table becomes RemoveTokensOf of the old one; users unchanged |
| `AuthStore.AuthDb.DeleteTokenByUserId` | auth/auth_db.go:91-97 | the token table loses the first record of that user_id; the token argument is ignored |
| `AuthStore.AuthDb.DeleteUserByUsername` | auth/auth_db.go:100-106 | removes every user with that username and no other |
| `AuthStore.AuthDb.DeleteUserById` | auth/auth.go:99-113 | removes the record under that id if any; tokens stay |
| `AuthStore.AuthDb.UpdateUser` | auth/auth_db.go:109-134 | the caller's struct gets Id ""; succeeds iff a record with that id is stored and differs, which it then replaces; otherwise "user not updated" |
| `AuthStore.AuthDb.ReplaceRecord` | auth/auth.go:132-134 | an UpdateOne `$set` on the record a username filter matched: that record becomes the new value, nothing else changes |
| `AuthStore.AuthDb.GetAllUsers` | auth/auth_db.go:137-156 | one credential-free projection per stored user, in insertion order |
| `Auth.CharsetShape` | auth/auth.go:329 | the alphabet has 56 characters, none of 0, O, I, i, l, o |
| `Auth.SpelledAvoidsLookAlikes` | auth/auth.go:328-344 | every generated character is from the alphabet and not a look-alike |
| `Auth.GenerateRandomPassword` | auth/auth.go:328-344 | exactly `length` characters, character i being the alphabet entry of draw i |
| `Auth.HashesFrom` | auth/auth.go:374-378 | one hash per code, hash i matching code i |
| `Auth.DrawBackupCodes` | auth/auth.go:365-379 | eight codes of eight characters, and hash i is code i hashed with its own fresh salt |
| `Auth.ScanBackupCodes` | auth/auth.go:385-407 | finds a match iff some stored hash matches the code; without one the list is unchanged; with one the list is rebuilt against one fresh hash per entry |
| `Auth.KeepUnequalIsSublist` | auth/auth.go:390-400 | the rebuilt list is an order-preserving sublist of the stored list |
| `Auth.KeepUnequalKeepsOlder` | auth/auth.go:392-397 | against hashes salted after every stored one, the rebuild removes nothing |
| `Auth.Lifetime` | auth/auth.go:236-253 | 2592000 s (720 h) for a LoginToken, 900 s (15 min) for the others |
| `Auth.CredentialType` | auth/auth.go:238-256 | a non-ACTIVE user: only the one-time password counts (ActivationToken); an ACTIVE user: the permanent password first (LoginToken), then the one-time password (ResetToken) |
| `Auth.LoginDecision` | auth/auth.go:230-270 | issues iff the password unlocks a token type and, for an ACTIVE user, the second factor holds; a refusal after a correct password for lack of the second factor sets requires2FA, with "no TOTP provided" or "TOTP is not valid"; every other refusal is "username or Password incorrect"; an issue rests on a backup code exactly when the user is ACTIVE with TOTP on and the time-step code is not valid |
| `Auth.InactiveLoginIgnoresTOTP` | auth/auth.go:238-244 | for a non-ACTIVE user the TOTP code plays no part and only an ActivationToken can be issued |
| `Auth.NewUserLogsInForActivation` | auth/auth.go:74-88 | a created user's mailed password yields an ActivationToken, any other password nothing |
| `Auth.ActivationIsOneWay` | auth/auth.go:115-142 | after activation the new password yields a LoginToken, the old one-time password nothing, and the state is no longer NEW |
| `Auth.LoginPrecedence` | auth/auth.go:245-256 | with both passwords set, the permanent password yields a LoginToken and the one-time password a ResetToken |
| `Auth.VerifyPassword` | auth/auth.go:513-520 | passes iff the permanent password hash matches; an unset password never matches |
| `Auth.MergeProfile` | auth/auth.go:482-505 | only the eight profile fields can change; for each of them a non-empty or non-zero argument replaces the stored value, and an empty or zero one keeps it |
| `Auth.MergeProfileChanges` | auth/auth.go:482-508 | the merged record differs from the stored one iff some non-empty or non-zero argument differs from its field, so an update that supplies only current values is reported as not updated |
| `Auth.MergeProfileIdempotent` | auth/auth.go:482-505 | merging twice is merging once; an empty request merges to the record itself |
| `Auth.AuthService.HashPassword` | auth/auth.go:318-326 | the hash of the password under a salt no earlier hash used |
| `Auth.AuthService.CreateUser` | auth/auth.go:48-97 | an existing username: "User already exists" and nothing changes; otherwise exactly one NEW user with no password and the hash of a fresh 8-character one-time password, which is mailed |
| `Auth.AuthService.ActivateUser` | auth/auth.go:115-142 | refuses unless NEW; otherwise the first user of that username becomes ACTIVE with the new password hash, and its one-time password and reset deadline are cleared |
| `Auth.AuthService.ChangePassword` | auth/auth.go:144-168 | unknown user, or not ACTIVE: an error and nothing changes; otherwise only the password (and updatedAt) change, and every token of the user's id is revoked |
| `Auth.AuthService.ResetPassword` | auth/auth.go:170-193 | refuses a non-ACTIVE user and a deadline strictly before now (unset counts as passed); otherwise sets the password, clears one-time password and deadline, and revokes the tokens whose user_id is the username |
| `Auth.AuthService.ForgotPassword` | auth/auth.go:195-228 | for a known user: a fresh one-time password hash and a deadline of now + 900, mailed; the password and tokens stay; a mail failure is reported after the change |
| `Auth.AuthService.Login` | auth/auth.go:230-283 | follows LoginDecision; a refusal writes nothing; a success appends exactly one token of the decided type expiring at now plus its lifetime, for the user's id, or for "" after a backup code |
| `Auth.AuthService.Logout` | auth/auth.go:285-301 | for a known ACTIVE user one token is deleted: the user's earliest, not necessarily the one passed in |
| `Auth.AuthService.DeleteUser` | auth/auth.go:99-113 | DeleteOwnUser/DeleteOtherUser: that id is no longer stored; tokens stay |
| `Auth.AuthService.GetOwnUser` | auth/auth.go:522-529 | the credential-free projection of the record under that id, or "no documents" |
| `Auth.AuthService.GenerateBackupCodes` | auth/auth.go:365-383 | eight codes whose hashes go on the caller's struct; the stored record (if any) now holds exactly those hashes; the struct's Id is blanked |
| `Auth.AuthService.GetTOTP` | auth/auth.go:346-363 | always reports "user not updated" and returns no key: the backup codes are stored, the TOTP secret is not |
| `Auth.AuthService.CheckBackupCodes` | auth/auth.go:385-407 | true iff some backup hash matches; the stored list afterwards is the old list, so the code stays usable; on a match the struct's Id is blanked |
| `Auth.AuthService.ActivateTOTP` | auth/auth.go:409-421 | an invalid code: "OTP is not valid", nothing changes; otherwise the flag is written, and on success the tokens whose user_id is the username are revoked |
| `Auth.AuthService.DeactivateTOTP` | auth/auth.go:423-432 | flag, secret and backup codes cleared and written; an unchanged record is reported as not updated |
| `Auth.AuthService.VerifyTOTP` | auth/auth.go:445-456 | errors for a non-ACTIVE user; accepts the current time-step code without touching the store; otherwise accepts iff a backup code matches |
| `Auth.AuthService.UpdateUser` | auth/auth.go:476-511 | an unknown id: "no documents"; otherwise the stored record becomes the merge, and success iff the merge changed something |
| `Auth.BackupCodeLoginTwice` | auth/auth.go:385-407 | two logins with the same backup code both yield tokens, both with an empty user_id |
| `AuthGates.Split` | auth/auth_middleware.go:116 | one more piece than separators, and no piece holds the separator |
| `AuthGates.JoinSplit` | auth/auth_middleware.go:116 | joining the pieces with the separator gives the header back |
| `AuthGates.ExtractToken` | auth/auth_middleware.go:111-122 | an empty header is a bad header; otherwise succeeds iff the header has exactly one space, giving the space-free text after it |
| `AuthGates.ExtractTokenAnyScheme` | auth/auth_middleware.go:111-122 | the scheme word is never checked: any word, a space and a space-free token give that token |
| `AuthGates.EmptyTokenAccepted` | auth/auth_middleware.go:116-121 | "Bearer " gives the empty token without error |
| `AuthGates.WrongPartCountRefused` | auth/auth_middleware.go:117-119 | a one-word and a three-part header are malformed |
| `AuthGates.AuthCheck` | auth/auth_middleware.go:25-56 | admits iff the header parses, a token record has that string, it has not expired (expires is not before now), its user_id is stored and that user's role is required; the first failing check gives the error; on admission the context holds exactly that user and token |
| `AuthGates.TokenTypeIgnored` | auth/auth_middleware.go:34-54 | changing a stored record's token type changes no admission decision |
| `AuthGates.ExpiryIsStrict` | auth/auth_middleware.go:39-42 | a token expiring exactly now is admitted; one second later it expires |
| `AuthGates.IssuedTokenAdmitted` | auth/auth_middleware.go:25-56 | a newly written token with a fresh string is admitted with its user and itself, until it expires |
| `AuthGates.AdmittedUserOwnsToken` | auth/auth_middleware.go:43-53 | the admitted user's id is the admitted token's user_id, and its role is among the required ones |
| `AuthGates.RevokedUserLockedOut` | auth/auth.go:166 | after revocation by a user's id no request is admitted as that user |
| `AuthGates.UsernameRevocationKeepsSessions` | auth/auth.go:191 | revocation by username leaves each admission decision on that user's sessions as it was |
| `AuthGates.OrphanTokenRejected` | auth/auth_middleware.go:43-47 | a token record with an empty user_id is never admitted |
| `AuthGates.PasswordCheck` | auth/auth_middleware.go:59-79 | continues, with the context unchanged, iff there is a user, a non-empty Password header, and it matches the password hash; otherwise the first failing check gives the error |
| `AuthGates.PasswordGateNeedsPassword` | auth/auth_middleware.go:59-79 | a user without a permanent password never passes the password gate |
| `AuthGates.TOTPGate` | auth/auth_middleware.go:81-109 | no user, TOTP off (checked before the header) and an empty header abort without effect; otherwise continues iff VerifyTOTP accepts, with the context's user Id blanked after a backup code |

## Left out

- HTTP handlers (auth/auth_controller.go) are not part of this model: gin binding and JSON responses. The Login handler reads requires2FA before the error, so a second-factor refusal is answered with 200 "Credentials correct".
- The handlers assert `.(User)` on a context value stored as `*User` (auth/auth_controller.go:87, 150, 180), so ResetPassword, Logout and DeleteOwnUser reach the service only in ways this model does not follow; the service operations are modelled on their own.
- controllers/auth_controller.go, main.go, sites/*, absences/*, config/config.go, database/mongodb.go and emails/emails.go are not part of this model. The mail channel is represented by the returned `Mail` value and a `delivered` flag.
- The TOTP algorithm itself (RFC 6238) and auth/totp.go: uninterpreted `validate(code, secret, now)`. The TOTP secret of generateTOTPKey is a parameter, and its error branch (log.Fatal) is left out.
- bcrypt internals, its cost and its 72-byte input limit: abstract salted hash. The "double check" comparisons after hashing in CreateUser and ActivateUser always succeed under this abstraction and are not modelled.
- JWT construction and HS512 signing in generateJWTToken: the token string is a parameter; its signing error is left out. The signed claims are only username, role and expiry, and HS512 is deterministic. So two logins of one user in the same second with the same lifetime get the same string. In that case the gate's lookup finds the earlier record, whose user_id is "" if that login used a backup code. `AuthGates.IssuedTokenAdmitted` assumes the string is fresh, so it does not cover this case.
- crypto/rand and its error branches: the draws are a parameter.
- Every MongoDB I/O error and every log.Fatal branch.
- MongoDB `_id` values: ids are strings, and the ObjectID of a new user is a parameter. The stored record under an id always carries that id.
- Several clock readings within one operation (WriteTokenToDatabase reads the clock twice) are one `now`.
- The float32 hour fields are `real`: they are only copied and compared with zero.
- Concurrency: requests are sequential; lost updates under parallel requests are not modelled.
- The service pass-throughs GetAllUsers and GetUserByUsername of auth/auth.go (458-474) are the store calls `AuthDb.GetAllUsers` and `UserByUsername`.
- `UserOutput`, the result type of GetOwnUser, is not defined in the source; the model returns the credential-free `UserOutputAll` projection.
- AuthStore.AuthDb.UpdateUser: the ReplaceOne is modelled as reporting "not modified" exactly when the new record equals the stored one. MongoDB counts ModifiedCount on the encoded document instead. The model ignores encoding-only differences: time precision, and fields stored as explicit nulls that re-encode as omitted. ActivateUser (auth/auth.go:133) and ResetPassword (auth/auth.go:186) store nulls for oneTimePassword and resetValidUntil, and both fields are `omitempty` (auth/auth_models.go:13, 25). So the next replace of a logically unchanged record reports a change and succeeds, where the model returns "user not updated".
- Auth.AuthService.UpdateUser: inherits the store's replace abstraction. An all-empty update right after ActivateUser or ResetPassword succeeds in the source; the model reports "user not updated".
- Auth.AuthService.ActivateTOTP: inherits the store's replace abstraction. After such a `$set`, a record the call leaves logically unchanged still counts as modified in the source.
- Auth.AuthService.DeactivateTOTP: inherits the store's replace abstraction. On a user without TOTP, right after activation, the source succeeds and the model reports "user not updated".
- Logging to stdout is not modelled. This includes the plaintext one-time passwords printed by CreateUser and ForgotPassword (auth/auth.go:60, 213), the JWT printed by the middleware (auth/auth_middleware.go:33) and the store's progress messages.
